/** sleep and wakeup of src/proc.c: data guarded by a spinlock `lk`, processes
    that sleep on one channel until the data is ready, and the lock
    `ptable.lock` that makes going to sleep and waking up exclude each other. */
module Monitor {
  import opened Common

  /** What a monitor is used for: when a waiter may go on, and which updates
      the code makes while it holds the lock (by whom, from, to, and whether
      wakeup is called before the lock is released) or without it. */
  datatype Use<!D> = Use(ready: D -> bool, locked: (nat, D, D, bool) -> bool, unlocked: (nat, D, D) -> bool)

  /** An update that can let a waiter go on is followed by a wakeup. */
  ghost predicate Sound<D(!new)>(use: Use<D>)
  {
    && (forall p, d, e :: use.locked(p, d, e, false) && use.ready(e) ==> use.ready(d))
    && (forall p, d, e :: use.unlocked(p, d, e) && use.ready(e) ==> use.ready(d))
  }

  /** Where a process is. In `sleep`: WantTable holds lk and waits for
      ptable.lock; HasBoth holds both; Dozing has released lk; Parked is
      SLEEPING, ptable.lock still held by its CPU; Asleep; Woken is RUNNABLE
      again; Back has been dispatched and holds ptable.lock; Relock waits for
      lk. In `wakeup`: WantWake waits for ptable.lock, Waking holds it, Woke
      has made the sleepers RUNNABLE. */
  datatype Pc = Out | Inside | WantTable | HasBoth | Dozing | Parked | Asleep | Woken | Back | Relock
              | WantWake | Waking | Woke | Leaving

  predicate HoldsLk(pc: Pc)
  {
    pc == Inside || pc == WantTable || pc == HasBoth || pc == WantWake || pc == Waking || pc == Woke || pc == Leaving
  }

  predicate HoldsTable(pc: Pc)
  {
    pc == HasBoth || pc == Dozing || pc == Parked || pc == Back || pc == Waking || pc == Woke
  }

  /** ptable.lock may also be held by some other code, "process" |pcs|. */
  datatype State<D> = State(data: D, lk: Option<nat>, table: Option<nat>, pcs: seq<Pc>)

  datatype Step<D> =
    | Acquire(p: nat)                       // acquire(lk), first or again
    | Wait(p: nat)                          // the test fails: sleep() is called
    | Update(p: nat, data: D, wake: bool)   // a critical section's update
    | Outside(p: nat, data: D)              // an update made without the lock
    | TakeTable(p: nat)                     // acquire(&ptable.lock) in sleep or wakeup
    | DropLk(p: nat)                        // sleep: release(lk)
    | FallAsleep(p: nat)                    // sleep: chan and state are set
    | HandOver(p: nat)                      // the scheduler releases ptable.lock
    | WakeAll(p: nat)                       // wakeup1
    | Release(p: nat)                       // wakeup: release(&ptable.lock)
    | Leave(p: nat)                         // release(lk)
    | Dispatch(p: nat)                      // a scheduler takes ptable.lock and runs p
    | Resume(p: nat)                        // sleep: release(&ptable.lock)
    | OtherTake                             // other code takes ptable.lock,
    | OtherWake(p: nat)                     //   makes p RUNNABLE (kill),
    | OtherDrop                             //   and releases it

  function At<D>(s: State<D>, p: nat): Pc { if p < |s.pcs| then s.pcs[p] else Out }

  predicate Enabled<D>(use: Use<D>, s: State<D>, step: Step<D>)
  {
    match step
    case Acquire(p) => p < |s.pcs| && s.lk.None? && (s.pcs[p] == Out || s.pcs[p] == Relock)
    case Wait(p) => At(s, p) == Inside && !use.ready(s.data)
    case Update(p, d, wake) => At(s, p) == Inside && use.locked(p, s.data, d, wake)
    case Outside(p, d) => use.unlocked(p, s.data, d)
    case TakeTable(p) => (At(s, p) == WantTable || At(s, p) == WantWake) && s.table.None?
    case DropLk(p) => At(s, p) == HasBoth
    case FallAsleep(p) => At(s, p) == Dozing
    case HandOver(p) => At(s, p) == Parked
    case WakeAll(p) => At(s, p) == Waking
    case Release(p) => At(s, p) == Woke
    case Leave(p) => At(s, p) == Leaving
    case Dispatch(p) => At(s, p) == Woken && s.table.None?
    case Resume(p) => At(s, p) == Back
    case OtherTake => s.table.None?
    case OtherWake(p) => At(s, p) == Asleep && s.table == Some(|s.pcs|)
    case OtherDrop => s.table == Some(|s.pcs|)
  }

  function Goto<D>(s: State<D>, p: nat, pc: Pc): State<D>
    requires p < |s.pcs|
  {
    s.(pcs := s.pcs[p := pc])
  }

  function WokenAll(pcs: seq<Pc>): (r: seq<Pc>)
    ensures |r| == |pcs| && forall q :: 0 <= q < |r| ==> r[q] == if pcs[q] == Asleep then Woken else pcs[q]
  {
    seq(|pcs|, q requires 0 <= q < |pcs| => if pcs[q] == Asleep then Woken else pcs[q])
  }

  function Do<D>(use: Use<D>, s: State<D>, step: Step<D>): State<D>
    requires Enabled(use, s, step)
  {
    match step
    case Acquire(p) => Goto(s.(lk := Some(p)), p, Inside)
    case Wait(p) => Goto(s, p, WantTable)
    case Update(p, d, wake) => Goto(s.(data := d), p, if wake then WantWake else Leaving)
    case Outside(p, d) => s.(data := d)
    case TakeTable(p) => Goto(s.(table := Some(p)), p, if s.pcs[p] == WantTable then HasBoth else Waking)
    case DropLk(p) => Goto(s.(lk := None), p, Dozing)
    case FallAsleep(p) => Goto(s, p, Parked)
    case HandOver(p) => Goto(s.(table := None), p, Asleep)
    case WakeAll(p) => Goto(s.(pcs := WokenAll(s.pcs)), p, Woke)
    case Release(p) => Goto(s.(table := None), p, Leaving)
    case Leave(p) => Goto(s.(lk := None), p, Out)
    case Dispatch(p) => Goto(s.(table := Some(p)), p, Back)
    case Resume(p) => Goto(s.(table := None), p, Relock)
    case OtherTake => s.(table := Some(|s.pcs|))
    case OtherWake(p) => Goto(s, p, Woken)
    case OtherDrop => s.(table := None)
  }

  // ---- The invariant ----

  /** Each lock is held by exactly the process whose code says so. */
  ghost predicate Locks<D>(s: State<D>)
  {
    LkOk(s) && TableOk(s)
  }

  ghost predicate LkOk<D>(s: State<D>)
  {
    && (forall p :: 0 <= p < |s.pcs| ==> (HoldsLk(s.pcs[p]) <==> s.lk == Some(p)))
    && (s.lk.Some? ==> s.lk.value < |s.pcs|)
  }

  ghost predicate TableOk<D>(s: State<D>)
  {
    forall p :: 0 <= p < |s.pcs| ==> (HoldsTable(s.pcs[p]) <==> s.table == Some(p))
  }

  /** p has decided to wait. */
  predicate Waiting(pc: Pc)
  {
    pc == WantTable || pc == HasBoth || pc == Dozing || pc == Parked || pc == Asleep
  }

  /** The holder of lk still has a wakeup to do. */
  predicate WakeupPending<D>(s: State<D>)
  {
    s.lk.Some? && (At(s, s.lk.value) == WantWake || At(s, s.lk.value) == Waking)
  }

  /** Nobody waits for data that is ready, unless a wakeup is on its way. */
  ghost predicate NoneMissed<D>(use: Use<D>, s: State<D>)
  {
    forall p :: 0 <= p < |s.pcs| && Waiting(s.pcs[p]) ==> !use.ready(s.data) || WakeupPending(s)
  }

  ghost predicate Inv<D>(use: Use<D>, s: State<D>)
  {
    Locks(s) && NoneMissed(use, s)
  }

  lemma LkStep<D>(use: Use<D>, s: State<D>, step: Step<D>)
    requires Locks(s) && Enabled(use, s, step)
    ensures LkOk(Do(use, s, step))
  {
    hide TableOk, HoldsTable, HoldsLk;
    var t := Do(use, s, step);
    assert |t.pcs| == |s.pcs|;
    forall q | 0 <= q < |t.pcs| ensures HoldsLk(t.pcs[q]) <==> t.lk == Some(q) {
      LkMoves(use, s, step, q);
    }
  }

  lemma LkMoves<D>(use: Use<D>, s: State<D>, step: Step<D>, q: nat)
    requires LkOk(s) && Enabled(use, s, step) && q < |s.pcs|
    ensures var t := Do(use, s, step);
            |t.pcs| == |s.pcs| && (HoldsLk(t.pcs[q]) <==> t.lk == Some(q))
  {
    assert HoldsLk(s.pcs[q]) <==> s.lk == Some(q);
  }

  lemma TableStep<D>(use: Use<D>, s: State<D>, step: Step<D>)
    requires Locks(s) && Enabled(use, s, step)
    ensures TableOk(Do(use, s, step))
  {
    hide LkOk, HoldsLk;
  }

  lemma MissedStep<D(!new)>(use: Use<D>, s: State<D>, step: Step<D>)
    requires Sound(use) && Inv(use, s) && Enabled(use, s, step)
    ensures NoneMissed(use, Do(use, s, step))
  {
    var t := Do(use, s, step);
    forall q | 0 <= q < |t.pcs| && Waiting(t.pcs[q]) ensures !use.ready(t.data) || WakeupPending(t) {
      assert Waiting(s.pcs[q]) || step == Wait(q);
    }
  }

  lemma StepInv<D(!new)>(use: Use<D>, s: State<D>, step: Step<D>)
    requires Sound(use) && Inv(use, s) && Enabled(use, s, step)
    ensures Inv(use, Do(use, s, step))
  {
    LkStep(use, s, step);
    TableStep(use, s, step);
    MissedStep(use, s, step);
  }

  function After<D>(use: Use<D>, s: State<D>, run: seq<Step<D>>): State<D>
    decreases |run|
  {
    if run == [] then s else
      var t := After(use, s, run[..|run| - 1]);
      var step := run[|run| - 1];
      if Enabled(use, t, step) then Do(use, t, step) else t
  }

  ghost predicate Start<D>(s: State<D>)
  {
    s.lk.None? && s.table.None? && forall p :: 0 <= p < |s.pcs| ==> s.pcs[p] == Out
  }

  lemma {:induction false} RunInv<D(!new)>(use: Use<D>, s: State<D>, run: seq<Step<D>>)
    requires Sound(use) && Start(s)
    ensures Inv(use, After(use, s, run))
    decreases |run|
  {
    if run == [] {
    } else {
      RunInv(use, s, run[..|run| - 1]);
      var t, step := After(use, s, run[..|run| - 1]), run[|run| - 1];
      hide Inv, Enabled, Do, Sound, Start;
      if Enabled(use, t, step) {
        StepInv(use, t, step);
      }
    }
  }

  /** No lost wakeup: in every reachable state with lk free and the data ready,
      nobody is asleep or on the way to sleep. */
  lemma NoLostWakeup<D(!new)>(use: Use<D>, s: State<D>, run: seq<Step<D>>)
    requires Sound(use) && Start(s)
    ensures var t := After(use, s, run);
            t.lk.None? && use.ready(t.data) ==> forall p :: 0 <= p < |t.pcs| ==> !Waiting(t.pcs[p])
  {
    hide After;
    RunInv(use, s, run);
  }

  // ---- What sleep and wakeup do, undisturbed ----

  lemma AfterOne<D>(use: Use<D>, s: State<D>, run: seq<Step<D>>, step: Step<D>)
    requires Enabled(use, After(use, s, run), step)
    ensures After(use, s, run + [step]) == Do(use, After(use, s, run), step)
  {
    hide Do, Enabled;
    assert (run + [step])[..|run|] == run;
  }

  /** `sleep` on data that is not ready: the process is asleep and holds
      neither lock. */
  lemma Sleeps<D>(use: Use<D>, s: State<D>, p: nat)
    requires At(s, p) == Inside && !use.ready(s.data) && s.lk == Some(p) && s.table.None?
    ensures After(use, s, [] + [Wait(p)] + [TakeTable(p)] + [DropLk(p)] + [FallAsleep(p)] + [HandOver(p)])
            == State(s.data, None, None, s.pcs[p := Asleep])
  {
    hide After;
    assert After(use, s, []) == s by { Nothing(use, s); }
    AfterOne(use, s, [], Wait(p));
    AfterOne(use, s, [] + [Wait(p)], TakeTable(p));
    AfterOne(use, s, [] + [Wait(p)] + [TakeTable(p)], DropLk(p));
    AfterOne(use, s, [] + [Wait(p)] + [TakeTable(p)] + [DropLk(p)], FallAsleep(p));
    AfterOne(use, s, [] + [Wait(p)] + [TakeTable(p)] + [DropLk(p)] + [FallAsleep(p)], HandOver(p));
  }

  lemma Nothing<D>(use: Use<D>, s: State<D>)
    ensures After(use, s, []) == s
  {
  }

  /** A critical section that ends with `wakeup` has made its update when it
      comes to wake the sleepers. */
  lemma Updates<D>(use: Use<D>, s: State<D>, p: nat, d: D)
    requires At(s, p) == Inside && use.locked(p, s.data, d, true) && s.lk == Some(p) && s.table.None?
    ensures After(use, s, [] + [Update(p, d, true)] + [TakeTable(p)])
            == State(d, Some(p), Some(p), s.pcs[p := Waking])
  {
    hide After;
    assert After(use, s, []) == s by { Nothing(use, s); }
    AfterOne(use, s, [], Update(p, d, true));
    AfterOne(use, s, [] + [Update(p, d, true)], TakeTable(p));
  }

  /** `wakeup`: every sleeper can be dispatched again, and both locks are free. */
  lemma Wakes<D>(use: Use<D>, s: State<D>, p: nat)
    requires At(s, p) == Waking && s.lk == Some(p) && s.table == Some(p)
    ensures var t := After(use, s, [] + [WakeAll(p)] + [Release(p)] + [Leave(p)]);
            && t.data == s.data && t.lk.None? && t.table.None? && |t.pcs| == |s.pcs| && t.pcs[p] == Out
            && forall q :: 0 <= q < |s.pcs| && q != p ==> t.pcs[q] == if s.pcs[q] == Asleep then Woken else s.pcs[q]
  {
    hide After;
    assert After(use, s, []) == s by { Nothing(use, s); }
    AfterOne(use, s, [], WakeAll(p));
    AfterOne(use, s, [] + [WakeAll(p)], Release(p));
    AfterOne(use, s, [] + [WakeAll(p)] + [Release(p)], Leave(p));
  }

  /** A process that was woken returns from `sleep` with the lock. */
  lemma Returns<D>(use: Use<D>, s: State<D>, p: nat)
    requires At(s, p) == Woken && s.lk.None? && s.table.None?
    ensures After(use, s, [] + [Dispatch(p)] + [Resume(p)] + [Acquire(p)])
            == State(s.data, Some(p), None, s.pcs[p := Inside])
  {
    hide After;
    assert After(use, s, []) == s by { Nothing(use, s); }
    AfterOne(use, s, [], Dispatch(p));
    AfterOne(use, s, [] + [Dispatch(p)], Resume(p));
    AfterOne(use, s, [] + [Dispatch(p)] + [Resume(p)], Acquire(p));
  }
}
