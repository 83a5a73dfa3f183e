/** The sleep lock of src/sleeplock.c as a use of sleep and wakeup. */
module SleepLock {
  import opened Common
  import opened Monitor

  /** `holders` are the processes between the end of acquiresleep and the
      update of releasesleep. */
  datatype Slock = Slock(locked: bool, pid: int, holders: set<nat>)

  function Pid(p: nat): int { p + 1 }

  const FREE: Slock := Slock(false, 0, {})

  predicate AcquireSleep(p: nat, d: Slock, e: Slock)
  {
    !d.locked && e == Slock(true, Pid(p), d.holders + {p})
  }

  /** Only a holder calls releasesleep. */
  predicate ReleaseSleep(p: nat, d: Slock, e: Slock)
  {
    p in d.holders && e == Slock(false, 0, d.holders - {p})
  }

  predicate Available(d: Slock) { !d.locked }

  predicate Updates(p: nat, d: Slock, e: Slock, wake: bool)
  {
    if wake then ReleaseSleep(p, d, e) else AcquireSleep(p, d, e)
  }

  predicate Nothing(p: nat, d: Slock, e: Slock) { false }

  function SleepUse(): Use<Slock> { Use(Available, Updates, Nothing) }

  predicate DataOk(d: Slock)
  {
    if d.locked then exists p :: p in d.holders && d.holders == {p} && d.pid == Pid(p)
    else d.holders == {} && d.pid == 0
  }

  lemma UseSound()
    ensures Sound(SleepUse())
  {
  }

  lemma DataStep(s: State<Slock>, step: Step<Slock>)
    requires DataOk(s.data) && Enabled(SleepUse(), s, step)
    ensures DataOk(Do(SleepUse(), s, step).data)
  {
    if step.Update? && !step.wake {
      assert step.data.holders == {step.p};
    }
  }

  lemma {:induction false} DataRun(s: State<Slock>, run: seq<Step<Slock>>)
    requires DataOk(s.data)
    ensures DataOk(After(SleepUse(), s, run).data)
    decreases |run|
  {
    if run != [] {
      DataRun(s, run[..|run| - 1]);
      var t, step := After(SleepUse(), s, run[..|run| - 1]), run[|run| - 1];
      hide DataOk, SleepUse, Enabled, Do;
      if Enabled(SleepUse(), t, step) {
        DataStep(t, step);
      }
    }
  }

  /** In every run at most one process holds the sleep lock, and when the inner
      spinlock is free and the sleep lock is not taken nobody sleeps on it. */
  lemma SleeplockSafe(s: State<Slock>, run: seq<Step<Slock>>)
    requires Start(s) && s.data == FREE
    ensures var t := After(SleepUse(), s, run);
            && (forall p, q :: p in t.data.holders && q in t.data.holders ==> p == q)
            && (t.data.holders != {} <==> t.data.locked)
            && (t.lk.None? && !t.data.locked ==> forall p :: 0 <= p < |t.pcs| ==> !Waiting(t.pcs[p]))
  {
    hide After;
    UseSound();
    NoLostWakeup(SleepUse(), s, run);
    DataRun(s, run);
  }

  /** `holdingsleep`. */
  function HoldingSleep(d: Slock, p: nat): bool { d.locked && d.pid == Pid(p) }

  lemma HoldingSleepExact(s: State<Slock>, run: seq<Step<Slock>>, p: nat)
    requires Start(s) && s.data == FREE
    ensures var d := After(SleepUse(), s, run).data; HoldingSleep(d, p) <==> p in d.holders
  {
    hide After;
    DataRun(s, run);
  }

  /** What the two critical sections do: acquiresleep makes the process the only
      holder, known by its pid, of a lock nobody holds; releasesleep leaves a
      lock nobody holds. */
  lemma TakesAndGives(s: State<Slock>, run: seq<Step<Slock>>, p: nat, e: Slock, wake: bool)
    requires Start(s) && s.data == FREE && Enabled(SleepUse(), After(SleepUse(), s, run), Update(p, e, wake))
    ensures var d := After(SleepUse(), s, run).data;
            if wake then d.holders == {p} && d.locked && e == Slock(false, 0, {})
            else d == Slock(false, 0, {}) && e == Slock(true, p + 1, {p})
  {
    hide After;
    DataRun(s, run);
  }
}
