/** The process table of src/proc.c and what its critical sections do to it
    (round-robin mode), on values. */
module ProcSpec {
  import opened Common

  const INIT: nat := 0      // initproc

  /** `wait` sleeps on the process itself, everything else on other addresses. */
  datatype Chan = OnProc(p: nat) | Other(n: nat)

  /** `making` is the child that a process in the middle of `fork` has
      allocated and not yet started. */
  datatype Proc = Proc(state: ProcState, pid: int, parent: Option<nat>, chan: Option<Chan>,
                       killed: bool, kstack: bool, making: Option<nat>)

  type Table = seq<Proc>

  /** Started and not yet exited. */
  predicate Alive(s: ProcState) { s == SLEEPING || s == RUNNABLE || s == RUNNING }

  /** Stopped running, not yet free. */
  predicate Settled(s: ProcState) { s == SLEEPING || s == RUNNABLE || s == ZOMBIE }

  /** No process starts or stops running, and none that has stopped goes away. */
  ghost predicate Gentle(t: Table, r: Table)
  {
    && |r| == |t|
    && forall p :: 0 <= p < |r| ==>
         (r[p].state == RUNNING <==> t[p].state == RUNNING) && (Settled(t[p].state) ==> Settled(r[p].state))
  }

  // ---- What the critical sections do ----

  predicate AsleepOn(e: Proc, chan: Chan) { e.state == SLEEPING && e.chan == Some(chan) }

  /** `wakeup1`. */
  function Awaken(t: Table, chan: Chan): (r: Table)
    ensures |r| == |t|
    ensures forall p :: 0 <= p < |t| ==> r[p] == if AsleepOn(t[p], chan) then t[p].(state := RUNNABLE) else t[p]
  {
    seq(|t|, p requires 0 <= p < |t| => if AsleepOn(t[p], chan) then t[p].(state := RUNNABLE) else t[p])
  }

  predicate ZombieChild(t: Table, p: nat, q: nat) { q < |t| && t[q].parent == Some(p) && t[q].state == ZOMBIE }

  ghost predicate HasZombie(t: Table, p: nat) { exists q :: ZombieChild(t, p, q) }

  /** p is in `exit`: its parent is woken, its children go to init, which is
      woken if one of them is a zombie, and p becomes a zombie. */
  ghost predicate Exited(t: Table, r: Table, p: nat)
  {
    && |r| == |t| && p < |t|
    && forall q :: 0 <= q < |t| ==> r[q] == AfterExit(t, p, q)
  }

  ghost function AfterExit(t: Table, p: nat, q: nat): Proc
    requires p < |t| && q < |t|
  {
    var parent := if t[q].parent == Some(p) then Some(INIT) else t[q].parent;
    var woken := (t[p].parent.Some? && AsleepOn(t[q], OnProc(t[p].parent.value)))
                 || (HasZombie(t, p) && AsleepOn(t[q], OnProc(INIT)));
    t[q].(parent := parent, state := if q == p then ZOMBIE else if woken then RUNNABLE else t[q].state)
  }

  /** `wait` frees the zombie q. */
  function Reaped(t: Table, q: nat): Table
    requires q < |t|
  {
    t[q := t[q].(state := UNUSED, pid := 0, parent := None, killed := false, kstack := false)]
  }

  /** `kill` of process q. */
  function Killed(t: Table, q: nat): Table
    requires q < |t|
  {
    t[q := t[q].(killed := true, state := if t[q].state == SLEEPING then RUNNABLE else t[q].state)]
  }

  // ---- The invariant of the table ----

  /** A process asleep in `wait` sleeps on itself and has no zombie child. */
  ghost predicate Waiters(t: Table)
  {
    && (forall p :: 0 <= p < |t| && t[p].state == SLEEPING && t[p].chan.Some? && t[p].chan.value.OnProc? ==>
          t[p].chan.value.p == p)
    && (forall p, q :: 0 <= p < |t| && AsleepOn(t[p], OnProc(p)) ==> !ZombieChild(t, p, q))
  }

  /** The parent of a process is another one, alive; init and free entries
      have none. */
  ghost predicate ParentOk(t: Table, q: nat)
    requires q < |t|
  {
    && (t[q].parent.Some? ==> t[q].parent.value < |t| && t[q].parent.value != q && Alive(t[t[q].parent.value].state))
    && (t[q].state == UNUSED || q == INIT ==> t[q].parent.None?)
  }

  ghost predicate Parents(t: Table) { forall q :: 0 <= q < |t| ==> ParentOk(t, q) }

  /** A child being made is an embryo, and nobody else makes it. */
  ghost predicate MakingOk(t: Table, p: nat)
    requires p < |t|
  {
    t[p].making.Some? ==>
      && Alive(t[p].state) && t[p].making.value < |t| && t[t[p].making.value].state == EMBRYO
      && (t[t[p].making.value].parent.None? || t[t[p].making.value].parent == Some(p))
  }

  ghost predicate Makings(t: Table)
  {
    && (forall p :: 0 <= p < |t| ==> MakingOk(t, p))
    && (forall p, q :: 0 <= p < |t| && 0 <= q < |t| && p != q && t[p].making.Some? ==> t[p].making != t[q].making)
  }

  /** Processes that have run have a kernel stack; init is alive. */
  ghost predicate Stacks(t: Table)
  {
    && (forall p :: 0 <= p < |t| && (Alive(t[p].state) || t[p].state == ZOMBIE) ==> t[p].kstack)
    && INIT < |t| && Alive(t[INIT].state)
  }

  ghost predicate TableInv(t: Table)
  {
    Waiters(t) && Parents(t) && Makings(t) && Stacks(t)
  }

  // ---- Every critical section keeps it ----

  /** Waking sleepers and setting `killed`. */
  ghost predicate OnlyWakes(t: Table, r: Table)
  {
    && |r| == |t|
    && forall p :: 0 <= p < |t| ==>
         && r[p] == t[p].(state := r[p].state, killed := r[p].killed)
         && (r[p].state == t[p].state || (t[p].state == SLEEPING && r[p].state == RUNNABLE))
  }

  lemma WakesInv(t: Table, r: Table)
    requires TableInv(t) && OnlyWakes(t, r)
    ensures TableInv(r) && Gentle(t, r)
  {
    forall p, q | 0 <= p < |r| && AsleepOn(r[p], OnProc(p)) ensures !ZombieChild(r, p, q) {
      assert !ZombieChild(t, p, q);
    }
    forall p | 0 <= p < |r| ensures MakingOk(r, p) && ParentOk(r, p) {
      assert MakingOk(t, p) && ParentOk(t, p);
    }
  }

  lemma ExitInv(t: Table, r: Table, p: nat)
    requires TableInv(t) && Exited(t, r, p) && p != INIT && t[p].state == RUNNING && t[p].making.None?
    ensures TableInv(r)
  {
    assert ParentOk(t, p);
    ExitWaiters(t, r, p);
    hide Waiters;
    forall q | 0 <= q < |r| ensures ParentOk(r, q) {
      assert ParentOk(t, q);
    }
    forall q | 0 <= q < |r| ensures MakingOk(r, q) {
      assert MakingOk(t, q);
    }
  }

  lemma ExitWaiters(t: Table, r: Table, p: nat)
    requires Waiters(t) && Exited(t, r, p) && p != INIT && t[p].state == RUNNING && ParentOk(t, p)
    ensures Waiters(r)
  {
    forall a, q: nat | 0 <= a < |r| && AsleepOn(r[a], OnProc(a)) ensures !ZombieChild(r, a, q) {
      assert !ZombieChild(t, a, q);
      if q < |t| && t[q].parent == Some(p) && t[q].state == ZOMBIE {
        assert ZombieChild(t, p, q);
      }
    }
  }

  lemma ReapInv(t: Table, q: nat)
    requires TableInv(t) && q < |t| && t[q].state == ZOMBIE
    ensures TableInv(Reaped(t, q))
  {
    var r := Reaped(t, q);
    forall a, b | 0 <= a < |r| && AsleepOn(r[a], OnProc(a)) ensures !ZombieChild(r, a, b) {
      assert !ZombieChild(t, a, b);
    }
    forall a | 0 <= a < |r| ensures MakingOk(r, a) && ParentOk(r, a) {
      assert MakingOk(t, a) && ParentOk(t, a) && MakingOk(t, q);
    }
  }

  /** p changes state among those of a started process; it may go to sleep in
      `wait` only when it has no zombie child. */
  lemma StateInv(t: Table, p: nat, s: ProcState, chan: Option<Chan>)
    requires TableInv(t) && p < |t| && Alive(t[p].state) && Alive(s)
    requires s == SLEEPING && chan.Some? && chan.value.OnProc? ==> chan.value.p == p && !HasZombie(t, p)
    ensures TableInv(t[p := t[p].(state := s, chan := chan)])
  {
    var r := t[p := t[p].(state := s, chan := chan)];
    forall a, b | 0 <= a < |r| && AsleepOn(r[a], OnProc(a)) ensures !ZombieChild(r, a, b) {
      assert a != p ==> !ZombieChild(t, a, b);
      assert a == p ==> !ZombieChild(t, p, b);
    }
    forall a | 0 <= a < |r| ensures MakingOk(r, a) && ParentOk(r, a) {
      assert MakingOk(t, a) && ParentOk(t, a);
    }
  }

  // fork

  /** `allocproc` under the lock: entry q becomes the child p is making. */
  function Allocated(t: Table, p: nat, q: nat, pid: int): Table
    requires p < |t| && q < |t| && p != q
  {
    t[q := t[q].(state := EMBRYO, pid := pid)][p := t[p].(making := Some(q))]
  }

  lemma AllocWaiters(t: Table, p: nat, q: nat, pid: int)
    requires Waiters(t) && p < |t| && q < |t| && Alive(t[p].state) && t[q].state == UNUSED
    ensures Waiters(Allocated(t, p, q, pid))
  {
    var r := Allocated(t, p, q, pid);
    forall a, b | 0 <= a < |r| && AsleepOn(r[a], OnProc(a)) ensures !ZombieChild(r, a, b) {
      assert !ZombieChild(t, a, b);
    }
  }

  lemma AllocInv(t: Table, p: nat, q: nat, pid: int)
    requires TableInv(t) && p < |t| && q < |t| && Alive(t[p].state) && t[q].state == UNUSED && t[p].making.None?
    ensures p != q && TableInv(Allocated(t, p, q, pid)) && Gentle(t, Allocated(t, p, q, pid))
  {
    hide Waiters;
    var r := Allocated(t, p, q, pid);
    AllocWaiters(t, p, q, pid);
    forall a | 0 <= a < |r| ensures MakingOk(r, a) && ParentOk(r, a) {
      assert MakingOk(t, a) && ParentOk(t, a) && MakingOk(t, q) && ParentOk(t, q);
    }
    forall a | 0 <= a < |t| ensures t[a].making != Some(q) {
      assert MakingOk(t, a);
    }
  }

  /** The child q of p gets its kernel stack. */
  function Stacked(t: Table, q: nat): Table
    requires q < |t|
  {
    t[q := t[q].(kstack := true)]
  }

  lemma StackInv(t: Table, q: nat)
    requires TableInv(t) && q < |t|
    ensures TableInv(Stacked(t, q)) && Gentle(t, Stacked(t, q))
  {
    var r := Stacked(t, q);
    forall a, b | 0 <= a < |r| && AsleepOn(r[a], OnProc(a)) ensures !ZombieChild(r, a, b) {
      assert !ZombieChild(t, a, b);
    }
    forall a | 0 <= a < |r| ensures MakingOk(r, a) && ParentOk(r, a) {
      assert MakingOk(t, a) && ParentOk(t, a);
    }
  }

  /** `fork` gives the child up for want of memory. */
  function Aborted(t: Table, p: nat, q: nat): Table
    requires p < |t| && q < |t| && p != q
  {
    t[q := t[q].(state := UNUSED, kstack := false)][p := t[p].(making := None)]
  }

  lemma AbortInv(t: Table, p: nat, q: nat)
    requires TableInv(t) && p < |t| && t[p].making == Some(q) && q < |t| && t[q].parent.None?
    ensures p != q && t[q].state == EMBRYO && TableInv(Aborted(t, p, q)) && Gentle(t, Aborted(t, p, q))
  {
    assert MakingOk(t, p);
    var r := Aborted(t, p, q);
    forall a, b | 0 <= a < |r| && AsleepOn(r[a], OnProc(a)) ensures !ZombieChild(r, a, b) {
      assert !ZombieChild(t, a, b);
    }
    forall a | 0 <= a < |r| ensures MakingOk(r, a) && ParentOk(r, a) {
      assert MakingOk(t, a) && ParentOk(t, a);
      assert a != p && t[a].making.Some? ==> t[a].making != t[p].making;
    }
  }

  /** `np->parent = curproc`. */
  function Adopted(t: Table, p: nat, q: nat): Table
    requires q < |t|
  {
    t[q := t[q].(parent := Some(p))]
  }

  lemma AdoptInv(t: Table, p: nat, q: nat)
    requires TableInv(t) && p < |t| && t[p].making == Some(q) && q < |t|
    ensures TableInv(Adopted(t, p, q)) && Gentle(t, Adopted(t, p, q)) && t[q].state == EMBRYO
  {
    assert MakingOk(t, p);
    var r := Adopted(t, p, q);
    forall a, b | 0 <= a < |r| && AsleepOn(r[a], OnProc(a)) ensures !ZombieChild(r, a, b) {
      assert !ZombieChild(t, a, b);
    }
    forall a | 0 <= a < |r| ensures MakingOk(r, a) && ParentOk(r, a) {
      assert MakingOk(t, a) && ParentOk(t, a);
      assert a != p && t[a].making.Some? ==> t[a].making != t[p].making;
    }
  }

  /** The locked end of `fork`: the child becomes RUNNABLE. */
  function Started(t: Table, p: nat, q: nat): Table
    requires p < |t| && q < |t| && p != q
  {
    t[q := t[q].(state := RUNNABLE)][p := t[p].(making := None)]
  }

  lemma StartInv(t: Table, p: nat, q: nat)
    requires TableInv(t) && p < |t| && t[p].making == Some(q) && q < |t| && t[q].kstack
    ensures p != q && t[q].state == EMBRYO && TableInv(Started(t, p, q)) && Gentle(t, Started(t, p, q))
  {
    assert MakingOk(t, p);
    var r := Started(t, p, q);
    forall a, b | 0 <= a < |r| && AsleepOn(r[a], OnProc(a)) ensures !ZombieChild(r, a, b) {
      assert !ZombieChild(t, a, b);
    }
    forall a | 0 <= a < |r| ensures MakingOk(r, a) && ParentOk(r, a) {
      assert MakingOk(t, a) && ParentOk(t, a) && MakingOk(t, q);
      assert a != p && t[a].making.Some? ==> t[a].making != t[p].making;
    }
  }
}
