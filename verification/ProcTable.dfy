/** The scans of the process table in src/proc.c, in place. */
module ProcTable {
  import opened Common
  import opened ProcSpec

  /** How one scan of `wait` ends. */
  datatype WaitResult = Freed(q: nat, pid: int) | Failed | Slept

  class Ptable {
    const proc: array<Proc>

    constructor (n: nat)
      requires n > 0
      ensures fresh(proc) && proc.Length == n
    {
      proc := new Proc[n](i => Proc(UNUSED, 0, None, None, false, false, None));
    }

    /** `wakeup1`. */
    method Wakeup1(chan: Chan)
      modifies proc
      ensures proc[..] == Awaken(old(proc[..]), chan)
      ensures forall q :: 0 <= q < proc.Length && old(proc[q].state) == SLEEPING && old(proc[q].chan) == Some(chan) ==>
                proc[q] == old(proc[q]).(state := RUNNABLE)
      ensures forall q :: 0 <= q < proc.Length ==>
                proc[q] == old(proc[q]) || (old(proc[q].state) == SLEEPING && old(proc[q].chan) == Some(chan))
    {
      for i := 0 to proc.Length
        invariant forall p :: i <= p < proc.Length ==> proc[p] == old(proc[p])
        invariant forall p :: 0 <= p < i ==>
                    proc[p] == if AsleepOn(old(proc[p]), chan) then old(proc[p]).(state := RUNNABLE) else old(proc[p])
      {
        if proc[i].state == SLEEPING && proc[i].chan == Some(chan) {
          proc[i] := proc[i].(state := RUNNABLE);
        }
      }
    }

    /** The locked part of `exit` up to sched(); false is the panic "init
        exiting". The invariant of the table is kept. */
    method Exit(p: nat) returns (ok: bool)
      requires TableInv(proc[..]) && p < proc.Length && proc[p].state == RUNNING && proc[p].making.None?
      modifies proc
      ensures ok <==> p != INIT
      ensures !ok ==> proc[..] == old(proc[..])
      ensures ok ==> Exited(old(proc[..]), proc[..], p) && TableInv(proc[..])
    {
      hide TableInv, Waiters, Parents, Makings, Stacks, Exited, AfterExit, HasZombie;
      if p == INIT {
        return false;
      }
      ghost var t := proc[..];
      if proc[p].parent.Some? {
        Wakeup1(OnProc(proc[p].parent.value));
      }
      PassChildren(p, t);
      ghost var s := proc[..];
      proc[p] := proc[p].(state := ZOMBIE);
      hide Passing, AsleepOn;
      PassedAll(t, s, p);
      ExitInv(t, proc[..], p);
      return true;
    }

    /** The loop of `exit` that passes the children of p to init. */
    method PassChildren(p: nat, ghost t: Table)
      requires |t| == proc.Length && p < |t| && p != INIT && t[p].state == RUNNING
      requires forall q :: 0 <= q < |t| ==> proc[q] == Passing(t, p, q, 0, false)
      modifies proc
      ensures forall q :: 0 <= q < |t| ==> proc[q] == Passing(t, p, q, |t|, HasZombie(t, p))
    {
      ghost var found := false;
      for i := 0 to proc.Length
        invariant found ==> HasZombie(t, p)
        invariant !found ==> forall q :: 0 <= q < i ==> !ZombieChild(t, p, q)
        invariant forall q :: 0 <= q < |t| ==> proc[q] == Passing(t, p, q, i, found)
      {
        if proc[i].parent == Some(p) {
          proc[i] := proc[i].(parent := Some(INIT));
          if proc[i].state == ZOMBIE {
            assert ZombieChild(t, p, i);
            found := true;
            Wakeup1(OnProc(INIT));
          }
        }
      }
      assert !found ==> !HasZombie(t, p);
    }

    /** One scan of `wait` for process p: a zombie child is freed and its pid
        returned; without children, or when p is killed, wait fails; otherwise
        p goes to sleep on itself. */
    method Wait(p: nat) returns (r: WaitResult)
      requires TableInv(proc[..]) && p < proc.Length && proc[p].state == RUNNING
      modifies proc
      ensures TableInv(proc[..])
      ensures r.Freed? <==> HasZombie(old(proc[..]), p)
      ensures r.Freed? ==> ZombieChild(old(proc[..]), p, r.q) && r.pid == old(proc[..])[r.q].pid
                           && proc[..] == Reaped(old(proc[..]), r.q)
      ensures r.Freed? ==> && r.q < proc.Length && proc[r.q].state == UNUSED && proc[r.q].pid == 0
                           && proc[r.q].parent == None && !proc[r.q].killed && !proc[r.q].kstack
                           && old(proc[r.q].state) == ZOMBIE && old(proc[r.q].parent) == Some(p)
                           && (forall j :: 0 <= j < proc.Length && j != r.q ==> proc[j] == old(proc[j]))
                           && (forall j :: 0 <= j < r.q ==>
                                 old(proc[j].parent) != Some(p) || old(proc[j].state) != ZOMBIE)
      ensures !r.Freed? ==> forall j :: 0 <= j < proc.Length ==>
                old(proc[j].parent) != Some(p) || old(proc[j].state) != ZOMBIE
      ensures r.Failed? <==> !HasZombie(old(proc[..]), p)
                             && (|| old(proc[p].killed)
                                 || forall q :: 0 <= q < |old(proc[..])| ==> old(proc[..])[q].parent != Some(p))
      ensures r.Failed? ==> proc[..] == old(proc[..])
      ensures r.Slept? ==> proc[..] == old(proc[..])[p := old(proc[p]).(state := SLEEPING, chan := Some(OnProc(p)))]
    {
      ghost var t := proc[..];
      hide TableInv, Waiters, Parents, Makings, Stacks;
      var havekids, zombie := FindZombie(p);
      if zombie.Some? {
        var q := zombie.value;
        NoZombie(t, p, q);
        var pid := proc[q].pid;
        ReapInv(t, q);
        proc[q] := proc[q].(state := UNUSED, pid := 0, parent := None, killed := false, kstack := false);
        assert proc[..] == Reaped(t, q);
        return Freed(q, pid);
      }
      NoZombie(t, p, |t|);
      if !havekids || proc[p].killed {
        return Failed;
      }
      StateInv(t, p, SLEEPING, Some(OnProc(p)));
      proc[p] := proc[p].(state := SLEEPING, chan := Some(OnProc(p)));
      assert proc[..] == t[p := t[p].(state := SLEEPING, chan := Some(OnProc(p)))];
      return Slept;
    }

    method FindZombie(p: nat) returns (havekids: bool, zombie: Option<nat>)
      requires p < proc.Length
      ensures zombie.Some? ==> ZombieChild(proc[..], p, zombie.value)
                               && forall j :: 0 <= j < zombie.value ==> !ZombieChild(proc[..], p, j)
      ensures zombie.None? ==> !HasZombie(proc[..], p)
      ensures zombie.None? ==> (havekids <==> exists q :: 0 <= q < proc.Length && proc[q].parent == Some(p))
    {
      havekids := false;
      for i := 0 to proc.Length
        invariant havekids <==> exists q :: 0 <= q < i && proc[q].parent == Some(p)
        invariant forall q :: 0 <= q < i ==> !ZombieChild(proc[..], p, q)
      {
        if proc[i].parent == Some(p) {
          havekids := true;
          if proc[i].state == ZOMBIE {
            return true, Some(i);
          }
        }
      }
      return havekids, None;
    }

    /** `kill`: the first process with this pid is marked, and woken if asleep. */
    method Kill(pid: int) returns (found: bool)
      requires TableInv(proc[..])
      modifies proc
      ensures TableInv(proc[..])
      ensures found <==> exists q :: 0 <= q < |old(proc[..])| && old(proc[..])[q].pid == pid
      ensures !found ==> proc[..] == old(proc[..])
      ensures found ==> exists q :: 0 <= q < |old(proc[..])| && old(proc[..])[q].pid == pid
                                    && (forall j :: 0 <= j < q ==> old(proc[..])[j].pid != pid)
                                    && proc[..] == Killed(old(proc[..]), q)
                                    && proc[q].killed && proc[q].pid == pid
                                    && proc[q].state == (if old(proc[..])[q].state == SLEEPING then RUNNABLE
                                                         else old(proc[..])[q].state)
                                    && proc[q].parent == old(proc[..])[q].parent
                                    && forall j :: 0 <= j < |old(proc[..])| && j != q ==> proc[j] == old(proc[..])[j]
    {
      hide TableInv, Waiters, Parents, Makings, Stacks;
      ghost var t := proc[..];
      for i := 0 to proc.Length
        invariant proc[..] == t
        invariant forall q :: 0 <= q < i ==> t[q].pid != pid
      {
        if proc[i].pid == pid {
          proc[i] := proc[i].(killed := true);
          if proc[i].state == SLEEPING {
            proc[i] := proc[i].(state := RUNNABLE);
          }
          assert proc[..] == Killed(t, i);
          WakesInv(t, proc[..]);
          return true;
        }
      }
      return false;
    }
  }

  lemma PassedAll(t: Table, s: Table, p: nat)
    requires |s| == |t| && p < |t|
    requires forall q :: 0 <= q < |t| ==> s[q] == Passing(t, p, q, |t|, HasZombie(t, p))
    ensures Exited(t, s[p := s[p].(state := ZOMBIE)], p)
  {
    hide HasZombie;
  }

  /** What exit of p does, entry by entry: p is a zombie, its children are
      init's, and awake are those who slept on p's parent, or on init when a
      child of p is a zombie; nothing else changes. */
  lemma ExitWakes(t: Table, r: Table, p: nat)
    requires Exited(t, r, p)
    ensures r[p].state == ZOMBIE
    ensures forall q :: 0 <= q < |t| ==>
              && r[q].parent == (if t[q].parent == Some(p) then Some(0) else t[q].parent)
              && r[q] == t[q].(state := r[q].state, parent := r[q].parent)
    ensures forall q :: 0 <= q < |t| && q != p && t[q].state == SLEEPING
                        && t[p].parent.Some? && t[q].chan == Some(OnProc(t[p].parent.value)) ==>
              r[q].state == RUNNABLE
    ensures forall q, z :: 0 <= q < |t| && 0 <= z < |t| && q != p && t[q].state == SLEEPING
                           && t[q].chan == Some(OnProc(0)) && t[z].parent == Some(p) && t[z].state == ZOMBIE ==>
              r[q].state == RUNNABLE
    ensures forall q :: 0 <= q < |t| && q != p && r[q].state != t[q].state ==>
              && r[q].state == RUNNABLE && t[q].state == SLEEPING
              && (|| (t[p].parent.Some? && t[q].chan == Some(OnProc(t[p].parent.value)))
                  || (&& t[q].chan == Some(OnProc(0))
                      && exists z :: 0 <= z < |t| && t[z].parent == Some(p) && t[z].state == ZOMBIE))
  {
    assert forall z :: 0 <= z < |t| && t[z].parent == Some(p) && t[z].state == ZOMBIE ==> ZombieChild(t, p, z);
  }

  lemma NoZombie(t: Table, p: nat, n: nat)
    requires n <= |t| && forall j :: 0 <= j < n ==> !ZombieChild(t, p, j)
    ensures forall j :: 0 <= j < n ==> t[j].parent != Some(p) || t[j].state != ZOMBIE
  {
    forall j | 0 <= j < n ensures t[j].parent != Some(p) || t[j].state != ZOMBIE {
      assert !ZombieChild(t, p, j);
    }
  }

  /** Entry q while `exit` of p has handed over the first i entries, `found`
      telling whether a zombie was among the children. */
  function Passing(t: Table, p: nat, q: nat, i: nat, found: bool): Proc
    requires p < |t| && q < |t|
  {
    var parent := if q < i && t[q].parent == Some(p) then Some(INIT) else t[q].parent;
    var woken := (t[p].parent.Some? && AsleepOn(t[q], OnProc(t[p].parent.value)))
                 || (found && AsleepOn(t[q], OnProc(INIT)));
    t[q].(parent := parent, state := if woken then RUNNABLE else t[q].state)
  }
}
