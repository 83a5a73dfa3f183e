/** Every list of transactions within the budget can be performed by the log:
    one operation each, committed before the next one begins. */
module LogRuns {
  import opened Blocks
  import opened Common
  import opened LogSpec
  import opened GroupCommit
  import opened TxnSpec
  import Reservation

  /** A transaction that the log takes: home blocks, and few enough. */
  ghost predicate Takes(l: Layout, limit: nat, size: nat, t: Txn)
  {
    |Targets(t)| <= limit && forall w :: w in t ==> Home(l, size, w.at)
  }

  /** After the run the log is idle and the groups are these transactions. */
  ghost predicate Performed(l: Layout, limit: nat, d: Disk, run: seq<Step>, txns: seq<Txn>)
  {
    && Legal(l, limit, d, run)
    && var s := After(l, limit, d, run);
       && s.phase.Running? && s.ops == map[] && |s.groups| == |txns|
       && forall j :: 0 <= j < |txns| ==> GroupWrites(s.groups[j]) == txns[j]
  }

  /** A commit or a recovery that has started can be completed. */
  lemma {:induction false} Drain(l: Layout, limit: nat, d: Disk, run: seq<Step>, todo: nat) returns (r: seq<Step>)
    requires DiskOk(l, d) && Legal(l, limit, d, run)
    requires var s := After(l, limit, d, run);
             !s.phase.Running? && WritesDefined(l, s) && s.phase.done + todo == |Writes(l, s)|
    ensures Legal(l, limit, d, r)
    ensures var s, t := After(l, limit, d, run), After(l, limit, d, r);
            t.phase.Running? && t.ops == s.ops && t.groups == s.groups && t.lh == [] && t.cur == s.cur
    decreases todo
  {
    hide Legal, After, CommitWrites, RecoverWrites, DiskOk;
    var s := After(l, limit, d, run);
    if todo == 0 {
      Reservation.Extend(l, limit, d, run, Finish);
      r := run + [Finish];
    } else {
      Reservation.Extend(l, limit, d, run, DiskWrite);
      r := Drain(l, limit, d, run + [DiskWrite], todo - 1);
    }
  }

  lemma InvWrites(l: Layout, d0: Disk, s: State)
    requires Inv(l, d0, s) && !s.phase.Running?
    ensures WritesDefined(l, s) && s.phase.done <= |Writes(l, s)|
  {
    hide CommitWrites, RecoverWrites, Unsplit, Listed;
  }

  lemma Settled(l: Layout, limit: nat, d: Disk, run: seq<Step>) returns (r: seq<Step>)
    requires DiskOk(l, d) && Legal(l, limit, d, run) && !After(l, limit, d, run).phase.Running?
    ensures Legal(l, limit, d, r)
    ensures var s, t := After(l, limit, d, run), After(l, limit, d, r);
            t.phase.Running? && t.ops == s.ops && t.groups == s.groups && t.lh == [] && t.cur == s.cur
  {
    var s := After(l, limit, d, run);
    RunInv(l, limit, d, run);
    hide Legal, After, Writes, DiskOk;
    InvWrites(l, Recover(l, d), s);
    r := Drain(l, limit, d, run, |Writes(l, s)| - s.phase.done);
  }

  lemma {:induction false} Unused(used: set<Op>) returns (op: Op)
    ensures forall x :: x in used ==> x < op
    decreases |used|
  {
    if used == {} {
      op := 0;
    } else {
      var x :| x in used;
      var y := Unused(used - {x});
      op := if x < y then y else x + 1;
      assert forall z :: z in used ==> z == x || z in used - {x};
    }
  }

  /** Operation op, alone, logs the first k writes of t. */
  lemma {:induction false} LogAll(l: Layout, limit: nat, d: Disk, run: seq<Step>, op: Op, t: Txn, k: nat)
    returns (r: seq<Step>)
    requires DiskOk(l, d) && l.size >= LOGSIZE && limit < MAXOPBLOCKS && Takes(l, limit, |d|, t) && k <= |t|
    requires Legal(l, limit, d, run)
    requires var s := After(l, limit, d, run); s.phase.Running? && s.ops == map[op := {}] && s.cur == []
    ensures Legal(l, limit, d, r)
    ensures var s, u := After(l, limit, d, run), After(l, limit, d, r);
            && u.phase.Running? && u.groups == s.groups
            && u.ops == map[op := Targets(t[..k])] && GroupWrites(u.cur) == t[..k]
    decreases k
  {
    hide Legal, After, DiskOk, TooBig, Targets;
    if k == 0 {
      r := run;
      assert t[..0] == [];
      NoTargets();
    } else {
      var m := LogAll(l, limit, d, run, op, t, k - 1);
      var u := After(l, limit, d, m);
      var w := t[k - 1];
      assert t[..k] == t[..k - 1] + [w];
      TargetsSnoc(t, k);
      Reservation.NoCapacityPanic(l, limit, d, m);
      SameSize(l, limit, d, m);
      var a := LogWrite(op, w.at, w.data);
      Reservation.Extend(l, limit, d, m, a);
      r := m + [a];
      var v := After(l, limit, d, r);
      assert GroupWrites(v.cur) == GroupWrites(u.cur) + [w];
    }
  }

  lemma NoTargets()
    ensures Targets([]) == {}
  {
  }

  lemma TargetsSnoc(t: Txn, k: nat)
    requires 0 < k <= |t|
    ensures Targets(t[..k]) == Targets(t[..k - 1]) + {t[k - 1].at} && |Targets(t[..k])| <= |Targets(t)|
    ensures t[k - 1] in t
  {
    assert t[..k] == t[..k - 1] + [t[k - 1]];
    assert forall w :: w in t[..k] <==> w in t[..k - 1] || w == t[k - 1];
    SubsetSize(Targets(t[..k]), Targets(t));
  }

  lemma SameSize(l: Layout, limit: nat, d: Disk, run: seq<Step>)
    requires DiskOk(l, d) && Legal(l, limit, d, run)
    ensures |After(l, limit, d, run).disk| == |d|
  {
    RunInv(l, limit, d, run);
  }

  /** The only operation ends and its group is committed. */
  lemma CloseOne(l: Layout, limit: nat, d: Disk, run: seq<Step>, op: Op) returns (r: seq<Step>)
    requires DiskOk(l, d) && Legal(l, limit, d, run)
    requires After(l, limit, d, run).ops.Keys == {op}
    ensures Legal(l, limit, d, r)
    ensures var s, t := After(l, limit, d, run), After(l, limit, d, r);
            t.phase.Running? && t.ops == map[] && t.groups == s.groups + [s.cur]
  {
    hide Legal, After, DiskOk;
    var s := After(l, limit, d, run);
    assert s.ops - {op} == map[];
    Reservation.Extend(l, limit, d, run, End(op));
    r := Settled(l, limit, d, run + [End(op)]);
  }

  /** One more transaction. */
  lemma PerformOne(l: Layout, limit: nat, d: Disk, run: seq<Step>, txns: seq<Txn>, t: Txn) returns (r: seq<Step>)
    requires DiskOk(l, d) && l.size >= LOGSIZE && limit < MAXOPBLOCKS && Takes(l, limit, |d|, t)
    requires Performed(l, limit, d, run, txns)
    ensures Performed(l, limit, d, r, txns + [t])
  {
    var s := After(l, limit, d, run);
    Quiescent(l, limit, d, run);
    hide Legal, After, DiskOk, Takes, Targets, GroupWrites;
    var op := Unused(s.used);
    r := Reservation.BeginOne(l, limit, d, run, op);
    assert DoBegin(s, op).ops == map[op := {}];
    r := LogAll(l, limit, d, r, op, t, |t|);
    assert t[..|t|] == t;
    r := CloseOne(l, limit, d, r, op);
  }

  lemma Quiescent(l: Layout, limit: nat, d: Disk, run: seq<Step>)
    requires DiskOk(l, d) && Legal(l, limit, d, run)
    requires After(l, limit, d, run).phase.Running? && After(l, limit, d, run).ops == map[]
    ensures After(l, limit, d, run).lh == [] && After(l, limit, d, run).cur == []
  {
    RunInv(l, limit, d, run);
  }

  /** All of them, after recovery from whatever was on the disk. */
  lemma {:induction false} Perform(l: Layout, limit: nat, d: Disk, txns: seq<Txn>) returns (r: seq<Step>)
    requires DiskOk(l, d) && l.size >= LOGSIZE && limit < MAXOPBLOCKS
    requires forall t :: t in txns ==> Takes(l, limit, |d|, t)
    ensures Performed(l, limit, d, r, txns)
    decreases |txns|
  {
    if txns == [] {
      r := Settled(l, limit, d, []);
    } else {
      var init := txns[..|txns| - 1];
      r := Perform(l, limit, d, init);
      r := PerformOne(l, limit, d, r, init, txns[|txns| - 1]);
      assert init + [txns[|txns| - 1]] == txns;
    }
  }
}
