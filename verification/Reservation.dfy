/** Log space: `begin_op` reserves MAXOPBLOCKS per operation, `log_write`
    panics when the log is full. When can it? */
module Reservation {
  import opened Blocks
  import opened Common
  import opened LogSpec
  import opened GroupCommit

  /** The budget the outstanding operations have not used yet. */
  ghost function Unused(limit: nat, ops: map<Op, set<nat>>): (n: int)
    decreases |ops|
  {
    if ops == map[] then 0 else
      var op :| op in ops;
      assert |ops - {op}| < |ops| by { assert ops.Keys == (ops - {op}).Keys + {op}; }
      limit - |ops[op]| + Unused(limit, ops - {op})
  }

  lemma {:induction false} UnusedRemove(limit: nat, ops: map<Op, set<nat>>, op: Op)
    requires op in ops
    ensures Unused(limit, ops) == limit - |ops[op]| + Unused(limit, ops - {op})
    decreases |ops|
  {
    var first :| first in ops && Unused(limit, ops) == limit - |ops[first]| + Unused(limit, ops - {first});
    if first != op {
      assert |ops - {first}| < |ops| by { assert ops.Keys == (ops - {first}).Keys + {first}; }
      assert |ops - {op}| < |ops| by { assert ops.Keys == (ops - {op}).Keys + {op}; }
      UnusedRemove(limit, ops - {first}, op);
      UnusedRemove(limit, ops - {op}, first);
      assert ops - {first} - {op} == ops - {op} - {first};
    }
  }

  lemma UnusedPut(limit: nat, ops: map<Op, set<nat>>, op: Op, bs: set<nat>)
    ensures Unused(limit, ops[op := bs]) == limit - |bs| + Unused(limit, ops - {op})
  {
    UnusedRemove(limit, ops[op := bs], op);
    assert ops[op := bs] - {op} == ops - {op};
  }

  lemma Distribute(a: int, b: int)
    ensures a * (b + 1) == a + a * b
  {
  }

  lemma {:induction false} UnusedBounds(limit: nat, ops: map<Op, set<nat>>)
    requires forall op :: op in ops ==> |ops[op]| <= limit
    ensures 0 <= Unused(limit, ops) <= limit * |ops|
    decreases |ops|
  {
    if ops != map[] {
      var op :| op in ops;
      assert ops.Keys == (ops - {op}).Keys + {op};
      var rest := ops - {op};
      UnusedRemove(limit, ops, op);
      UnusedBounds(limit, rest);
      assert |ops| == |rest| + 1;
      Distribute(limit, |rest|);
    }
  }

  /** What the log may hold, as a function of the number of blocks an
      operation may log. */
  function Bound(limit: nat): int { LOGSIZE - 2 * (MAXOPBLOCKS - limit) }

  ghost predicate Reserved(limit: nat, s: State)
  {
    && |s.lh| + Unused(limit, s.ops) <= Bound(limit)
    && (forall op :: op in s.ops ==> |s.ops[op]| <= limit)
    && (s.phase.Running? && s.ops == map[] ==> s.lh == [])
  }

  lemma BeginReserved(limit: nat, s: State, op: Op)
    requires limit <= MAXOPBLOCKS && Reserved(limit, s) && CanBegin(s, op) && op !in s.ops
    ensures Reserved(limit, DoBegin(s, op))
  {
    UnusedPut(limit, s.ops, op, {});
    assert s.ops - {op} == s.ops;
    UnusedBounds(limit, s.ops);
    if s.ops != map[] {
      Spread(limit, |s.ops| + 1);
    }
  }

  /** From two operations on, the difference between the reservation and the
      budgets is at least that of two operations. */
  lemma Spread(limit: nat, k: nat)
    requires limit <= MAXOPBLOCKS && k >= 2
    ensures k * MAXOPBLOCKS - (limit + limit * (k - 1)) >= 2 * (MAXOPBLOCKS - limit)
  {
    assert limit + limit * (k - 1) == k * limit;
    assert k * (MAXOPBLOCKS - limit) >= 2 * (MAXOPBLOCKS - limit);
    assert k * MAXOPBLOCKS - k * limit == k * (MAXOPBLOCKS - limit);
  }

  lemma LogWriteReserved(l: Layout, limit: nat, s: State, op: Op, at: nat, data: Block)
    requires Reserved(limit, s) && CanLogWrite(l, limit, s, op, at) && Listed(s)
    ensures Reserved(limit, DoLogWrite(s, op, at, data))
  {
    UnusedPut(limit, s.ops, op, s.ops[op] + {at});
    UnusedRemove(limit, s.ops, op);
    if at !in s.lh {
      assert at !in s.ops[op];
    } else if at in s.ops[op] {
      assert s.ops[op] + {at} == s.ops[op];
    }
  }

  lemma EndReserved(limit: nat, s: State, op: Op)
    requires Reserved(limit, s) && op in s.ops
    ensures Reserved(limit, DoEnd(s, op))
  {
    UnusedRemove(limit, s.ops, op);
  }

  lemma StepReserved(l: Layout, limit: nat, d0: Disk, s: State, a: Step)
    requires limit <= MAXOPBLOCKS && Reserved(limit, s) && Enabled(l, limit, s, a) && Inv(l, d0, s)
    ensures Reserved(limit, Do(l, limit, s, a))
  {
    match a {
      case Begin(op) => BeginReserved(limit, s, op);
      case LogWrite(op, at, data) => LogWriteReserved(l, limit, s, op, at, data);
      case End(op) => EndReserved(limit, s, op);
      case DiskWrite =>
      case Finish =>
      case Crash =>
    }
  }

  /** The reservation invariant, over every run: the blocks logged so far plus
      the unused budgets of the outstanding operations fit the log. */
  lemma {:induction false} RunReserved(l: Layout, limit: nat, d: Disk, run: seq<Step>)
    requires limit <= MAXOPBLOCKS && DiskOk(l, d) && Legal(l, limit, d, run)
    ensures Reserved(limit, After(l, limit, d, run))
    decreases |run|
  {
    if run != [] {
      RunReserved(l, limit, d, run[..|run| - 1]);
      RunInv(l, limit, d, run[..|run| - 1]);
      StepReserved(l, limit, Recover(l, d), After(l, limit, d, run[..|run| - 1]), run[|run| - 1]);
    }
  }

  /** With operations that log at most MAXOPBLOCKS-1 blocks each, neither
      capacity panic of `log_write` can fire on a log of LOGSIZE blocks. */
  lemma NoCapacityPanic(l: Layout, limit: nat, d: Disk, run: seq<Step>)
    requires DiskOk(l, d) && Legal(l, limit, d, run)
    requires limit < MAXOPBLOCKS && l.size >= LOGSIZE
    ensures !TooBig(l, After(l, limit, d, run).lh)
  {
    RunReserved(l, limit, d, run);
    UnusedBounds(limit, After(l, limit, d, run).ops);
  }

  // ---- The bound is sharp ----

  function Range(first: nat, n: nat): (r: seq<nat>)
    ensures |r| == n
    ensures forall b :: b in r <==> first <= b < first + n
  {
    if n == 0 then [] else Range(first, n - 1) + [first + n - 1]
  }

  lemma Extend(l: Layout, limit: nat, d: Disk, run: seq<Step>, a: Step)
    requires Legal(l, limit, d, run) && Enabled(l, limit, After(l, limit, d, run), a)
    ensures Legal(l, limit, d, run + [a])
    ensures After(l, limit, d, run + [a]) == Do(l, limit, After(l, limit, d, run), a)
  {
    assert (run + [a])[..|run|] == run;
  }

  /** The state `t` is `s` after operation `op` logged n fresh blocks. */
  ghost predicate Filled(s: State, t: State, op: Op, first: nat, n: nat)
  {
    && t.lh == s.lh + Range(first, n) && |t.disk| == |s.disk|
    && t.ops == s.ops[op := Span(first, n)]
  }

  lemma FilledNone(s: State, op: Op, first: nat)
    requires op in s.ops && s.ops[op] == {}
    ensures Filled(s, s, op, first, 0)
  {
    assert s.ops[op := {}] == s.ops;
  }

  lemma FillStep(l: Layout, limit: nat, s: State, t: State, op: Op, first: nat, n: nat, data: Block)
    requires Filled(s, t, op, first, n) && n < limit
    requires Home(l, |s.disk|, first + n) && first + n !in s.lh
    requires |s.lh| + n < LOGSIZE && |s.lh| + n < l.size - 1
    ensures CanLogWrite(l, limit, t, op, first + n)
    ensures Filled(s, DoLogWrite(t, op, first + n, data), op, first, n + 1)
  {
    hide Span, Range;
    FillLists(s, op, first, n);
  }

  lemma FillLists(s: State, op: Op, first: nat, n: nat)
    ensures s.lh + Range(first, n) + [first + n] == s.lh + Range(first, n + 1)
    ensures s.ops[op := Span(first, n)][op := Span(first, n + 1)] == s.ops[op := Span(first, n + 1)]
    ensures first + n !in s.lh ==> first + n !in s.lh + Range(first, n)
    ensures Span(first, n) + {first + n} == Span(first, n + 1)
  {
  }

  /** Operation `op` can log n fresh blocks while it stays within its limit
      and the log has room. */
  lemma {:induction false} FillRun(l: Layout, limit: nat, d: Disk, run: seq<Step>, op: Op, first: nat, n: nat)
    returns (r: seq<Step>)
    requires Legal(l, limit, d, run)
    requires var s := After(l, limit, d, run);
             && op in s.ops && s.ops[op] == {} && n <= limit
             && (forall b :: first <= b < first + n ==> Home(l, |s.disk|, b) && b !in s.lh)
             && |s.lh| + n <= LOGSIZE && |s.lh| + n < l.size
    ensures Legal(l, limit, d, r) && Filled(After(l, limit, d, run), After(l, limit, d, r), op, first, n)
    decreases n
  {
    hide Zeroes, Legal, After, Range, Span, Filled, CanLogWrite, DoLogWrite;
    var s := After(l, limit, d, run);
    if n == 0 {
      r := run;
      FilledNone(s, op, first);
    } else {
      var m := FillRun(l, limit, d, run, op, first, n - 1);
      FillStep(l, limit, s, After(l, limit, d, m), op, first, n - 1, Zeroes());
      var a := LogWrite(op, first + (n - 1), Zeroes());
      Extend(l, limit, d, m, a);
      r := m + [a];
    }
  }

  ghost predicate Crowded(l: Layout, limit: nat, d: Disk, run: seq<Step>, first: nat)
  {
    && Legal(l, limit, d, run)
    && var s := After(l, limit, d, run);
       2 in s.ops && |s.ops[2]| < limit && first + 29 !in s.lh && TooBig(l, s.lh)
  }

  /** Two operations log ten blocks each and a third one nine. */
  lemma CrowdFills(l: Layout, limit: nat, d: Disk, r0: seq<Step>, first: nat) returns (r: seq<Step>)
    requires MAXOPBLOCKS <= limit && Legal(l, limit, d, r0) && l.size == LOGSIZE
    requires var s := After(l, limit, d, r0);
             s.lh == [] && |s.disk| == |d| && s.ops == map[0 := {}, 1 := {}, 2 := {}]
    requires forall b :: first <= b < first + 30 ==> Home(l, |d|, b)
    ensures Crowded(l, limit, d, r, first)
  {
    hide Legal, After, Home;
    var r1 := FillRun(l, limit, d, r0, 0, first, 10);
    var r2 := FillRun(l, limit, d, r1, 1, first + 10, 10);
    r := FillRun(l, limit, d, r2, 2, first + 20, 9);
  }

  /** Boot on a disk with an empty log leads to a state with no operations. */
  lemma Settle(l: Layout, limit: nat, d: Disk) returns (r: seq<Step>)
    requires DiskOk(l, d) && HeaderOf(d[l.start]) == []
    ensures Legal(l, limit, d, r)
    ensures var s := After(l, limit, d, r);
            s.phase.Running? && s.lh == [] && |s.disk| == |d| && s.ops == map[] && s.used == {}
  {
    hide RecoverWrites, HeaderOf;
    Extend(l, limit, d, [], DiskWrite);
    r := [] + [DiskWrite];
    Extend(l, limit, d, r, Finish);
    r := r + [Finish];
  }

  lemma BeginOne(l: Layout, limit: nat, d: Disk, run: seq<Step>, op: Op) returns (r: seq<Step>)
    requires Legal(l, limit, d, run) && CanBegin(After(l, limit, d, run), op)
    ensures Legal(l, limit, d, r) && After(l, limit, d, r) == DoBegin(After(l, limit, d, run), op)
  {
    Extend(l, limit, d, run, Begin(op));
    r := run + [Begin(op)];
  }

  lemma CrowdBegins(l: Layout, limit: nat, d: Disk) returns (r: seq<Step>)
    requires DiskOk(l, d) && HeaderOf(d[l.start]) == []
    ensures Legal(l, limit, d, r)
    ensures var s := After(l, limit, d, r);
            s.lh == [] && |s.disk| == |d| && s.ops == map[0 := {}, 1 := {}, 2 := {}]
  {
    hide Legal, After;
    r := Settle(l, limit, d);
    r := BeginOne(l, limit, d, r, 0);
    r := BeginOne(l, limit, d, r, 1);
    r := BeginOne(l, limit, d, r, 2);
  }

  /** The promise that an operation may log up to MAXOPBLOCKS blocks fails: on
      a log of LOGSIZE blocks, as mkfs lays it out, three operations within
      such a budget reach a state where the next block of one hits the panic. */
  lemma FullBudgetPanics(l: Layout, limit: nat, d: Disk, first: nat)
    requires DiskOk(l, d) && HeaderOf(d[l.start]) == [] && l.size == LOGSIZE
    requires MAXOPBLOCKS <= limit
    requires forall b :: first <= b < first + 30 ==> Home(l, |d|, b)
    ensures exists run :: Crowded(l, limit, d, run, first)
  {
    var run := CrowdBegins(l, limit, d);
    run := CrowdFills(l, limit, d, run, first);
  }

  /** The run, if possible at all, ends with room in the log. */
  ghost predicate NotFull(l: Layout, limit: nat, d: Disk, run: seq<Step>)
  {
    Legal(l, limit, d, run) ==> !TooBig(l, After(l, limit, d, run).lh)
  }

  /** Exactly when the capacity panics are unreachable: when operations log
      fewer than MAXOPBLOCKS blocks each. */
  lemma CapacityExact(l: Layout, limit: nat, d: Disk, first: nat)
    requires DiskOk(l, d) && HeaderOf(d[l.start]) == [] && l.size == LOGSIZE
    requires forall b :: first <= b < first + 30 ==> Home(l, |d|, b)
    ensures (forall run :: NotFull(l, limit, d, run)) <==> limit < MAXOPBLOCKS
  {
    if limit < MAXOPBLOCKS {
      forall run ensures NotFull(l, limit, d, run) {
        if Legal(l, limit, d, run) { NoCapacityPanic(l, limit, d, run); }
      }
    } else {
      FullBudgetPanics(l, limit, d, first);
      var run :| Crowded(l, limit, d, run, first);
      assert !NotFull(l, limit, d, run);
    }
  }
}
