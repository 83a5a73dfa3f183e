/** The waiting in begin_op and end_op of src/log.c as a use of sleep and
    wakeup. */
module LogWait {
  import opened Monitor
  import Blocks
  import GroupCommit
  import LogSpec

  datatype LogData = LogData(outstanding: nat, committing: bool, n: nat)

  /** The test of begin_op: no commit is running and the reservation fits. */
  predicate Admits(d: LogData)
  {
    !d.committing && d.n + (d.outstanding + 1) * LogSpec.MAXOPBLOCKS <= LogSpec.LOGSIZE
  }

  predicate BeginOp(d: LogData, e: LogData) { Admits(d) && e == d.(outstanding := d.outstanding + 1) }

  /** log_write adds a block to the list or finds it there. */
  predicate LogWrite(d: LogData, e: LogData) { d.outstanding > 0 && (e == d || e == d.(n := d.n + 1)) }

  /** end_op of an operation that is not the last one wakes the waiters. */
  predicate EndOp(d: LogData, e: LogData) { d.outstanding > 1 && e == d.(outstanding := d.outstanding - 1) }

  /** end_op of the last operation starts the commit. */
  predicate LastEndOp(d: LogData, e: LogData)
  {
    d.outstanding == 1 && e == d.(outstanding := 0, committing := true)
  }

  /** The second critical section of end_op, after commit. */
  predicate Committed(d: LogData, e: LogData) { d.committing && e == d.(committing := false) }

  /** commit clears the header without holding the lock. */
  predicate ClearHeader(d: LogData, e: LogData) { d.committing && e == d.(n := 0) }

  predicate Updates(p: nat, d: LogData, e: LogData, wake: bool)
  {
    if wake then EndOp(d, e) || Committed(d, e) else BeginOp(d, e) || LogWrite(d, e) || LastEndOp(d, e)
  }

  predicate Background(p: nat, d: LogData, e: LogData) { ClearHeader(d, e) }

  function LogUse(): Use<LogData> { Use(Admits, Updates, Background) }

  lemma UseSound()
    ensures Sound(LogUse())
  {
  }

  predicate DataOk(d: LogData) { d.committing ==> d.outstanding == 0 }

  lemma {:induction false} DataRun(s: State<LogData>, run: seq<Step<LogData>>)
    requires DataOk(s.data)
    ensures DataOk(After(LogUse(), s, run).data)
    decreases |run|
  {
    if run != [] {
      DataRun(s, run[..|run| - 1]);
      var t, step := After(LogUse(), s, run[..|run| - 1]), run[|run| - 1];
      hide DataOk, LogUse, Enabled, Do;
      if Enabled(LogUse(), t, step) {
        DataStep(t, step);
      }
    }
  }

  lemma DataStep(s: State<LogData>, step: Step<LogData>)
    requires DataOk(s.data) && Enabled(LogUse(), s, step)
    ensures DataOk(Do(LogUse(), s, step).data)
  {
  }

  /** In every run, when log.lock is free and begin_op's test would succeed,
      nobody sleeps on the log; and no operation is outstanding during a
      commit, so the panic in end_op is never reached. */
  lemma LogWaitersSafe(s: State<LogData>, run: seq<Step<LogData>>)
    requires Start(s) && s.data == LogData(0, false, 0)
    ensures var t := After(LogUse(), s, run);
            && (t.lk.None? && Admits(t.data) ==> forall p :: 0 <= p < |t.pcs| ==> !Waiting(t.pcs[p]))
            && (t.data.committing ==> t.data.outstanding == 0)
  {
    hide After;
    UseSound();
    NoLostWakeup(LogUse(), s, run);
    DataRun(s, run);
  }

  // ---- The commit protocol ----

  /** What begin_op and end_op look at, in a state of the commit protocol. */
  function DataOf(s: GroupCommit.State): LogData { LogData(|s.ops|, s.phase.Committing?, |s.lh|) }

  /** Every step of the commit protocol but a crash is one of the updates
      above, so what is shown here of the waiting holds of its runs; and
      begin_op admits an operation exactly when the protocol does. */
  lemma StepUpdates(l: LogSpec.Layout, limit: nat, d0: Blocks.Disk, s: GroupCommit.State, a: GroupCommit.Step)
    requires GroupCommit.Inv(l, d0, s) && GroupCommit.Enabled(l, limit, s, a) && !a.Crash?
    ensures var d, e := DataOf(s), DataOf(GroupCommit.Do(l, limit, s, a));
            match a
            case Begin(_) => BeginOp(d, e)
            case LogWrite(_, _, _) => LogWrite(d, e)
            case End(_) => EndOp(d, e) || LastEndOp(d, e)
            case DiskWrite => e == d
            case Finish => e == d || (ClearHeader(d, d.(n := 0)) && Committed(d.(n := 0), e))
  {
    hide GroupCommit.Inv, GroupCommit.Writes, GroupCommit.WritesDefined, DataOf, BeginOp, LogWrite, EndOp, LastEndOp;
    hide ClearHeader, Committed, GroupCommit.DoBegin, GroupCommit.DoLogWrite, GroupCommit.DoEnd, GroupCommit.DoFinish;
    InvFacts(l, d0, s);
    match a {
      case Begin(op) => BeginUpdates(s, op);
      case LogWrite(op, at, data) => LogWriteUpdates(s, op, at, data);
      case End(op) => EndUpdates(s, op);
      case DiskWrite => DiskWriteUpdates(l, s);
      case Finish => FinishUpdates(s);
    }
  }

  lemma BeginUpdates(s: GroupCommit.State, op: GroupCommit.Op)
    requires GroupCommit.CanBegin(s, op) && s.ops.Keys <= s.used
    ensures BeginOp(DataOf(s), DataOf(GroupCommit.DoBegin(s, op)))
  {
    assert op !in s.ops;
    OpsPut(s.ops, op, {});
  }

  lemma LogWriteUpdates(s: GroupCommit.State, op: GroupCommit.Op, at: nat, data: Blocks.Block)
    requires op in s.ops
    ensures LogWrite(DataOf(s), DataOf(GroupCommit.DoLogWrite(s, op, at, data)))
  {
    OpsPut(s.ops, op, s.ops[op] + {at});
  }

  lemma EndUpdates(s: GroupCommit.State, op: GroupCommit.Op)
    requires op in s.ops && s.phase.Running?
    ensures var d, e := DataOf(s), DataOf(GroupCommit.DoEnd(s, op)); EndOp(d, e) || LastEndOp(d, e)
  {
    OpsPut(s.ops, op, s.ops[op]);
    OpsDrop(s.ops, op);
  }

  lemma DiskWriteUpdates(l: LogSpec.Layout, s: GroupCommit.State)
    requires GroupCommit.CanWrite(l, s)
    ensures DataOf(GroupCommit.DoWrite(l, s)) == DataOf(s)
  {
    hide GroupCommit.Writes;
  }

  lemma FinishUpdates(s: GroupCommit.State)
    requires !s.phase.Running? && s.ops == map[] && (s.phase.Recovering? ==> s.lh == [])
    ensures var d, e := DataOf(s), DataOf(GroupCommit.DoFinish(s));
            e == d || (ClearHeader(d, d.(n := 0)) && Committed(d.(n := 0), e))
  {
  }

  lemma InvFacts(l: LogSpec.Layout, d0: Blocks.Disk, s: GroupCommit.State)
    requires GroupCommit.Inv(l, d0, s)
    ensures s.ops.Keys <= s.used && (!s.phase.Running? ==> s.ops == map[]) && (s.phase.Recovering? ==> s.lh == [])
  {
    hide GroupCommit.CommittingInv, GroupCommit.RunningInv, GroupCommit.Listed;
  }

  lemma OpsPut(ops: map<GroupCommit.Op, set<nat>>, op: GroupCommit.Op, bs: set<nat>)
    ensures |ops[op := bs]| == |ops| + (if op in ops then 0 else 1) && (op in ops ==> |ops| > 0)
  {
    assert ops[op := bs].Keys == ops.Keys + {op};
    if op in ops {
      assert ops.Keys + {op} == ops.Keys;
    }
  }

  lemma OpsDrop(ops: map<GroupCommit.Op, set<nat>>, op: GroupCommit.Op)
    requires op in ops
    ensures |ops - {op}| == |ops| - 1 && (ops - {op} == map[] <==> |ops| == 1)
  {
    assert (ops - {op}).Keys == ops.Keys - {op};
  }
}
