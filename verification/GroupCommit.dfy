/** The group-commit protocol of the log as a transition system: any number of
    file-system operations interleave `begin_op`, `log_write` and `end_op`,
    the last one out commits with one disk write per step, and the machine
    may crash between any two steps, recovery included. */
module GroupCommit {
  import opened Blocks
  import opened Common
  import opened LogSpec

  type Op = nat

  datatype Update = Update(op: Op, at: nat, data: Block)

  /** What the log is doing; `base` is the disk when the writes started and
      `done` counts how many of them have reached the disk. */
  datatype Phase =
    | Running
    | Committing(base: Disk, done: nat)
    | Recovering(base: Disk, done: nat)

  datatype State = State(
    disk: Disk,
    phase: Phase,
    lh: seq<nat>,                // log.lh.block[..log.lh.n]
    dirty: map<nat, Block>,      // blocks pinned in the buffer cache
    ops: map<Op, set<nat>>,      // outstanding operations and what each has logged
    used: set<Op>,               // every operation begun so far
    cur: seq<Update>,            // updates of the open group
    groups: seq<seq<Update>>)    // groups handed to commit and not lost

  datatype Step =
    | Begin(op: Op)
    | LogWrite(op: Op, at: nat, data: Block)
    | End(op: Op)
    | DiskWrite
    | Finish
    | Crash

  function Overlay(d: Disk, m: map<nat, Block>): (r: Disk)
    ensures |r| == |d|
    ensures forall b :: 0 <= b < |d| ==> r[b] == if b in m then m[b] else d[b]
  {
    seq(|d|, b requires 0 <= b < |d| => if b in m then m[b] else d[b])
  }

  predicate Home(l: Layout, diskSize: nat, b: nat)
  {
    b < diskSize && b < UINT && !InLog(l, b)
  }

  /** The two capacity panics of `log_write`. */
  predicate TooBig(l: Layout, lh: seq<nat>)
  {
    |lh| >= LOGSIZE || |lh| >= l.size - 1
  }

  predicate WritesDefined(l: Layout, s: State)
  {
    && (s.phase.Committing? ==> LayoutOk(l, |s.phase.base|) && HomeList(l, |s.phase.base|, s.lh))
    && (s.phase.Recovering? ==> DiskOk(l, s.phase.base))
  }

  /** The writes the current commit or recovery issues. */
  function Writes(l: Layout, s: State): (ws: seq<Write>)
    requires WritesDefined(l, s)
  {
    match s.phase
    case Running => []
    case Committing(base, _) => CommitWrites(l, Overlay(base, s.dirty), s.lh)
    case Recovering(base, _) => RecoverWrites(l, base)
  }

  // ---- Steps ----

  /** `begin_op` gets past its two tests. */
  predicate CanBegin(s: State, op: Op)
  {
    s.phase.Running? && op !in s.used && |s.lh| + (|s.ops| + 1) * MAXOPBLOCKS <= LOGSIZE
  }

  function DoBegin(s: State, op: Op): State
  {
    s.(ops := s.ops[op := {}], used := s.used + {op})
  }

  /** `log_write` of a home block by an outstanding operation that stays
      within `limit` distinct blocks, without a panic. */
  predicate CanLogWrite(l: Layout, limit: nat, s: State, op: Op, at: nat)
  {
    op in s.ops && Home(l, |s.disk|, at) && |s.ops[op] + {at}| <= limit && !TooBig(l, s.lh)
  }

  function DoLogWrite(s: State, op: Op, at: nat, data: Block): State
    requires op in s.ops
  {
    s.(lh := if at in s.lh then s.lh else s.lh + [at],
       dirty := s.dirty[at := data],
       ops := s.ops[op := s.ops[op] + {at}],
       cur := s.cur + [Update(op, at, data)])
  }

  /** `end_op`: the last operation out starts the commit of the group. */
  function DoEnd(s: State, op: Op): State
    requires op in s.ops
  {
    var rest := s.ops - {op};
    if rest == map[] then
      s.(ops := rest, phase := Committing(s.disk, 0), groups := s.groups + [s.cur], cur := [])
    else s.(ops := rest)
  }

  predicate CanWrite(l: Layout, s: State)
  {
    !s.phase.Running? && WritesDefined(l, s) && s.phase.done < |Writes(l, s)|
  }

  function DoWrite(l: Layout, s: State): State
    requires CanWrite(l, s)
  {
    s.(disk := Put(s.disk, Writes(l, s)[s.phase.done]), phase := s.phase.(done := s.phase.done + 1))
  }

  predicate AllWritten(l: Layout, s: State)
  {
    !s.phase.Running? && WritesDefined(l, s) && s.phase.done == |Writes(l, s)|
  }

  /** The last statements of `commit` and of `recover_from_log`'s caller. */
  function DoFinish(s: State): State
  {
    s.(phase := Running, lh := [], dirty := map[])
  }

  /** How many groups a crash at this point would leave. */
  function Durable(s: State): (k: int)
  {
    if s.phase.Committing? && s.phase.done <= |s.lh| then |s.groups| - 1 else |s.groups|
  }

  /** Memory is lost; recovery starts on the disk as it is. */
  function DoCrash(s: State): State
  {
    State(s.disk, Recovering(s.disk, 0), [], map[], map[], s.used, [],
          if 0 <= Durable(s) <= |s.groups| then s.groups[..Durable(s)] else s.groups)
  }

  predicate Enabled(l: Layout, limit: nat, s: State, a: Step)
  {
    match a
    case Begin(op) => CanBegin(s, op)
    case LogWrite(op, at, _) => CanLogWrite(l, limit, s, op, at)
    case End(op) => op in s.ops
    case DiskWrite => CanWrite(l, s)
    case Finish => AllWritten(l, s)
    case Crash => true
  }

  function Do(l: Layout, limit: nat, s: State, a: Step): (t: State)
    requires Enabled(l, limit, s, a)
  {
    match a
    case Begin(op) => DoBegin(s, op)
    case LogWrite(op, at, data) => DoLogWrite(s, op, at, data)
    case End(op) => DoEnd(s, op)
    case DiskWrite => DoWrite(l, s)
    case Finish => DoFinish(s)
    case Crash => DoCrash(s)
  }

  function Boot(d: Disk): (s: State)
  {
    State(d, Recovering(d, 0), [], map[], map[], {}, [], [])
  }

  ghost predicate Legal(l: Layout, limit: nat, d: Disk, run: seq<Step>)
    decreases |run|, 0
  {
    run == [] ||
    (Legal(l, limit, d, run[..|run| - 1])
     && Enabled(l, limit, After(l, limit, d, run[..|run| - 1]), run[|run| - 1]))
  }

  /** The state after a run from boot on the disk `d`. */
  ghost function After(l: Layout, limit: nat, d: Disk, run: seq<Step>): (s: State)
    requires Legal(l, limit, d, run)
    decreases |run|, 1
  {
    if run == [] then Boot(d)
    else Do(l, limit, After(l, limit, d, run[..|run| - 1]), run[|run| - 1])
  }

  // ---- What the groups mean ----

  function GroupWrites(g: seq<Update>): (ws: seq<Write>)
    ensures |ws| == |g|
  {
    seq(|g|, i requires 0 <= i < |g| => Write(g[i].at, g[i].data))
  }

  /** The initial contents with all updates of the given groups, in order. */
  ghost function Applied(d: Disk, groups: seq<seq<Update>>): (r: Disk)
    ensures |r| == |d|
  {
    if groups == [] then d
    else Replay(Applied(d, groups[..|groups| - 1]), GroupWrites(groups[|groups| - 1]))
  }

  lemma {:induction false} ReplaySameHomes(l: Layout, d: Disk, e: Disk, ws: seq<Write>)
    requires SameHomes(l, d, e)
    ensures SameHomes(l, Replay(d, ws), Replay(e, ws))
    decreases |ws|
  {
    if ws != [] {
      ReplaySameHomes(l, d, e, ws[..|ws| - 1]);
    }
  }

  // ---- The invariant ----

  /** The open transaction: the dirty blocks are exactly the logged ones and
      hold the updates of the open group over the disk. */
  ghost predicate OpenGroup(l: Layout, d: Disk, s: State, g: seq<Update>)
  {
    && OpenView(l, d, Overlay(d, s.dirty), s.lh)
    && (forall b :: b in s.dirty <==> b in s.lh)
    && Overlay(d, s.dirty) == Replay(d, GroupWrites(g))
  }

  ghost predicate RunningInv(l: Layout, d0: Disk, s: State)
  {
    && OpenGroup(l, s.disk, s, s.cur)
    && SameHomes(l, s.disk, Applied(d0, s.groups))
    && (s.ops == map[] ==> s.lh == [] && s.cur == [])
  }

  ghost predicate CommittingInv(l: Layout, d0: Disk, s: State, base: Disk, k: nat)
  {
    && s.groups != [] && s.cur == []
    && OpenGroup(l, base, s, s.groups[|s.groups| - 1])
    && SameHomes(l, base, Applied(d0, s.groups[..|s.groups| - 1]))
    && k <= |CommitWrites(l, Overlay(base, s.dirty), s.lh)|
    && s.disk == CommitCut(l, base, Overlay(base, s.dirty), s.lh, k)
  }

  ghost predicate RecoveringInv(l: Layout, d0: Disk, s: State, base: Disk, k: nat)
  {
    && s.lh == [] && s.dirty == map[] && s.cur == []
    && StandsFor(l, base, Applied(d0, s.groups))
    && k <= |RecoverWrites(l, base)|
    && s.disk == RecoverCut(l, base, k)
  }

  ghost predicate DiskInv(l: Layout, d0: Disk, s: State)
  {
    match s.phase
    case Running => RunningInv(l, d0, s)
    case Committing(base, k) => CommittingInv(l, d0, s, base, k)
    case Recovering(base, k) => RecoveringInv(l, d0, s, base, k)
  }

  /** Operations are never split: no operation appears in two groups, and one
      that is still outstanding appears in none. */
  ghost predicate Unsplit(s: State)
  {
    && s.ops.Keys <= s.used
    && (forall i, u :: 0 <= i < |s.groups| && u in s.groups[i] ==> u.op in s.used && u.op !in s.ops)
    && (forall u :: u in s.cur ==> u.op in s.used)
    && (forall i, u, v :: 0 <= i < |s.groups| && u in s.groups[i] && v in s.cur ==> u.op != v.op)
    && (forall i, j, u, v :: 0 <= i < j < |s.groups| && u in s.groups[i] && v in s.groups[j] ==> u.op != v.op)
  }

  ghost predicate Inv(l: Layout, d0: Disk, s: State)
  {
    && |s.disk| == |d0| && DiskInv(l, d0, s) && Unsplit(s)
    && (!s.phase.Running? ==> s.ops == map[])
    && Listed(s)
  }

  /** What an outstanding operation has logged is in the log header. */
  ghost predicate Listed(s: State)
  {
    forall op, b :: op in s.ops && b in s.ops[op] ==> b in s.lh
  }

  lemma BootInv(l: Layout, d: Disk)
    requires DiskOk(l, d)
    ensures Inv(l, Recover(l, d), Boot(d))
  {
    StandsForRecovered(l, d);
    FreshRecovery(l, Recover(l, d), Boot(d));
  }

  lemma FreshRecovery(l: Layout, d0: Disk, s: State)
    requires StandsFor(l, s.disk, Applied(d0, s.groups)) && s.lh == [] && s.dirty == map[] && s.cur == []
    ensures RecoveringInv(l, d0, s, s.disk, 0)
  {
    assert RecoverWrites(l, s.disk)[..0] == [];
  }

  lemma LogWriteOpen(l: Layout, limit: nat, s: State, op: Op, at: nat, data: Block)
    requires OpenGroup(l, s.disk, s, s.cur) && CanLogWrite(l, limit, s, op, at)
    ensures var t := DoLogWrite(s, op, at, data); OpenGroup(l, t.disk, t, t.cur)
  {
    var t := DoLogWrite(s, op, at, data);
    var w := Write(at, data);
    assert GroupWrites(t.cur) == GroupWrites(s.cur) + [w];
    ReplaySnoc(s.disk, GroupWrites(s.cur), w);
    assert Overlay(s.disk, t.dirty) == Put(Overlay(s.disk, s.dirty), w);
    LogWriteList(l, limit, s, op, at);
  }

  lemma LogWriteList(l: Layout, limit: nat, s: State, op: Op, at: nat)
    requires HomeList(l, |s.disk|, s.lh) && CanLogWrite(l, limit, s, op, at)
    ensures var lh := if at in s.lh then s.lh else s.lh + [at];
            HomeList(l, |s.disk|, lh) && forall b :: b in lh <==> b in s.lh || b == at
  {
    if at !in s.lh {
      var lh := s.lh + [at];
      assert lh[|s.lh|] == at && forall i :: 0 <= i < |s.lh| ==> lh[i] == s.lh[i];
    }
  }

  lemma LogWriteUnsplit(s: State, op: Op, at: nat, data: Block)
    requires Unsplit(s) && op in s.ops
    ensures Unsplit(DoLogWrite(s, op, at, data))
  {
    var t := DoLogWrite(s, op, at, data);
    assert t.ops.Keys == s.ops.Keys;
    assert forall u :: u in t.cur ==> u in s.cur || u.op == op;
  }

  lemma LogWriteListed(s: State, op: Op, at: nat, data: Block)
    requires Listed(s) && op in s.ops
    ensures Listed(DoLogWrite(s, op, at, data))
  {
    var t := DoLogWrite(s, op, at, data);
    assert at in t.lh by { assert at !in s.lh ==> t.lh[|s.lh|] == at; }
  }

  lemma LogWriteInv(l: Layout, limit: nat, d0: Disk, s: State, op: Op, at: nat, data: Block)
    requires Inv(l, d0, s) && CanLogWrite(l, limit, s, op, at)
    ensures Inv(l, d0, DoLogWrite(s, op, at, data))
  {
    hide OpenGroup, Unsplit, Listed;
    assert s.phase.Running? && op in s.ops;
    LogWriteOpen(l, limit, s, op, at, data);
    LogWriteUnsplit(s, op, at, data);
    LogWriteListed(s, op, at, data);
  }

  lemma EndUnsplit(s: State, op: Op)
    requires Unsplit(s) && op in s.ops
    ensures Unsplit(DoEnd(s, op))
  {
  }

  /** Closing the open group starts its commit. */
  lemma GroupHandedOver(l: Layout, d0: Disk, s: State, t: State)
    requires RunningInv(l, d0, s)
    requires t.disk == s.disk && t.lh == s.lh && t.dirty == s.dirty && t.cur == [] && t.groups == s.groups + [s.cur]
    ensures CommittingInv(l, d0, t, s.disk, 0)
  {
    assert t.groups[..|t.groups| - 1] == s.groups;
    assert OpenGroup(l, s.disk, t, s.cur);
    assert CommitWrites(l, Overlay(s.disk, s.dirty), s.lh)[..0] == [];
  }

  lemma EndInv(l: Layout, d0: Disk, s: State, op: Op)
    requires Inv(l, d0, s) && op in s.ops
    ensures Inv(l, d0, DoEnd(s, op))
  {
    hide Unsplit, CommittingInv, RecoveringInv;
    var t := DoEnd(s, op);
    EndUnsplit(s, op);
    assert s.ops != map[];
    if t.phase.Committing? {
      GroupHandedOver(l, d0, s, t);
    }
  }

  lemma CommitWriteInv(l: Layout, d0: Disk, s: State, t: State, base: Disk, k: nat)
    requires CommittingInv(l, d0, s, base, k)
    requires k < |CommitWrites(l, Overlay(base, s.dirty), s.lh)|
    requires t.lh == s.lh && t.dirty == s.dirty && t.cur == s.cur && t.groups == s.groups
    requires t.disk == Put(s.disk, CommitWrites(l, Overlay(base, s.dirty), s.lh)[k])
    ensures CommittingInv(l, d0, t, base, k + 1)
  {
    hide CommitWrites;
    CommitCutNext(l, base, Overlay(base, s.dirty), s.lh, k);
  }

  lemma RecoverWriteInv(l: Layout, d0: Disk, s: State, t: State, base: Disk, k: nat)
    requires RecoveringInv(l, d0, s, base, k)
    requires k < |RecoverWrites(l, base)|
    requires t.lh == s.lh && t.dirty == s.dirty && t.cur == s.cur && t.groups == s.groups
    requires t.disk == Put(s.disk, RecoverWrites(l, base)[k])
    ensures RecoveringInv(l, d0, t, base, k + 1)
  {
    hide RecoverWrites;
    RecoverCutNext(l, base, k);
  }

  lemma DiskWriteInv(l: Layout, d0: Disk, s: State)
    requires Inv(l, d0, s) && CanWrite(l, s)
    ensures Inv(l, d0, DoWrite(l, s))
  {
    hide Unsplit, RunningInv, CommittingInv, RecoveringInv, CommitWrites, RecoverWrites, Overlay, HomeList, DiskOk;
    hide LayoutOk, Put;
    var t := DoWrite(l, s);
    match s.phase {
      case Committing(base, k) => CommitWriteInv(l, d0, s, t, base, k);
      case Recovering(base, k) => RecoverWriteInv(l, d0, s, t, base, k);
    }
    SameUnsplit(s, t);
  }

  lemma SameUnsplit(s: State, t: State)
    requires Unsplit(s) && t.ops == s.ops && t.used == s.used && t.cur == s.cur && t.groups == s.groups
    ensures Unsplit(t)
  {
  }

  /** The groups in place once the current commit completes. */
  lemma CommitTarget(l: Layout, d0: Disk, s: State)
    requires Inv(l, d0, s) && s.phase.Committing?
    ensures SameHomes(l, Overlay(s.phase.base, s.dirty), Applied(d0, s.groups))
  {
    var g := s.groups[|s.groups| - 1];
    assert s.groups == s.groups[..|s.groups| - 1] + [g];
    ReplaySameHomes(l, s.phase.base, Applied(d0, s.groups[..|s.groups| - 1]), GroupWrites(g));
  }

  /** What the disk stands for in any state: the durable groups. */
  lemma DiskMeaning(l: Layout, d0: Disk, s: State)
    requires Inv(l, d0, s)
    ensures 0 <= Durable(s) <= |s.groups|
    ensures StandsFor(l, s.disk, Applied(d0, s.groups[..Durable(s)]))
  {
    hide Unsplit, CommitWrites, RecoverWrites;
    assert s.groups[..|s.groups|] == s.groups;
    match s.phase {
      case Running =>
      case Committing(base, k) =>
        CommitTarget(l, d0, s);
        CrashAtomic(l, base, Overlay(base, s.dirty), s.lh, k);
        StandsForSame(l, s.disk, if k <= |s.lh| then base else Overlay(base, s.dirty),
                      Applied(d0, s.groups[..Durable(s)]));
      case Recovering(base, k) =>
        RecoverCutKeeps(l, base, Applied(d0, s.groups), k);
    }
  }

  lemma CommitComplete(l: Layout, d: Disk, view: Disk, lh: seq<nat>, target: Disk)
    requires OpenView(l, d, view, lh) && SameHomes(l, view, target)
    ensures var e := CommitCut(l, d, view, lh, |CommitWrites(l, view, lh)|);
            DiskOk(l, e) && SameHomes(l, e, target) && HeaderOf(e[l.start]) == []
  {
    CrashAtomic(l, d, view, lh, |CommitWrites(l, view, lh)|);
  }

  lemma CleanGroup(l: Layout, s: State)
    requires DiskOk(l, s.disk) && HeaderOf(s.disk[l.start]) == []
    requires s.dirty == map[] && s.lh == [] && s.cur == []
    ensures OpenGroup(l, s.disk, s, s.cur)
  {
    assert Overlay(s.disk, map[]) == s.disk;
  }

  lemma FinishInv(l: Layout, d0: Disk, s: State)
    requires Inv(l, d0, s) && AllWritten(l, s)
    ensures Inv(l, d0, DoFinish(s))
  {
    hide Unsplit;
    if s.phase.Committing? {
      CommitTarget(l, d0, s);
      CommitComplete(l, s.phase.base, Overlay(s.phase.base, s.dirty), s.lh, Applied(d0, s.groups));
    } else {
      RecoverCutKeeps(l, s.phase.base, Applied(d0, s.groups), s.phase.done);
    }
    CleanGroup(l, DoFinish(s));
    SameUnsplit(s, DoFinish(s));
  }

  lemma CrashUnsplit(s: State)
    requires Unsplit(s) && 0 <= Durable(s) <= |s.groups|
    ensures Unsplit(DoCrash(s))
  {
  }

  lemma CrashInv(l: Layout, d0: Disk, s: State)
    requires Inv(l, d0, s)
    ensures Inv(l, d0, DoCrash(s))
  {
    hide Unsplit, CommittingInv, RunningInv, RecoveringInv, StandsFor;
    DiskMeaning(l, d0, s);
    CrashUnsplit(s);
    FreshRecovery(l, d0, DoCrash(s));
  }

  lemma BeginInv(l: Layout, d0: Disk, s: State, op: Op)
    requires Inv(l, d0, s) && CanBegin(s, op)
    ensures Inv(l, d0, DoBegin(s, op))
  {
  }

  /** Every step keeps the invariant. */
  lemma StepInv(l: Layout, limit: nat, d0: Disk, s: State, a: Step)
    requires Inv(l, d0, s) && Enabled(l, limit, s, a)
    ensures Inv(l, d0, Do(l, limit, s, a))
  {
    hide Inv;
    match a {
      case Begin(op) => BeginInv(l, d0, s, op);
      case LogWrite(op, at, data) => LogWriteInv(l, limit, d0, s, op, at, data);
      case End(op) => EndInv(l, d0, s, op);
      case DiskWrite => DiskWriteInv(l, d0, s);
      case Finish => FinishInv(l, d0, s);
      case Crash => CrashInv(l, d0, s);
    }
  }

  lemma {:induction false} RunInv(l: Layout, limit: nat, d: Disk, run: seq<Step>)
    requires DiskOk(l, d) && Legal(l, limit, d, run)
    ensures Inv(l, Recover(l, d), After(l, limit, d, run))
    decreases |run|
  {
    if run == [] {
      BootInv(l, d);
    } else {
      RunInv(l, limit, d, run[..|run| - 1]);
      StepInv(l, limit, Recover(l, d), After(l, limit, d, run[..|run| - 1]), run[|run| - 1]);
    }
  }

  // ---- Many writes at once ----

  predicate CanAdvance(l: Layout, s: State, k: nat)
  {
    !s.phase.Running? && WritesDefined(l, s) && s.phase.done + k <= |Writes(l, s)|
  }

  /** The state after k more disk writes. */
  function Advanced(l: Layout, s: State, k: nat): State
    requires CanAdvance(l, s, k)
  {
    s.(disk := Replay(s.disk, Writes(l, s)[s.phase.done..s.phase.done + k]),
       phase := s.phase.(done := s.phase.done + k))
  }

  /** It is reached by k steps DiskWrite. */
  lemma AdvancedStep(l: Layout, s: State, k: nat)
    requires CanAdvance(l, s, k) && k > 0
    ensures CanAdvance(l, s, k - 1) && CanWrite(l, Advanced(l, s, k - 1))
    ensures Advanced(l, s, k) == DoWrite(l, Advanced(l, s, k - 1))
  {
    hide Writes, WritesDefined, Replay;
    AdvancedWrites(l, s, k - 1);
    ReplayNext(s.disk, Writes(l, s), s.phase.done, k - 1);
  }

  lemma AdvancedWrites(l: Layout, s: State, k: nat)
    requires CanAdvance(l, s, k)
    ensures WritesDefined(l, Advanced(l, s, k)) && Writes(l, Advanced(l, s, k)) == Writes(l, s)
  {
    hide CommitWrites, RecoverWrites, Replay, Overlay, HomeList, DiskOk, LayoutOk;
  }

  lemma ReplayNext(d: Disk, ws: seq<Write>, i: nat, k: nat)
    requires i + k < |ws|
    ensures Replay(d, ws[i..i + (k + 1)]) == Put(Replay(d, ws[i..i + k]), ws[i + k])
  {
    assert ws[i..i + (k + 1)] == ws[i..i + k] + [ws[i + k]];
    ReplaySnoc(d, ws[i..i + k], ws[i + k]);
  }

  lemma AdvancedNone(l: Layout, s: State)
    requires CanAdvance(l, s, 0)
    ensures Advanced(l, s, 0) == s
  {
    hide Writes;
    assert Writes(l, s)[s.phase.done..s.phase.done + 0] == [];
  }

  lemma {:induction false} AdvancedInv(l: Layout, d0: Disk, s: State, k: nat)
    requires Inv(l, d0, s) && CanAdvance(l, s, k)
    ensures Inv(l, d0, Advanced(l, s, k))
    decreases k
  {
    hide Inv, Writes, WritesDefined;
    if k == 0 {
      AdvancedNone(l, s);
    } else {
      AdvancedStep(l, s, k);
      AdvancedInv(l, d0, s, k - 1);
      DiskWriteInv(l, d0, Advanced(l, s, k - 1));
    }
  }

  // ---- Main results ----

  /** Whole-run atomicity: after any run, with crashes anywhere, recovery
      yields the initial contents plus all updates of the durable groups and
      of nothing else; `log.committing` excludes outstanding operations; and no
      operation is split across groups. */
  lemma RunsAreAtomic(l: Layout, limit: nat, d: Disk, run: seq<Step>)
    requires DiskOk(l, d) && Legal(l, limit, d, run)
    ensures var s := After(l, limit, d, run);
            && 0 <= Durable(s) <= |s.groups|
            && DiskOk(l, s.disk)
            && SameHomes(l, Recover(l, s.disk), Applied(Recover(l, d), s.groups[..Durable(s)]))
            && (s.phase.Committing? ==> s.ops == map[])
            && Unsplit(s)
  {
    RunInv(l, limit, d, run);
    var s := After(l, limit, d, run);
    DiskMeaning(l, Recover(l, d), s);
    RecoverSound(l, s.disk, Applied(Recover(l, d), s.groups[..Durable(s)]));
  }

  /** Until its header write lands, a group leaves every home block on disk
      exactly as the groups before it left them. */
  lemma NoEarlyHomeWrites(l: Layout, limit: nat, d: Disk, run: seq<Step>)
    requires DiskOk(l, d) && Legal(l, limit, d, run)
    requires var s := After(l, limit, d, run);
             s.phase.Running? || (s.phase.Committing? && s.phase.done <= |s.lh|)
    ensures var s := After(l, limit, d, run);
            && 0 <= Durable(s) <= |s.groups|
            && SameHomes(l, s.disk, Applied(Recover(l, d), s.groups[..Durable(s)]))
            && (forall b :: b in s.dirty <==> b in s.lh) && Distinct(s.lh)
  {
    RunInv(l, limit, d, run);
    var s := After(l, limit, d, run);
    assert s.groups[..|s.groups|] == s.groups;
    if s.phase.Committing? {
      if s.lh == [] {
        CrashAtomic(l, s.phase.base, Overlay(s.phase.base, s.dirty), s.lh, s.phase.done);
      } else {
        BodyPrefix(l, s.phase.base, Overlay(s.phase.base, s.dirty), s.lh, s.phase.done);
      }
    }
  }

  /** The groups that would survive a crash in `s` also survive one in `t`. */
  ghost predicate KeepsDurable(s: State, t: State)
  {
    && 0 <= Durable(s) <= Durable(t) && Durable(s) <= |s.groups| && Durable(t) <= |t.groups|
    && s.groups[..Durable(s)] == t.groups[..Durable(s)]
  }

  lemma KeepsDurableTrans(s: State, t: State, u: State)
    requires KeepsDurable(s, t) && KeepsDurable(t, u)
    ensures KeepsDurable(s, u)
  {
    assert t.groups[..Durable(t)][..Durable(s)] == t.groups[..Durable(s)];
    assert u.groups[..Durable(t)][..Durable(s)] == u.groups[..Durable(s)];
  }

  lemma StepDurable(l: Layout, limit: nat, s: State, a: Step)
    requires s.phase.Committing? ==> s.groups != [] && s.ops == map[]
    requires Enabled(l, limit, s, a)
    ensures KeepsDurable(s, Do(l, limit, s, a))
  {
  }

  lemma {:induction false} PrefixLegal(l: Layout, limit: nat, d: Disk, run: seq<Step>, more: seq<Step>)
    requires Legal(l, limit, d, run + more)
    ensures Legal(l, limit, d, run)
    decreases |more|
  {
    if more == [] {
      assert run + more == run;
    } else {
      var all := run + more;
      assert all[..|all| - 1] == run + more[..|more| - 1];
      PrefixLegal(l, limit, d, run, more[..|more| - 1]);
    }
  }

  lemma CommitHasGroup(l: Layout, limit: nat, d: Disk, run: seq<Step>)
    requires DiskOk(l, d) && Legal(l, limit, d, run)
    ensures var s := After(l, limit, d, run); s.phase.Committing? ==> s.groups != [] && s.ops == map[]
  {
    RunInv(l, limit, d, run);
  }

  /** Durability: a group that has reached the disk is never lost, whatever
      happens later in the run. */
  lemma {:induction false} DurableForever(l: Layout, limit: nat, d: Disk, run: seq<Step>, more: seq<Step>)
    requires DiskOk(l, d) && Legal(l, limit, d, run + more)
    ensures Legal(l, limit, d, run)
    ensures KeepsDurable(After(l, limit, d, run), After(l, limit, d, run + more))
    decreases |more|
  {
    hide Inv, Do, Enabled, DiskOk;
    PrefixLegal(l, limit, d, run, more);
    if more == [] {
      assert run + more == run;
      CommitHasGroup(l, limit, d, run);
    } else {
      var m := more[..|more| - 1];
      var all := run + more;
      assert all[..|all| - 1] == run + m;
      DurableForever(l, limit, d, run, m);
      CommitHasGroup(l, limit, d, run + m);
      StepDurable(l, limit, After(l, limit, d, run + m), more[|more| - 1]);
      KeepsDurableTrans(After(l, limit, d, run), After(l, limit, d, run + m), After(l, limit, d, all));
    }
  }

  // ---- The runs themselves ----

  /** The updates that a run makes with `log_write`, in order. */
  function Made(run: seq<Step>): seq<Update>
  {
    if run == [] then [] else
      var a := run[|run| - 1];
      Made(run[..|run| - 1]) + if a.LogWrite? then [Update(a.op, a.at, a.data)] else []
  }

  function Flat(groups: seq<seq<Update>>): seq<Update>
  {
    if groups == [] then [] else Flat(groups[..|groups| - 1]) + groups[|groups| - 1]
  }

  predicate NoCrash(run: seq<Step>) { forall i :: 0 <= i < |run| ==> !run[i].Crash? }

  lemma StepHistory(l: Layout, limit: nat, s: State, a: Step)
    requires Enabled(l, limit, s, a) && !a.Crash?
    ensures var t := Do(l, limit, s, a);
            Flat(t.groups) + t.cur == Flat(s.groups) + s.cur + if a.LogWrite? then [Update(a.op, a.at, a.data)] else []
  {
    hide Writes, WritesDefined;
    if a.End? {
      assert (s.groups + [s.cur])[..|s.groups|] == s.groups;
    }
  }

  /** As long as there is no crash, the groups and the open group hold exactly
      the updates that the operations make, in order, after what was there. */
  lemma {:induction false} UpdatesKept(l: Layout, limit: nat, d: Disk, run: seq<Step>, more: seq<Step>)
    requires Legal(l, limit, d, run + more) && NoCrash(more)
    ensures Legal(l, limit, d, run)
    ensures var s, t := After(l, limit, d, run), After(l, limit, d, run + more);
            Flat(t.groups) + t.cur == Flat(s.groups) + s.cur + Made(more)
    decreases |more|
  {
    hide Do, Enabled;
    PrefixLegal(l, limit, d, run, more);
    var s := After(l, limit, d, run);
    if more == [] {
      assert run + more == run;
      assert Flat(s.groups) + s.cur + [] == Flat(s.groups) + s.cur;
    } else {
      var m, a, all := more[..|more| - 1], more[|more| - 1], run + more;
      assert all[..|all| - 1] == run + m;
      UpdatesKept(l, limit, d, run, m);
      StepHistory(l, limit, After(l, limit, d, run + m), a);
      var last := if a.LogWrite? then [Update(a.op, a.at, a.data)] else [];
      assert Flat(s.groups) + s.cur + Made(m) + last == Flat(s.groups) + s.cur + (Made(m) + last);
    }
  }

  lemma {:induction false} AppliedFlat(d: Disk, groups: seq<seq<Update>>)
    ensures Applied(d, groups) == Replay(d, GroupWrites(Flat(groups)))
    decreases |groups|
  {
    if groups == [] {
    } else {
      var gs, g := groups[..|groups| - 1], groups[|groups| - 1];
      AppliedFlat(d, gs);
      ReplayConcat(d, GroupWrites(Flat(gs)), GroupWrites(g));
      assert GroupWrites(Flat(gs)) + GroupWrites(g) == GroupWrites(Flat(groups));
    }
  }

  /** When all operations have ended and the commit is done, the disk holds the
      initial contents with every logged update of the run, in order. */
  lemma AllOnDisk(l: Layout, limit: nat, d: Disk, run: seq<Step>)
    requires DiskOk(l, d) && Legal(l, limit, d, run) && NoCrash(run)
    requires var s := After(l, limit, d, run); s.phase.Running? && s.ops == map[]
    ensures SameHomes(l, After(l, limit, d, run).disk, Replay(Recover(l, d), GroupWrites(Made(run))))
  {
    hide Legal, Replay, GroupWrites, Unsplit, Listed;
    var s := After(l, limit, d, run);
    RunInv(l, limit, d, run);
    hide After;
    assert [] + run == run;
    UpdatesKept(l, limit, d, [], run);
    Booted(l, limit, d);
    assert Flat(s.groups) + s.cur == Flat(s.groups) && [] + [] + Made(run) == Made(run);
    AppliedFlat(Recover(l, d), s.groups);
  }

  lemma Booted(l: Layout, limit: nat, d: Disk)
    ensures Legal(l, limit, d, []) && After(l, limit, d, []) == Boot(d)
  {
  }
}
