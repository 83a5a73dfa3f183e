/** Files and the log together: what is in the files after a crash, and how
    much of the log their transactions need. */
module CrashFiles {
  import opened Blocks
  import opened Common
  import opened FilesSpec
  import opened WriteSpec
  import opened TxnSpec
  import opened LogSpec
  import opened GroupCommit
  import FileWrite
  import LogRuns
  import Reservation

  // ---- The log budget ----

  /** The blocks that operation op logs in the run. */
  ghost function LoggedBy(run: seq<Step>, op: Op): set<nat>
  {
    set k | 0 <= k < |run| && run[k].LogWrite? && run[k].op == op :: run[k].at
  }

  lemma LoggedByMore(run: seq<Step>, op: Op)
    requires run != []
    ensures var last := run[|run| - 1];
            LoggedBy(run, op) == LoggedBy(run[..|run| - 1], op)
                                 + (if last.LogWrite? && last.op == op then {last.at} else {})
  {
    var init, last := run[..|run| - 1], run[|run| - 1];
    forall b | b in LoggedBy(run, op)
      ensures b in LoggedBy(init, op) || (last.LogWrite? && last.op == op && b == last.at)
    {
      var k :| 0 <= k < |run| && run[k].LogWrite? && run[k].op == op && run[k].at == b;
      assert k < |init| ==> init[k] == run[k];
    }
    forall b | b in LoggedBy(init, op) ensures b in LoggedBy(run, op) {
      var k :| 0 <= k < |init| && init[k].LogWrite? && init[k].op == op && init[k].at == b;
      assert run[k] == init[k];
    }
  }

  /** A run in which no operation logs more than m blocks is a run with
      limit m, whatever limit it was started with. */
  lemma {:induction false} LimitCounts(l: Layout, n: nat, m: nat, d: Disk, run: seq<Step>)
    requires Legal(l, n, d, run) && forall op :: |LoggedBy(run, op)| <= m
    ensures Legal(l, m, d, run) && After(l, m, d, run) == After(l, n, d, run)
    ensures var s := After(l, n, d, run); forall op :: op in s.ops ==> s.ops[op] <= LoggedBy(run, op)
    decreases |run|
  {
    hide LoggedBy;
    if run != [] {
      var init, last := run[..|run| - 1], run[|run| - 1];
      forall op ensures |LoggedBy(init, op)| <= m && LoggedBy(init, op) <= LoggedBy(run, op) {
        LoggedByMore(run, op);
        SubsetSize(LoggedBy(init, op), LoggedBy(run, op));
      }
      LimitCounts(l, n, m, d, init);
      var s := After(l, n, d, init);
      if last.LogWrite? {
        LoggedByMore(run, last.op);
        SubsetSize(s.ops[last.op] + {last.at}, LoggedBy(run, last.op));
      }
    }
  }

  /** What op logs in the run belongs to one of the transactions. */
  ghost predicate Within(run: seq<Step>, op: Op, txns: seq<Txn>)
  {
    LoggedBy(run, op) == {} || exists t :: t in txns && LoggedBy(run, op) <= Targets(t)
  }

  /** Operations that are transactions of `filewrite` never fill the log, in
      any number and any interleaving. */
  lemma WritesFitLog(sb: Super, l: Layout, n: nat, d: Disk, run: seq<Step>, txns: seq<Txn>)
    requires DiskOk(l, d) && Legal(l, n, d, run) && l.size >= LOGSIZE && sb.size <= BPB
    requires forall t :: t in txns ==> FileWrite.TxnOk(sb, t)
    requires forall op :: Within(run, op, txns)
    ensures !TooBig(l, After(l, n, d, run).lh)
  {
    forall op ensures |LoggedBy(run, op)| <= FileWrite.CHUNKBLOCKS {
      assert Within(run, op, txns);
      if LoggedBy(run, op) != {} {
        var t :| t in txns && LoggedBy(run, op) <= Targets(t);
        SubsetSize(LoggedBy(run, op), Targets(t));
      }
    }
    LimitCounts(l, n, FileWrite.CHUNKBLOCKS, d, run);
    Reservation.NoCapacityPanic(l, FileWrite.CHUNKBLOCKS, d, run);
  }

  // ---- Properties of the home blocks survive crashes ----

  /** Whether a disk is in `good` depends on its home blocks only. */
  ghost predicate HomesDecide(l: Layout, good: iset<Disk>)
  {
    forall d, e :: d in good && SameHomes(l, d, e) ==> e in good
  }

  /** Step k of the run is the `end_op` of the last outstanding operation. */
  ghost predicate LastOut(l: Layout, limit: nat, d: Disk, run: seq<Step>, k: nat)
  {
    && k < |run| && run[k].End? && Legal(l, limit, d, run[..k])
    && var s := After(l, limit, d, run[..k]); run[k].op in s.ops && s.ops - {run[k].op} == map[]
  }

  /** Whenever the last outstanding operation ends, the blocks as the cache
      shows them are good. */
  ghost predicate EndsGood(l: Layout, limit: nat, d: Disk, run: seq<Step>, good: iset<Disk>)
  {
    forall k :: 0 <= k < |run| && LastOut(l, limit, d, run, k) ==>
      var s := After(l, limit, d, run[..k]); Overlay(s.disk, s.dirty) in good
  }

  /** After each group the contents are good. */
  ghost predicate GroupsGood(d0: Disk, groups: seq<seq<Update>>, good: iset<Disk>)
  {
    forall j :: 0 <= j <= |groups| ==> Applied(d0, groups[..j]) in good
  }

  lemma EndGood(l: Layout, d0: Disk, s: State, op: Op, good: iset<Disk>)
    requires Inv(l, d0, s) && op in s.ops && GroupsGood(d0, s.groups, good) && HomesDecide(l, good)
    requires s.ops - {op} == map[] ==> Overlay(s.disk, s.dirty) in good
    ensures GroupsGood(d0, DoEnd(s, op).groups, good)
  {
    hide Applied, HomesDecide, OpenView, Unsplit, Listed;
    var t := DoEnd(s, op);
    if s.ops - {op} == map[] {
      assert s.ops != map[];
      ClosedGood(l, d0, s, good);
      forall j | 0 <= j <= |t.groups| ensures Applied(d0, t.groups[..j]) in good {
        assert if j <= |s.groups| then t.groups[..j] == s.groups[..j] else t.groups[..j] == s.groups + [s.cur];
      }
    }
  }

  lemma ClosedGood(l: Layout, d0: Disk, s: State, good: iset<Disk>)
    requires RunningInv(l, d0, s) && HomesDecide(l, good) && Overlay(s.disk, s.dirty) in good
    ensures Applied(d0, s.groups + [s.cur]) in good
  {
    assert (s.groups + [s.cur])[..|s.groups|] == s.groups;
    ReplaySameHomes(l, s.disk, Applied(d0, s.groups), GroupWrites(s.cur));
  }

  lemma NoGroups(d0: Disk, good: iset<Disk>)
    requires d0 in good
    ensures GroupsGood(d0, [], good)
  {
  }

  lemma {:induction false} RunGood(l: Layout, limit: nat, d: Disk, run: seq<Step>, good: iset<Disk>)
    requires DiskOk(l, d) && Legal(l, limit, d, run) && HomesDecide(l, good)
    requires Recover(l, d) in good && EndsGood(l, limit, d, run, good)
    ensures GroupsGood(Recover(l, d), After(l, limit, d, run).groups, good)
    decreases |run|
  {
    hide HomesDecide, DiskOk, Inv, GroupsGood, Do, Enabled;
    if run == [] {
      NoGroups(Recover(l, d), good);
    } else {
      var init, last := run[..|run| - 1], run[|run| - 1];
      InitGood(l, limit, d, run, good);
      RunGood(l, limit, d, init, good);
      RunInv(l, limit, d, init);
      var s := After(l, limit, d, init);
      if last.End? {
        LastView(l, limit, d, run, good);
      }
      StepGood(l, limit, Recover(l, d), s, last, good);
    }
  }

  lemma LastView(l: Layout, limit: nat, d: Disk, run: seq<Step>, good: iset<Disk>)
    requires run != [] && Legal(l, limit, d, run) && EndsGood(l, limit, d, run, good) && run[|run| - 1].End?
    ensures var s := After(l, limit, d, run[..|run| - 1]);
            s.ops - {run[|run| - 1].op} == map[] ==> Overlay(s.disk, s.dirty) in good
  {
    hide After, Overlay;
    var s := After(l, limit, d, run[..|run| - 1]);
    assert Enabled(l, limit, s, run[|run| - 1]);
    assert s.ops - {run[|run| - 1].op} == map[] ==> LastOut(l, limit, d, run, |run| - 1);
  }

  lemma StepGood(l: Layout, limit: nat, d0: Disk, s: State, a: Step, good: iset<Disk>)
    requires Inv(l, d0, s) && Enabled(l, limit, s, a) && GroupsGood(d0, s.groups, good) && HomesDecide(l, good)
    requires a.End? && s.ops - {a.op} == map[] ==> Overlay(s.disk, s.dirty) in good
    ensures GroupsGood(d0, Do(l, limit, s, a).groups, good)
  {
    hide HomesDecide, Inv, GroupsGood, Overlay;
    match a {
      case End(op) => EndGood(l, d0, s, op, good);
      case Crash => CrashGood(d0, s, good);
      case _ =>
    }
  }

  lemma InitGood(l: Layout, limit: nat, d: Disk, run: seq<Step>, good: iset<Disk>)
    requires run != [] && EndsGood(l, limit, d, run, good)
    ensures EndsGood(l, limit, d, run[..|run| - 1], good)
  {
    hide Legal, After;
    var init := run[..|run| - 1];
    forall k | 0 <= k < |init| && LastOut(l, limit, d, init, k)
      ensures LastOut(l, limit, d, run, k) && init[..k] == run[..k]
    {
      assert init[..k] == run[..k];
    }
  }

  lemma CrashGood(d0: Disk, s: State, good: iset<Disk>)
    requires GroupsGood(d0, s.groups, good)
    ensures GroupsGood(d0, DoCrash(s).groups, good)
  {
    hide Applied;
    var t := DoCrash(s);
    forall j | 0 <= j <= |t.groups| ensures Applied(d0, t.groups[..j]) in good {
      assert t.groups[..j] == s.groups[..j];
    }
  }

  lemma HomesSwap(l: Layout, d: Disk, e: Disk, good: iset<Disk>)
    requires HomesDecide(l, good) && d in good && SameHomes(l, e, d)
    ensures e in good
  {
    assert SameHomes(l, d, e);
  }

  /** Any property of the home blocks that holds whenever no operation is
      outstanding holds of the recovered disk, wherever the run is cut. */
  lemma CrashKeeps(l: Layout, limit: nat, d: Disk, run: seq<Step>, good: iset<Disk>)
    requires DiskOk(l, d) && Legal(l, limit, d, run) && HomesDecide(l, good)
    requires Recover(l, d) in good && EndsGood(l, limit, d, run, good)
    ensures var s := After(l, limit, d, run); DiskOk(l, s.disk) && Recover(l, s.disk) in good
  {
    RunGood(l, limit, d, run, good);
    RunsAreAtomic(l, limit, d, run);
    var s := After(l, limit, d, run);
    HomesSwap(l, Applied(Recover(l, d), s.groups[..Durable(s)]), Recover(l, s.disk), good);
  }

  // ---- Consistency of the file system ----

  /** The log lies before the inodes, as mkfs places it. */
  predicate LogFirst(sb: Super, l: Layout) { l.start + l.size <= sb.inodestart }

  lemma QuietMoves(sb: Super, fs: Fs, e: Disk)
    requires Quiet(sb, fs) && |e| == sb.size
    requires forall c :: sb.inodestart <= c < sb.size ==> e[c] == fs.disk[c]
    ensures Quiet(sb, fs.(disk := e))
  {
    hide DinodeAt, ListsSlots, Represents, Roomy, BlockOk, FileOk;
    var gs := fs.(disk := e);
    forall b | 0 <= b < sb.size ensures BlockOk(sb, gs, b) {
      BlockMoves(sb, fs, e, b);
    }
    forall i | 0 <= i < sb.ninodes ensures FileOk(sb, gs, i) && DinodeAt(sb, e, i) == gs.ino[i] {
      OwnedFacts(sb, fs, i);
      FileFrame(sb, fs, gs, i);
      InodeFrame(sb, fs.disk, e, i);
    }
    forall i | 0 <= i < sb.ninodes ensures Snug(gs, i) {
      assert Snug(fs, i);
    }
  }

  lemma BlockMoves(sb: Super, fs: Fs, e: Disk, b: nat)
    requires Shaped(sb, fs) && b < sb.size && BlockOk(sb, fs, b) && |e| == sb.size
    requires forall c :: sb.inodestart <= c < sb.size ==> e[c] == fs.disk[c]
    ensures BlockOk(sb, fs.(disk := e), b)
  {
    hide BitAt, Roomy, Bblock;
    BitmapRange(sb, b);
  }

  lemma HomesFrom(sb: Super, l: Layout, d: Disk, e: Disk)
    requires LogFirst(sb, l) && SameHomes(l, d, e)
    ensures |d| == |e| && forall c :: sb.inodestart <= c < |d| ==> e[c] == d[c]
  {
    assert forall c :: sb.inodestart <= c < |d| ==> !InLog(l, c);
  }

  lemma SaneMoves(sb: Super, l: Layout, d: Disk, e: Disk)
    requires LogFirst(sb, l) && Sane(sb, d) && SameHomes(l, d, e)
    ensures Sane(sb, e)
  {
    HomesFrom(sb, l, d, e);
    var fs: Fs :| fs.disk == d && Quiet(sb, fs);
    hide BlockOk, FileOk, DinodeAt, SameHomes, Roomy;
    QuietMoves(sb, fs, e);
    hide Quiet;
    SaneNow(sb, fs.(disk := e));
  }

  ghost function SaneDisks(sb: Super): iset<Disk> { iset d: Disk | Sane(sb, d) }

  /** If the file system is consistent whenever no operation is outstanding,
      it is consistent after any crash, whatever the operations were and
      however they interleaved. */
  lemma FilesSurvive(sb: Super, l: Layout, limit: nat, d: Disk, run: seq<Step>)
    requires DiskOk(l, d) && Legal(l, limit, d, run) && LogFirst(sb, l)
    requires Sane(sb, Recover(l, d)) && EndsGood(l, limit, d, run, SaneDisks(sb))
    ensures var s := After(l, limit, d, run); DiskOk(l, s.disk) && Sane(sb, Recover(l, s.disk))
  {
    hide Sane, DiskOk, EndsGood, Legal, After;
    forall e, f | e in SaneDisks(sb) && SameHomes(l, e, f) ensures f in SaneDisks(sb) {
      SaneMoves(sb, l, e, f);
    }
    CrashKeeps(l, limit, d, run, SaneDisks(sb));
  }

  // ---- Histories of whole transactions ----

  /** The transactions run together. */
  ghost function Flat(txns: seq<Txn>): Txn
  {
    if txns == [] then [] else Flat(txns[..|txns| - 1]) + txns[|txns| - 1]
  }

  /** The groups are these transactions in order, cut at the given places:
      group j holds transactions cuts[j] to cuts[j + 1] - 1. */
  ghost predicate Serial(groups: seq<seq<Update>>, txns: seq<Txn>, cuts: seq<nat>)
  {
    && |cuts| == |groups| + 1 && cuts[0] == 0
    && (forall j :: 0 <= j < |groups| ==> SerialAt(groups, txns, cuts, j))
    && forall j :: 0 <= j < |cuts| ==> cuts[j] <= |txns|
  }

  ghost predicate SerialAt(groups: seq<seq<Update>>, txns: seq<Txn>, cuts: seq<nat>, j: nat)
  {
    && j < |groups| && j + 1 < |cuts| && cuts[j] <= cuts[j + 1] <= |txns|
    && GroupWrites(groups[j]) == Flat(txns[cuts[j]..cuts[j + 1]])
  }

  lemma {:induction false} FlatReplay(d: Disk, txns: seq<Txn>, more: seq<Txn>)
    ensures Replay(AfterTxns(d, txns), Flat(more)) == AfterTxns(d, txns + more)
    decreases |more|
  {
    if more == [] {
      assert txns + more == txns;
    } else {
      var init, last := more[..|more| - 1], more[|more| - 1];
      assert txns + more == txns + init + [last];
      FlatReplay(d, txns, init);
      AfterTxnsSnoc(d, txns + init, last);
      ReplayConcat(AfterTxns(d, txns), Flat(init), last);
    }
  }

  lemma {:induction false} SerialApplied(l: Layout, d0: Disk, base: Disk, groups: seq<seq<Update>>,
                                         txns: seq<Txn>, cuts: seq<nat>, j: nat)
    requires SameHomes(l, d0, base) && Serial(groups, txns, cuts) && j <= |groups|
    ensures cuts[j] <= |txns| && SameHomes(l, Applied(d0, groups[..j]), AfterTxns(base, txns[..cuts[j]]))
    decreases j
  {
    hide SameHomes, GroupWrites, Replay, Flat;
    if j == 0 {
      assert txns[..cuts[0]] == [] && groups[..0] == [];
    } else {
      SerialApplied(l, d0, base, groups, txns, cuts, j - 1);
      assert SerialAt(groups, txns, cuts, j - 1);
      var a, b := cuts[j - 1], cuts[j];
      assert groups[..j][..j - 1] == groups[..j - 1];
      assert txns[..a] + txns[a..b] == txns[..b];
      FlatReplay(base, txns[..a], txns[a..b]);
      ReplaySameHomes(l, Applied(d0, groups[..j - 1]), AfterTxns(base, txns[..a]), GroupWrites(groups[j - 1]));
    }
  }

  /** A crash leaves exactly the transactions of the durable groups. */
  lemma SerialRecovered(l: Layout, limit: nat, d: Disk, run: seq<Step>, base: Disk, txns: seq<Txn>, cuts: seq<nat>)
    requires DiskOk(l, d) && Legal(l, limit, d, run) && SameHomes(l, Recover(l, d), base)
    requires Serial(After(l, limit, d, run).groups, txns, cuts)
    ensures var s := After(l, limit, d, run);
            && 0 <= Durable(s) < |cuts| && cuts[Durable(s)] <= |txns| && DiskOk(l, s.disk)
            && SameHomes(l, AfterTxns(base, txns[..cuts[Durable(s)]]), Recover(l, s.disk))
  {
    hide Legal, After, DiskOk, Unsplit, Applied, AfterTxns, Recover;
    RunsAreAtomic(l, limit, d, run);
    var s := After(l, limit, d, run);
    SerialApplied(l, Recover(l, d), base, s.groups, txns, cuts, Durable(s));
  }

  /** Whatever calls the history is made of and wherever the machine stops,
      the recovered disk is the disk between two transactions of the history,
      and its file system is consistent. */
  lemma HistorySurvives(sb: Super, l: Layout, limit: nat, d: Disk, run: seq<Step>,
                        base: Disk, txns: seq<Txn>, start: Disk, cuts: seq<nat>)
    requires DiskOk(l, d) && Legal(l, limit, d, run) && SameHomes(l, Recover(l, d), base) && LogFirst(sb, l)
    requires History(sb, base, txns, start) && Serial(After(l, limit, d, run).groups, txns, cuts)
    ensures var s := After(l, limit, d, run);
            && 0 <= Durable(s) < |cuts| && cuts[Durable(s)] <= |txns| && DiskOk(l, s.disk)
            && SameHomes(l, AfterTxns(base, txns[..cuts[Durable(s)]]), Recover(l, s.disk))
            && Sane(sb, Recover(l, s.disk))
  {
    hide Legal, After, DiskOk, AfterTxns, Recover, SameHomes, Sane, Serial;
    SerialRecovered(l, limit, d, run, base, txns, cuts);
    var s := After(l, limit, d, run);
    SaneMoves(sb, l, AfterTxns(base, txns[..cuts[Durable(s)]]), Recover(l, s.disk));
  }

  ghost function Ones(n: nat): (cuts: seq<nat>)
    ensures |cuts| == n + 1 && forall j :: 0 <= j <= n ==> cuts[j] == j
  {
    seq(n + 1, j => j)
  }

  lemma OneByOne(groups: seq<seq<Update>>, txns: seq<Txn>)
    requires |groups| == |txns| && forall j :: 0 <= j < |txns| ==> GroupWrites(groups[j]) == txns[j]
    ensures Serial(groups, txns, Ones(|txns|))
  {
    hide GroupWrites;
    forall j | 0 <= j < |groups| ensures SerialAt(groups, txns, Ones(|txns|), j) {
      assert txns[j..j + 1] == [txns[j]];
      assert Flat([txns[j]]) == txns[j];
    }
  }

  /** The log can perform any history whose transactions keep within the
      budget; in the end recovery finds the last state of the history. */
  lemma HistoryPerformed(sb: Super, l: Layout, limit: nat, d: Disk, base: Disk, txns: seq<Txn>, start: Disk)
    returns (run: seq<Step>)
    requires DiskOk(l, d) && SameHomes(l, Recover(l, d), base) && LogFirst(sb, l) && l.size >= LOGSIZE
    requires History(sb, base, txns, start) && limit < MAXOPBLOCKS
    requires forall t :: t in txns ==> |Targets(t)| <= limit
    ensures Legal(l, limit, d, run) && Serial(After(l, limit, d, run).groups, txns, Ones(|txns|))
    ensures DiskOk(l, After(l, limit, d, run).disk)
    ensures SameHomes(l, start, Recover(l, After(l, limit, d, run).disk))
  {
    hide Sane, AfterTxns, Serial, Legal, After, GroupWrites;
    forall t | t in txns ensures LogRuns.Takes(l, limit, |d|, t) {
    }
    run := LogRuns.Perform(l, limit, d, txns);
    var s := After(l, limit, d, run);
    OneByOne(s.groups, txns);
    SerialRecovered(l, limit, d, run, base, txns, Ones(|txns|));
    assert txns[..|txns|] == txns;
  }

  lemma StageMoves(sb: Super, l: Layout, fs0: Fs, i: nat, off: nat, addr: seq<Byte>, w: nat, d: Disk, e: Disk)
    requires LogFirst(sb, l) && FileWrite.StageOn(sb, fs0, i, off, addr, w, d) && SameHomes(l, d, e)
    ensures FileWrite.StageOn(sb, fs0, i, off, addr, w, e)
  {
    HomesFrom(sb, l, d, e);
    var gs: Fs :| gs.disk == d && FileWrite.Stage(sb, fs0, gs, i, off, addr, w);
    var hs := gs.(disk := e);
    MovedFiles(sb, gs, e);
    hide Quiet, Readable, Content, SameOthers, SameHomes, Spliced, SameFile;
    SameContent(gs, hs, i);
    MovedOthers(sb, fs0, gs, hs, i);
    FileWrite.StageNow(sb, fs0, hs, i, off, addr, w);
  }

  lemma MovedFiles(sb: Super, gs: Fs, e: Disk)
    requires Quiet(sb, gs) && |e| == |gs.disk|
    requires forall c :: sb.inodestart <= c < |e| ==> e[c] == gs.disk[c]
    ensures var hs := gs.(disk := e); Quiet(sb, hs) && forall j :: 0 <= j < sb.ninodes ==> SameFile(gs, hs, j)
  {
    hide DinodeAt, Represents, Roomy, BlockOk, FileOk;
    QuietMoves(sb, gs, e);
    forall j | 0 <= j < sb.ninodes ensures SameFile(gs, gs.(disk := e), j) {
      OwnedFacts(sb, gs, j);
    }
  }

  lemma MovedOthers(sb: Super, fs0: Fs, gs: Fs, hs: Fs, i: nat)
    requires SameOthers(sb, fs0, gs, i) && forall j :: 0 <= j < sb.ninodes ==> SameFile(gs, hs, j)
    ensures SameOthers(sb, fs0, hs, i)
  {
    hide SameFile;
    assert SameOthers(sb, gs, hs, i);
    SameOthersTrans(sb, fs0, gs, hs, i);
  }

  /** A crash during `filewrite` leaves the file with a whole number of its
      chunks written, in order, and every other file as it was. */
  lemma CrashedWrite(sb: Super, l: Layout, limit: nat, d: Disk, run: seq<Step>, fs0: Fs, i: nat, off: nat,
                     addr: seq<Byte>, w: nat, now: Disk, txns: seq<Txn>, cuts: seq<nat>)
    requires DiskOk(l, d) && Legal(l, limit, d, run) && SameHomes(l, Recover(l, d), fs0.disk) && LogFirst(sb, l)
    requires FileWrite.Recorded(sb, fs0, i, off, addr, w, now, txns)
    requires Serial(After(l, limit, d, run).groups, txns, cuts)
    ensures var s := After(l, limit, d, run);
            && 0 <= Durable(s) < |cuts| && DiskOk(l, s.disk)
            && FileWrite.StageOn(sb, fs0, i, off, addr, FileWrite.Reached(cuts[Durable(s)], w), Recover(l, s.disk))
  {
    hide Legal, After, DiskOk, AfterTxns, Recover, SameHomes, FileWrite.StageOn, Serial;
    SerialRecovered(l, limit, d, run, fs0.disk, txns, cuts);
    var s := After(l, limit, d, run);
    var k := cuts[Durable(s)];
    StageMoves(sb, l, fs0, i, off, addr, FileWrite.Reached(k, w), AfterTxns(fs0.disk, txns[..k]), Recover(l, s.disk));
  }
}
