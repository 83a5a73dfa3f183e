/** Transactions as the file system sees them: the `log_write` calls between a
    `begin_op` and its `end_op`. */
module TxnSpec {
  import opened Blocks
  import opened Common
  import opened FilesSpec
  import opened LogSpec

  type Txn = seq<Write>

  /** The blocks that a transaction logs. */
  function Targets(t: Txn): set<nat> { set w | w in t :: w.at }

  /** The disk is what it was at the start with the transaction applied, and
      the transaction only touches inodes, free map and data. */
  ghost predicate Traced(sb: Super, start: Disk, disk: Disk, trace: Txn, logged: set<nat>)
  {
    && disk == Replay(start, trace) && logged == Targets(trace)
    && forall w :: w in trace ==> sb.inodestart <= w.at < |start|
  }

  lemma TracedStart(sb: Super, disk: Disk)
    ensures Traced(sb, disk, disk, [], {})
  {
  }

  lemma TracedWrite(sb: Super, start: Disk, disk: Disk, trace: Txn, logged: set<nat>, b: nat, data: Block)
    requires Traced(sb, start, disk, trace, logged) && sb.inodestart <= b < |disk|
    ensures Traced(sb, start, disk[b := data], trace + [Write(b, data)], logged + {b})
  {
    ReplaySnoc(start, trace, Write(b, data));
    var t := trace + [Write(b, data)];
    assert forall w :: w in t <==> w in trace || w == Write(b, data);
  }

  /** The disk after the given transactions, in order. */
  function AfterTxns(d: Disk, txns: seq<Txn>): (r: Disk)
    ensures |r| == |d|
  {
    if txns == [] then d else Replay(AfterTxns(d, txns[..|txns| - 1]), txns[|txns| - 1])
  }

  lemma AfterTxnsSnoc(d: Disk, txns: seq<Txn>, t: Txn)
    ensures AfterTxns(d, txns + [t]) == Replay(AfterTxns(d, txns), t)
  {
    assert (txns + [t])[..|txns|] == txns;
  }

  /** The disk holds a consistent file system. */
  ghost predicate Sane(sb: Super, d: Disk)
  {
    exists fs: Fs :: fs.disk == d && Quiet(sb, fs)
  }

  /** These transactions take the disk from `base` to `start`, and the file
      system is consistent before and after each of them. */
  ghost predicate History(sb: Super, base: Disk, txns: seq<Txn>, start: Disk)
  {
    && start == AfterTxns(base, txns)
    && (forall k :: 0 <= k <= |txns| ==> Sane(sb, AfterTxns(base, txns[..k])))
    && forall t, w :: t in txns && w in t ==> sb.inodestart <= w.at < |base|
  }

  lemma SaneNow(sb: Super, fs: Fs)
    requires Quiet(sb, fs)
    ensures Sane(sb, fs.disk)
  {
    hide Quiet;
  }

  lemma HistoryStart(sb: Super, fs: Fs)
    requires Quiet(sb, fs)
    ensures History(sb, fs.disk, [], fs.disk)
  {
    SaneNow(sb, fs);
    hide Quiet, Sane;
  }

  lemma HistoryNext(sb: Super, base: Disk, txns: seq<Txn>, start: Disk, fs: Fs, t: Txn, logged: set<nat>)
    requires History(sb, base, txns, start) && Traced(sb, start, fs.disk, t, logged) && Quiet(sb, fs)
    ensures History(sb, base, txns + [t], fs.disk)
  {
    SaneNow(sb, fs);
    hide Quiet, Sane;
    var all := txns + [t];
    AfterTxnsSnoc(base, txns, t);
    forall k | 0 <= k <= |all| ensures Sane(sb, AfterTxns(base, all[..k])) {
      assert if k <= |txns| then all[..k] == txns[..k] else all[..k] == all;
    }
  }
}
