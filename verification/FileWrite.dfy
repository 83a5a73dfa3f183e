/** `filewrite` of src/file.c: a long write cut into log transactions. */
module FileWrite {
  import opened Blocks
  import opened Common
  import opened FilesSpec
  import opened WriteSpec
  import opened TxnSpec
  import opened Files
  import LogSpec

  /** The most bytes one transaction writes. */
  const CHUNK: nat := (LogSpec.MAXOPBLOCKS - 1 - 1 - 2) / 2 * 512

  /** The most blocks one transaction logs, with a one-block free map. */
  const CHUNKBLOCKS: nat := 7

  /** What `filewrite` returns, or a panic for want of free blocks. */
  datatype Outcome = Returned(value: int) | Panicked

  class OpenFile {
    const ip: Inode
    const writable: bool
    var off: nat

    constructor (ip: Inode, writable: bool)
      ensures this.ip == ip && this.writable == writable && off == 0
    {
      this.ip, this.writable, off := ip, writable, 0;
    }
  }

  /** How many of n bytes `filewrite` can place at off: all of them, or whole
      chunks up to the first that would end beyond the largest file. */
  function Placed(size: nat, off: nat, n: int): (w: nat)
    ensures w > 0 ==> off <= size && w <= n && off + w <= 71680
    ensures w < n && off <= size ==> w % 1536 == 0 && (off <= 71680 ==> 71680 < off + w + 1536 && 71680 < off + n)
  {
    if n <= 0 || off > size then 0
    else if off + n <= MAXFILE * BSIZE then n
    else if off <= MAXFILE * BSIZE then (MAXFILE * BSIZE - off) / CHUNK * CHUNK
    else 0
  }

  /** The transactions that w bytes take. */
  function Rounds(w: nat): (r: nat)
    ensures w <= 1536 * r < w + 1536
  {
    (w + CHUNK - 1) / CHUNK
  }

  /** A chunk at any offset touches at most four blocks. */
  lemma ChunkSpan(off: nat, m: nat)
    requires m <= CHUNK
    ensures off / BSIZE <= Ceil(off + m) <= off / BSIZE + 4
  {
    CeilBound(off + m);
  }

  /** Two adjacent writes are one longer write. */
  lemma SplicedTwice(c: seq<Byte>, off: nat, a: seq<Byte>, b: seq<Byte>)
    requires off <= |c|
    ensures Spliced(Spliced(c, off, a), off + |a|, b) == Spliced(c, off, a + b)
  {
  }

  /** A transaction that wrote one chunk logs at most seven blocks. */
  lemma ChunkLogs(sb: Super, fs: Fs, i: nat, off: nat, m: nat, logged: set<nat>)
    requires Quiet(sb, fs) && i < sb.ninodes && m <= CHUNK && sb.size <= BPB
    requires LogsWithin(sb, fs, i, off / BSIZE, Ceil(off + m), {}, logged) && off + m <= fs.ino[i].size
    ensures |logged| <= CHUNKBLOCKS < LogSpec.MAXOPBLOCKS
  {
    hide BlockOk, FileOk, DinodeAt, LogsWithin, Roomy;
    ChunkSpan(off, m);
    assert Snug(fs, i);
    CeilMono(off + m, fs.ino[i].size);
    LogsCount(sb, fs, i, off / BSIZE, Ceil(off + m), logged);
  }

  // ---- What has been written after each transaction ----

  /** gs is fs0 with the first w bytes of addr written to file i at off: a
      consistent file system in which no other file has changed. */
  ghost predicate Stage(sb: Super, fs0: Fs, gs: Fs, i: nat, off: nat, addr: seq<Byte>, w: nat)
  {
    && Quiet(sb, gs) && i < sb.ninodes && i < |fs0.ino| && Readable(fs0, i) && Readable(gs, i)
    && w <= |addr| && (w > 0 ==> off <= fs0.ino[i].size)
    && Content(gs, i) == (if w == 0 then Content(fs0, i) else Spliced(Content(fs0, i), off, addr[..w]))
    && SameOthers(sb, fs0, gs, i)
  }

  /** The disk d holds such a file system. */
  ghost predicate StageOn(sb: Super, fs0: Fs, i: nat, off: nat, addr: seq<Byte>, w: nat, d: Disk)
  {
    exists gs: Fs :: gs.disk == d && Stage(sb, fs0, gs, i, off, addr, w)
  }

  /** The transaction stays within the budget and outside the log. */
  ghost predicate TxnOk(sb: Super, t: Txn)
  {
    && (sb.size <= BPB ==> |Targets(t)| <= CHUNKBLOCKS)
    && forall w :: w in t ==> sb.inodestart <= w.at < sb.size
  }

  function Reached(k: nat, w: nat): nat { if k * CHUNK < w then k * CHUNK else w }

  /** These transactions take fs0 to the disk d, chunk by chunk: after the
      first k of them the first k chunks of addr[..w] are in the file. */
  ghost predicate Recorded(sb: Super, fs0: Fs, i: nat, off: nat, addr: seq<Byte>, w: nat, d: Disk, txns: seq<Txn>)
  {
    && d == AfterTxns(fs0.disk, txns)
    && (forall k :: 0 <= k <= |txns| ==>
          StageOn(sb, fs0, i, off, addr, Reached(k, w), AfterTxns(fs0.disk, txns[..k])))
    && forall t :: t in txns ==> TxnOk(sb, t)
  }

  lemma RecordedStart(sb: Super, fs: Fs, i: nat, off: nat, addr: seq<Byte>)
    requires Stage(sb, fs, fs, i, off, addr, 0)
    ensures Recorded(sb, fs, i, off, addr, 0, fs.disk, [])
  {
    hide Stage;
    assert StageOn(sb, fs, i, off, addr, 0, fs.disk);
  }

  lemma RecordedNext(sb: Super, fs0: Fs, gs: Fs, i: nat, off: nat, addr: seq<Byte>, w: nat, v: nat,
                     d: Disk, txns: seq<Txn>, t: Txn)
    requires Recorded(sb, fs0, i, off, addr, w, d, txns) && w == |txns| * CHUNK && w <= v <= w + CHUNK
    requires Stage(sb, fs0, gs, i, off, addr, v) && gs.disk == LogSpec.Replay(d, t) && TxnOk(sb, t)
    ensures Recorded(sb, fs0, i, off, addr, v, gs.disk, txns + [t])
  {
    hide Stage, StageOn, TxnOk, Reached, AfterTxns;
    var all := txns + [t];
    AfterTxnsSnoc(fs0.disk, txns, t);
    forall k | 0 <= k <= |all|
      ensures StageOn(sb, fs0, i, off, addr, Reached(k, v), AfterTxns(fs0.disk, all[..k]))
    {
      if k <= |txns| {
        assert all[..k] == txns[..k];
        KeepsReached(k, |txns|, v);
      } else {
        assert all[..k] == all;
        LastReached(|txns|, v);
        StageNow(sb, fs0, gs, i, off, addr, v);
      }
    }
  }

  lemma StageNow(sb: Super, fs0: Fs, gs: Fs, i: nat, off: nat, addr: seq<Byte>, w: nat)
    requires Stage(sb, fs0, gs, i, off, addr, w)
    ensures StageOn(sb, fs0, i, off, addr, w, gs.disk)
  {
    hide Stage;
  }

  lemma LastReached(n: nat, v: nat)
    requires v <= n * CHUNK + CHUNK
    ensures Reached(n + 1, v) == v
  {
  }

  lemma KeepsReached(k: nat, n: nat, v: nat)
    requires k <= n && n * CHUNK <= v
    ensures Reached(k, n * CHUNK) == Reached(k, v) == k * CHUNK
  {
  }

  /** The first w bytes of addr are in the file, after the transactions that
      have ended since `before`. */
  ghost predicate Progress(fsys: FileSystem, f: OpenFile, fs0: Fs, before: nat, off: nat, addr: seq<Byte>, w: nat)
    reads fsys, f, f.ip, f.ip.addrs
  {
    && fsys.Valid() && fsys.Current(f.ip) && f.ip.inum < fsys.sb.ninodes
    && Stage(fsys.sb, fs0, fsys.fs, f.ip.inum, off, addr, w)
    && f.off == off + w && f.ip.typ != T_DEV && before <= |fsys.txns| && fsys.trace == []
    && Recorded(fsys.sb, fs0, f.ip.inum, off, addr, w, fsys.disk, fsys.txns[before..])
  }

  /** What `filewrite` leaves when `balloc` panics: every whole transaction
      has ended, the current one is half done, and no block is free. */
  ghost predicate Halted(fsys: FileSystem, f: OpenFile, fs0: Fs, before: nat, off: nat, addr: seq<Byte>)
    reads fsys, f, f.ip, f.ip.addrs
  {
    && fsys.Inside({}, {f.ip.inum}) && fsys.Current(f.ip) && FreeBlocks(fsys.fs.owner) == 0
    && SameOthers(fsys.sb, fs0, fsys.fs, f.ip.inum) && before <= |fsys.txns|
    && Recorded(fsys.sb, fs0, f.ip.inum, off, addr, (|fsys.txns| - before) * CHUNK, fsys.start, fsys.txns[before..])
  }

  lemma HaltedNow(sb: Super, fs0: Fs, ms: Fs, fs: Fs, i: nat, off: nat, addr: seq<Byte>, w: nat, n1: nat)
    requires Stage(sb, fs0, ms, i, off, addr, w) && w + n1 <= |addr|
    requires Starved(sb, ms, fs, i, off + w, addr[w..w + n1])
    ensures SameOthers(sb, fs0, fs, i) && FreeBlocks(fs.owner) == 0
  {
    hide Quiet, Content, Readable, SameOthers, Spliced, FreeBlocks, Paid, Expected, ByteAt, SameInodeBlocks, Roomy;
    SameOthersTrans(sb, fs0, ms, fs, i);
  }

  lemma ChunkHalted(fsys: FileSystem, f: OpenFile, fs0: Fs, ms: Fs, before: nat, off: nat, addr: seq<Byte>,
                    i: nat, n1: nat)
    requires before <= |fsys.txns| && i == (|fsys.txns| - before) * CHUNK && i + n1 <= |addr|
    requires fsys.Inside({}, {f.ip.inum}) && fsys.Current(f.ip)
    requires Stage(fsys.sb, fs0, ms, f.ip.inum, off, addr, i)
    requires Recorded(fsys.sb, fs0, f.ip.inum, off, addr, i, fsys.start, fsys.txns[before..])
    requires Starved(fsys.sb, ms, fsys.fs, f.ip.inum, off + i, addr[i..i + n1])
    ensures Halted(fsys, f, fs0, before, off, addr)
  {
    hide Recorded, Stage, Starved, FsInv, Traced, History, SameOthers;
    HaltedNow(fsys.sb, fs0, ms, fsys.fs, f.ip.inum, off, addr, i, n1);
  }

  /** One transaction of `filewrite`. */
  method WriteChunk(fsys: FileSystem, f: OpenFile, ghost fs0: Fs, ghost before: nat, ghost off: nat,
                    addr: seq<Byte>, i: nat, n1: nat)
    returns (r: WriteResult)
    requires Progress(fsys, f, fs0, before, off, addr, i) && i == (|fsys.txns| - before) * CHUNK
    requires 0 < n1 <= CHUNK && i + n1 <= |addr| && f.off < UINT
    modifies fsys, f`off, f.ip, f.ip.addrs
    ensures r.WriteError? || r.Wrote? || r.OutOfBlocks?
    ensures r == WriteError <==> old(f.off) > old(f.ip.size) || old(f.off) + n1 > MAXFILE * BSIZE
    ensures r.OutOfBlocks? <==>
              && old(f.off) <= old(f.ip.size) && old(f.off) + n1 <= MAXFILE * BSIZE
              && FreeBlocks(old(fsys.fs).owner) + BlocksFor(old(f.ip.size)) < BlocksFor(old(f.off) + n1)
    ensures r == WriteError ==>
              && Progress(fsys, f, fs0, before, off, addr, i)
              && fsys.fs == old(fsys.fs) && f.ip.size == old(f.ip.size) && f.off == old(f.off)
              && fsys.txns == old(fsys.txns) + [[]]
    ensures r.Wrote? ==>
              && r.n == n1 && Progress(fsys, f, fs0, before, off, addr, i + n1)
              && f.ip.size == Max(old(f.ip.size), old(f.off) + n1) && f.off == old(f.off) + n1
              && FreeBlocks(fsys.fs.owner) + BlocksFor(f.ip.size)
                 == FreeBlocks(old(fsys.fs).owner) + BlocksFor(old(f.ip.size))
              && |fsys.txns| == |old(fsys.txns)| + 1 && old(fsys.txns) <= fsys.txns
    ensures r.OutOfBlocks? ==>
              && fsys.txns == old(fsys.txns) && f.off == old(f.off)
              && Halted(fsys, f, fs0, before, off, addr)
              && Starved(fsys.sb, old(fsys.fs), fsys.fs, f.ip.inum, old(f.off), addr[i..i + n1])
  {
    hide Quiet, Content, Readable, SameOthers, LogsWithin, Spliced, Roomy, FreeBlocks, BlocksFor;
    hide Stage, Recorded, Starved, Halted, Traced, History, FsInv;
    TracedEmpty(fsys);
    ghost var ms, j, at, d, done := fsys.fs, f.ip.inum, f.off, fsys.disk, fsys.txns;
    r := fsys.Writei(f.ip, addr[i..i + n1], f.off);
    if r.OutOfBlocks? {
      ChunkHalted(fsys, f, fs0, ms, before, off, addr, i, n1);
      return;
    }
    if r.Wrote? {
      f.off := f.off + r.n;
      ChunkDone(fsys.sb, fs0, ms, fsys.fs, j, off, addr, i, n1, fsys.logged);
      ChunkRecorded(fsys.sb, fs0, fsys.fs, j, off, addr, i, i + n1, d, done[before..], fsys.trace, fsys.logged);
    } else {
      ChunkRecorded(fsys.sb, fs0, fsys.fs, j, off, addr, i, i, d, done[before..], fsys.trace, fsys.logged);
    }
    assert (done + [fsys.trace])[before..] == done[before..] + [fsys.trace];
    fsys.EndOp();
  }

  lemma StageSize(sb: Super, fs0: Fs, gs: Fs, i: nat, off: nat, addr: seq<Byte>, w: nat)
    requires Stage(sb, fs0, gs, i, off, addr, w)
    ensures |gs.disk| == sb.size
  {
    hide BlockOk, FileOk, DinodeAt, Content, Readable, SameOthers, Spliced, Roomy;
  }

  lemma TracedOk(sb: Super, d: Disk, e: Disk, t: Txn, logged: set<nat>)
    requires Traced(sb, d, e, t, logged) && |e| == sb.size && (sb.size <= BPB ==> |logged| <= CHUNKBLOCKS)
    ensures TxnOk(sb, t) && e == LogSpec.Replay(d, t)
  {
  }

  lemma ChunkRecorded(sb: Super, fs0: Fs, gs: Fs, i: nat, off: nat, addr: seq<Byte>, w: nat, v: nat,
                      d: Disk, txns: seq<Txn>, t: Txn, logged: set<nat>)
    requires Recorded(sb, fs0, i, off, addr, w, d, txns) && w == |txns| * CHUNK && w <= v <= w + CHUNK
    requires Stage(sb, fs0, gs, i, off, addr, v) && Traced(sb, d, gs.disk, t, logged)
    requires sb.size <= BPB ==> |logged| <= CHUNKBLOCKS
    ensures Recorded(sb, fs0, i, off, addr, v, gs.disk, txns + [t])
  {
    hide Stage, Recorded, Traced, TxnOk;
    StageSize(sb, fs0, gs, i, off, addr, v);
    TracedOk(sb, d, gs.disk, t, logged);
    RecordedNext(sb, fs0, gs, i, off, addr, w, v, d, txns, t);
  }

  lemma ChunkDone(sb: Super, fs0: Fs, ms: Fs, fs: Fs, j: nat, off: nat, addr: seq<Byte>, i: nat, n1: nat,
                  logged: set<nat>)
    requires Stage(sb, fs0, ms, j, off, addr, i) && Quiet(sb, fs) && i + n1 <= |addr| && 0 < n1 <= CHUNK
    requires Readable(ms, j) && Readable(fs, j) && off + i <= ms.ino[j].size
    requires Content(fs, j) == Spliced(Content(ms, j), off + i, addr[i..i + n1])
    requires SameOthers(sb, ms, fs, j)
    requires LogsWithin(sb, fs, j, (off + i) / BSIZE, Ceil(off + i + n1), {}, logged)
    ensures Stage(sb, fs0, fs, j, off, addr, i + n1) && fs.ino[j].size == Max(ms.ino[j].size, off + i + n1)
    ensures sb.size <= BPB ==> |logged| <= CHUNKBLOCKS
  {
    hide Quiet, SameOthers, LogsWithin, Content, Readable, Spliced, Ceil, Roomy;
    SameOthersTrans(sb, fs0, ms, fs, j);
    if i > 0 {
      SplicedTwice(Content(fs0, j), off, addr[..i], addr[i..i + n1]);
      assert addr[..i] + addr[i..i + n1] == addr[..i + n1];
    } else {
      assert addr[0..n1] == addr[..n1];
    }
    if sb.size <= BPB {
      ChunkLogs(sb, fs, j, off + i, n1, logged);
    }
  }

  // ---- The loop ----

  /** How far the loop of `filewrite` has come after w bytes and k rounds, with
      the size of the file and its free and used blocks before and now. */
  predicate Underway(size: nat, off: nat, n: int, size1: nat, w: nat, k: nat)
  {
    && (w == 0 || w <= n) && (w == k * CHUNK || (w == n && k == Rounds(w)))
    && (if w == 0 then size1 == size
        else off <= size && off + w <= MAXFILE * BSIZE && size1 == Max(size, off + w))
  }

  lemma StartUnderway(size: nat, off: nat, n: int)
    ensures Underway(size, off, n, size, 0, 0)
  {
  }

  lemma LastRound(k: nat, n1: nat)
    requires 0 < n1 <= CHUNK
    ensures Rounds(k * CHUNK + n1) == k + 1
  {
    assert CHUNK == 1536;
    assert (k * 1536 + n1 + 1535) / 1536 == k + 1;
  }

  lemma GoOn(size: nat, off: nat, n: int, size1: nat, w: nat, k: nat, n1: nat, size2: nat)
    requires Underway(size, off, n, size1, w, k) && w < n && n1 == (if n - w > CHUNK then CHUNK else n - w)
    requires off + w <= size1 && off + w + n1 <= MAXFILE * BSIZE && size2 == Max(size1, off + w + n1)
    ensures Underway(size, off, n, size2, w + n1, k + 1)
  {
    hide Rounds;
    LastRound(k, n1);
  }

  lemma WholeChunks(x: nat, k: nat)
    requires k * CHUNK <= x < k * CHUNK + CHUNK
    ensures x / CHUNK == k && (x == k * CHUNK ==> Rounds(x) == k)
  {
    assert CHUNK == 1536;
    assert x / 1536 == k;
    assert x == k * 1536 ==> (x + 1535) / 1536 == k;
  }

  lemma StopFull(size: nat, off: nat, n: int, size1: nat, w: nat, k: nat)
    requires Underway(size, off, n, size1, w, k) && w >= n && size <= MAXFILE * BSIZE
    ensures w == Placed(size, off, n) && k == Rounds(w) && (w > 0 ==> size1 >= off + w)
  {
    if w == k * CHUNK {
      WholeChunks(w, k);
    }
  }

  lemma StopShort(size: nat, off: nat, n: int, size1: nat, w: nat, k: nat, n1: nat)
    requires Underway(size, off, n, size1, w, k) && w < n && n1 == (if n - w > CHUNK then CHUNK else n - w)
    requires off + w > size1 || off + w + n1 > MAXFILE * BSIZE
    requires size <= MAXFILE * BSIZE
    ensures w == Placed(size, off, n) && k == Rounds(w) && (w > 0 ==> size1 >= off + w)
  {
    hide Rounds;
    WholeChunks(w, k);
    if off <= size {
      WholeChunks(MAXFILE * BSIZE - off, k);
    }
  }

  /** A chunk that fits lies within what can be placed. */
  lemma WithinPlaced(size: nat, off: nat, n: int, size1: nat, w: nat, k: nat, n1: nat)
    requires Underway(size, off, n, size1, w, k) && w < n && n1 == (if n - w > CHUNK then CHUNK else n - w)
    requires off + w <= size1 && off + w + n1 <= MAXFILE * BSIZE
    ensures w + n1 <= Placed(size, off, n)
  {
  }

  /** There are enough free blocks to write w bytes at off. */
  ghost predicate RoomFor(fs: Fs, size: nat, off: nat, w: nat)
  {
    w == 0 || FreeBlocks(fs.owner) + BlocksFor(size) >= BlocksFor(off + w)
  }

  /** The loop of `filewrite`. */
  method WriteChunks(fsys: FileSystem, f: OpenFile, addr: seq<Byte>, n: int) returns (i: nat, panicked: bool)
    requires Progress(fsys, f, fsys.fs, |fsys.txns|, f.off, addr, 0)
    requires n <= |addr| && f.off < UINT && f.ip.size <= MAXFILE * BSIZE
    modifies fsys, f`off, f.ip, f.ip.addrs
    ensures old(fsys.txns) <= fsys.txns
    ensures panicked <==>
              !RoomFor(old(fsys.fs), old(f.ip.size), old(f.off), Placed(old(f.ip.size), old(f.off), n))
    ensures !panicked ==>
              && i == Placed(old(f.ip.size), old(f.off), n)
              && Progress(fsys, f, old(fsys.fs), |old(fsys.txns)|, old(f.off), addr, i)
              && |fsys.txns| == |old(fsys.txns)| + Rounds(i) + (if i < n then 1 else 0)
    ensures panicked ==> Halted(fsys, f, old(fsys.fs), |old(fsys.txns)|, old(f.off), addr)
  {
    hide Progress, Underway, Placed, Rounds, Roomy, RoomFor, Halted, FreeBlocks, BlocksFor;
    ghost var fs0, off, size, before := fsys.fs, f.off, f.ip.size, |fsys.txns|;
    StartUnderway(size, off, n);
    i := 0;
    while i < n
      invariant f.off == off + i < UINT && before <= |fsys.txns| && old(fsys.txns) <= fsys.txns
      invariant Progress(fsys, f, fs0, before, off, addr, i)
      invariant Underway(size, off, n, f.ip.size, i, |fsys.txns| - before)
      invariant FreeBlocks(fsys.fs.owner) + BlocksFor(f.ip.size) == FreeBlocks(fs0.owner) + BlocksFor(size)
      decreases n - i
    {
      ghost var size1, k := f.ip.size, |fsys.txns| - before;
      var n1 := if n - i > CHUNK then CHUNK else n - i;
      ChunkStart(size, off, n, size1, i, k);
      var w := WriteChunk(fsys, f, fs0, before, off, addr, i, n1);
      if w.OutOfBlocks? {
        WithinPlaced(size, off, n, size1, i, k, n1);
        TooFew(fs0, size, off, i + n1, Placed(size, off, n));
        return i, true;
      }
      if w.WriteError? {
        StopShort(size, off, n, size1, i, k, n1);
        EnoughFor(fs0, fsys.fs, size, size1, off, i);
        return i, false;
      }
      GoOn(size, off, n, size1, i, k, n1, f.ip.size);
      i := i + n1;
    }
    StopFull(size, off, n, f.ip.size, i, |fsys.txns| - before);
    EnoughFor(fs0, fsys.fs, size, f.ip.size, off, i);
    return i, false;
  }

  /** `filewrite` on an inode that is not a device. It panics exactly when the
      blocks of what it can place are not free. Each of its transactions keeps
      within the budget and adds one chunk to the file, or none if the chunk
      would end beyond the largest file. */
  method Filewrite(fsys: FileSystem, f: OpenFile, addr: seq<Byte>, n: int) returns (r: Outcome)
    requires fsys.Valid() && fsys.Current(f.ip) && f.ip.inum < fsys.sb.ninodes && f.ip.typ != T_DEV
    requires n <= |addr| && f.off < UINT && fsys.trace == []
    modifies fsys, f`off, f.ip, f.ip.addrs
    ensures !f.writable ==> r == Returned(-1) && unchanged(fsys, f, f.ip, f.ip.addrs)
    ensures f.writable ==> old(fsys.txns) <= fsys.txns
    ensures f.writable ==>
              (r.Panicked? <==>
               !RoomFor(old(fsys.fs), old(f.ip.size), old(f.off), Placed(old(f.ip.size), old(f.off), n)))
    ensures f.writable && r.Returned? ==>
              var w := Placed(old(f.ip.size), old(f.off), n);
              && Progress(fsys, f, old(fsys.fs), |old(fsys.txns)|, old(f.off), addr, w)
              && |fsys.txns| == |old(fsys.txns)| + Rounds(w) + (if w < n then 1 else 0)
              && r.value == (if w == n then n else -1)
    ensures f.writable && r.Returned? ==>
              (r.value >= 0 <==> n == 0 || (n > 0 && old(f.off) <= old(f.ip.size) && old(f.off) + n <= MAXFILE * BSIZE))
    ensures r.Panicked? ==> Halted(fsys, f, old(fsys.fs), |old(fsys.txns)|, old(f.off), addr)
  {
    hide Quiet, Content, Readable, SameOthers, Spliced, Placed, Rounds, RoomFor, Halted, Roomy;
    if !f.writable {
      return Returned(-1);
    }
    SizeLimit(fsys.sb, fsys.fs, f.ip.inum);
    StartProgress(fsys, f, addr);
    hide Progress;
    var i, panicked := WriteChunks(fsys, f, addr, n);
    PlacedAll(old(f.ip.size), old(f.off), n);
    r := if panicked then Panicked else Returned(if i == n then n else -1);
  }

  lemma StartProgress(fsys: FileSystem, f: OpenFile, addr: seq<Byte>)
    requires fsys.Valid() && fsys.Current(f.ip) && f.ip.inum < fsys.sb.ninodes && f.ip.typ != T_DEV
    requires fsys.trace == []
    ensures Progress(fsys, f, fsys.fs, |fsys.txns|, f.off, addr, 0)
  {
    StartFacts(fsys.sb, fsys.fs, f.ip.inum);
    hide Quiet, Content, Readable, SameOthers, Recorded, Traced, History, Roomy;
    RecordedStart(fsys.sb, fsys.fs, f.ip.inum, f.off, addr);
    assert fsys.txns[|fsys.txns|..] == [];
  }

  lemma ChunkStart(size: nat, off: nat, n: int, size1: nat, w: nat, k: nat)
    requires Underway(size, off, n, size1, w, k) && w < n
    ensures w == k * CHUNK
  {
  }

  /** Nothing has been logged since the last transaction ended. */
  lemma TracedEmpty(fsys: FileSystem)
    requires fsys.Valid() && fsys.trace == []
    ensures fsys.logged == {} && fsys.start == fsys.disk
  {
    hide Quiet, History;
  }

  lemma TooFew(fs: Fs, size: nat, off: nat, v: nat, w: nat)
    requires 0 < v <= w && FreeBlocks(fs.owner) + BlocksFor(size) < BlocksFor(off + v)
    ensures !RoomFor(fs, size, off, w)
  {
    hide FreeBlocks, BlocksFor;
    BlocksMono(off + v, off + w);
  }

  lemma EnoughFor(fs0: Fs, fs: Fs, size: nat, size1: nat, off: nat, w: nat)
    requires FreeBlocks(fs.owner) + BlocksFor(size1) == FreeBlocks(fs0.owner) + BlocksFor(size)
    requires w > 0 ==> size1 >= off + w
    ensures RoomFor(fs0, size, off, w)
  {
    hide FreeBlocks, BlocksFor;
    if w > 0 {
      BlocksMono(off + w, size1);
    }
  }

  lemma PlacedAll(size: nat, off: nat, n: int)
    requires size <= MAXFILE * BSIZE
    ensures Placed(size, off, n) == n <==> n == 0 || (n > 0 && off <= size && off + n <= MAXFILE * BSIZE)
  {
  }

  lemma StartFacts(sb: Super, fs: Fs, i: nat)
    requires Quiet(sb, fs) && i < sb.ninodes
    ensures Readable(fs, i) && SameOthers(sb, fs, fs, i) && i < |fs.ino|
  {
    hide BlockOk, DinodeAt, ListsSlots, Roomy;
    QuietReadable(sb, fs, i);
    forall j | 0 <= j < sb.ninodes ensures SameFile(fs, fs, j) {
      FileFacts(sb, fs, j);
    }
  }
}
