/** What `writei` has done after its first bytes, and what it amounts to. */
module WriteSpec {
  import opened Blocks
  import opened Common
  import opened FilesSpec

  /** Byte k of file i after `done` bytes of src have been written at off. */
  ghost function Expected(fs: Fs, i: nat, off: nat, src: seq<Byte>, done: nat, k: nat): Byte
    requires Readable(fs, i) && done <= |src|
  {
    if off <= k < off + done then src[k - off]
    else if k < |fs.slots[i]| * BSIZE then ByteAt(fs.disk, fs.slots[i], k)
    else 0
  }

  /** From fs to gs, the first `done` bytes of src were written at off: the
      file has exactly the blocks this needs, each byte is the expected one,
      and nothing else of the file system has changed but free map bits. */
  ghost predicate Written(sb: Super, fs: Fs, gs: Fs, i: nat, off: nat, src: seq<Byte>, done: nat)
  {
    && Shaped(sb, fs) && Shaped(sb, gs) && i < sb.ninodes && Readable(fs, i) && done <= |src|
    && SameOthers(sb, fs, gs, i) && SameInodeBlocks(sb, fs, gs)
    && gs.ino[i].(addrs := fs.ino[i].addrs) == fs.ino[i]
    && fs.slots[i] <= gs.slots[i] && |gs.slots[i]| == Max(|fs.slots[i]|, Ceil(off + done))
    && (forall k :: 0 <= k < |gs.slots[i]| ==> gs.slots[i][k] < sb.size)
    && (forall k :: 0 <= k < |gs.slots[i]| * BSIZE ==>
          ByteAt(gs.disk, gs.slots[i], k) == Expected(fs, i, off, src, done, k))
    && (forall b :: 0 <= b < sb.size && gs.owner[b] == Loose ==> fs.owner[b] == Loose)
  }

  lemma WrittenStart(sb: Super, fs: Fs, i: nat, off: nat, src: seq<Byte>)
    requires Quiet(sb, fs) && i < sb.ninodes && off <= fs.ino[i].size
    ensures Written(sb, fs, fs, i, off, src, 0)
  {
    hide BlockOk, DinodeAt, Represents, Roomy;
    QuietReadable(sb, fs, i);
    forall j | 0 <= j < sb.ninodes ensures SameFile(fs, fs, j) {
      FileFacts(sb, fs, j);
    }
    assert Snug(fs, i);
    CeilMono(off, fs.ino[i].size);
    assert FileOk(sb, fs, i);
  }

  lemma CeilMono(a: nat, b: nat)
    requires a <= b
    ensures Ceil(a) <= Ceil(b)
  {
  }

  /** Which block byte position `at` is in, and how many blocks hold the bytes
      up to the end of a chunk in that block. */
  lemma ChunkBlocks(at: nat, m: nat)
    requires 0 < m <= BSIZE - at % BSIZE
    ensures at / BSIZE <= Ceil(at) <= at / BSIZE + 1 == Ceil(at + m)
  {
    assert at == at / BSIZE * BSIZE + at % BSIZE;
  }

  /** Byte k lies in block bn exactly when it is one of its BSIZE bytes. */
  lemma BlockOf(k: nat, bn: nat)
    ensures k / BSIZE == bn <==> bn * BSIZE <= k < bn * BSIZE + BSIZE
    ensures k / BSIZE == bn ==> k % BSIZE == k - bn * BSIZE
  {
  }

  function Overwrite(b: Block, at: nat, data: seq<Byte>): (r: Block)
    requires at + |data| <= BSIZE
  {
    b[..at] + data + b[at + |data|..]
  }

  /** The block and the file after one round of the loop: `bmap` may have
      extended the file (ms to hs), then the chunk goes into block bn. */
  lemma WrittenByte(sb: Super, fs: Fs, ms: Fs, hs: Fs, i: nat, off: nat, src: seq<Byte>, done: nat, m: nat, k: nat)
    requires Written(sb, fs, ms, i, off, src, done) && Grown(sb, ms, hs, i)
    requires done + m <= |src| && 0 < m <= BSIZE - (off + done) % BSIZE
    requires var bn := (off + done) / BSIZE; |hs.slots[i]| == Max(|ms.slots[i]|, bn + 1)
    requires k < |hs.slots[i]| * BSIZE
    requires Distinct(hs.slots[i])
    ensures var bn, at := (off + done) / BSIZE, (off + done) % BSIZE;
            var x := hs.slots[i][bn];
            var disk := hs.disk[x := Overwrite(hs.disk[x], at, src[done..done + m])];
            ByteAt(disk, hs.slots[i], k) == Expected(fs, i, off, src, done + m, k)
  {
    hide SameOthers, SameInodeBlocks, Roomy;
    var bn, at := (off + done) / BSIZE, (off + done) % BSIZE;
    assert off + done == bn * BSIZE + at;
    BlockOf(k, bn);
    GrownByte(sb, ms, hs, i, k);
    if k / BSIZE == bn {
      assert k % BSIZE == k - bn * BSIZE;
    }
  }

  lemma GrownByte(sb: Super, ms: Fs, hs: Fs, i: nat, k: nat)
    requires Grown(sb, ms, hs, i) && k < |hs.slots[i]| * BSIZE
    requires forall j :: 0 <= j < |ms.slots[i]| ==> ms.slots[i][j] < sb.size
    ensures ByteAt(hs.disk, hs.slots[i], k) == if k < |ms.slots[i]| * BSIZE then ByteAt(ms.disk, ms.slots[i], k) else 0
  {
    hide SameOthers, SameInodeBlocks, Roomy;
    assert k / BSIZE < |ms.slots[i]| <==> k < |ms.slots[i]| * BSIZE;
    assert k / BSIZE < |hs.slots[i]|;
    if k / BSIZE < |ms.slots[i]| {
      assert hs.slots[i][k / BSIZE] == ms.slots[i][k / BSIZE];
    }
  }

  /** One round of the loop of `writei`. */
  function PutChunk(hs: Fs, i: nat, pos: nat, chunk: seq<Byte>): Fs
  {
    if && i < |hs.slots| && pos / BSIZE < |hs.slots[i]| && hs.slots[i][pos / BSIZE] < |hs.disk|
       && pos % BSIZE + |chunk| <= BSIZE
    then
      var x := hs.slots[i][pos / BSIZE];
      hs.(disk := hs.disk[x := Overwrite(hs.disk[x], pos % BSIZE, chunk)])
    else hs
  }

  /** Storing a chunk in a data block of inode i. */
  lemma PutChunkInv(sb: Super, hs: Fs, i: nat, pos: nat, chunk: seq<Byte>, stale: set<nat>)
    requires FsInv(sb, hs, {}, stale) && i < sb.ninodes && pos / BSIZE < |hs.slots[i]|
    requires pos % BSIZE + |chunk| <= BSIZE
    ensures hs.slots[i][pos / BSIZE] < |hs.disk| && Distinct(hs.slots[i])
    ensures var gs := PutChunk(hs, i, pos, chunk);
            && FsInv(sb, gs, {}, stale) && SameOthers(sb, hs, gs, i) && SameInodeBlocks(sb, hs, gs)
  {
    hide BlockOk, DinodeAt, Represents, SameOthers, Overwrite, SameFile, FileOk, Roomy;
    OwnedFacts(sb, hs, i);
    var x := hs.slots[i][pos / BSIZE];
    var gs := PutChunk(hs, i, pos, chunk);
    DataWriteInv(sb, hs, x, gs.disk[x], {}, stale);
    assert OnlyFile(sb, hs, gs, i);
    OthersSame(sb, hs, gs, i, stale);
  }

  /** Every byte is the expected one after a round. */
  lemma WrittenBytes(sb: Super, fs: Fs, ms: Fs, hs: Fs, gs: Fs, i: nat, off: nat, src: seq<Byte>, done: nat, m: nat)
    requires Written(sb, fs, ms, i, off, src, done) && Grown(sb, ms, hs, i)
    requires done + m <= |src| && 0 < m <= BSIZE - (off + done) % BSIZE
    requires |hs.slots[i]| == Max(|ms.slots[i]|, (off + done) / BSIZE + 1) && Distinct(hs.slots[i])
    requires gs == PutChunk(hs, i, off + done, src[done..done + m])
    ensures forall k :: 0 <= k < |gs.slots[i]| * BSIZE ==>
              ByteAt(gs.disk, gs.slots[i], k) == Expected(fs, i, off, src, done + m, k)
  {
    hide SameOthers, Expected, ByteAt, Overwrite, Zeroes, SameInodeBlocks, Roomy;
    forall k | 0 <= k < |gs.slots[i]| * BSIZE
      ensures ByteAt(gs.disk, gs.slots[i], k) == Expected(fs, i, off, src, done + m, k)
    {
      WrittenByte(sb, fs, ms, hs, i, off, src, done, m, k);
    }
  }

  lemma WrittenStep(sb: Super, fs: Fs, ms: Fs, hs: Fs, i: nat, off: nat, src: seq<Byte>, done: nat, m: nat,
                    stale: set<nat>)
    requires Written(sb, fs, ms, i, off, src, done) && Grown(sb, ms, hs, i) && FsInv(sb, hs, {}, stale)
    requires done + m <= |src| && 0 < m <= BSIZE - (off + done) % BSIZE
    requires |hs.slots[i]| == Max(|ms.slots[i]|, (off + done) / BSIZE + 1)
    ensures i < |hs.slots| && (off + done) / BSIZE < |hs.slots[i]| && hs.slots[i][(off + done) / BSIZE] < |hs.disk|
    ensures var gs := PutChunk(hs, i, off + done, src[done..done + m]);
            Written(sb, fs, gs, i, off, src, done + m) && FsInv(sb, gs, {}, stale)
  {
    hide FsInv, SameOthers, Expected, ByteAt, Overwrite, Zeroes, Roomy;
    PutChunkInv(sb, hs, i, off + done, src[done..done + m], stale);
    var gs := PutChunk(hs, i, off + done, src[done..done + m]);
    WrittenBytes(sb, fs, ms, hs, gs, i, off, src, done, m);
    SameOthersTrans(sb, fs, ms, hs, i);
    SameOthersTrans(sb, fs, hs, gs, i);
    ChunkBlocks(off + done, m);
  }

  /** The contents after a complete write, with the file size brought up to
      the end of the written part. */
  lemma WrittenContent(sb: Super, fs: Fs, gs: Fs, i: nat, off: nat, src: seq<Byte>, size: nat)
    requires Written(sb, fs, gs, i, off, src, |src|) && off <= fs.ino[i].size
    requires size == Max(fs.ino[i].size, off + |src|)
    ensures var hs := gs.(ino := gs.ino[i := gs.ino[i].(size := size)]);
            Readable(hs, i) && Content(hs, i) == Spliced(Content(fs, i), off, src)
  {
    hide SameOthers, SameInodeBlocks, ByteAt, Roomy;
    var hs := gs.(ino := gs.ino[i := gs.ino[i].(size := size)]);
    CeilBound(off + |src|);
    CeilBound(fs.ino[i].size);
    assert Readable(hs, i);
    var want := Spliced(Content(fs, i), off, src);
    forall k | 0 <= k < size ensures Content(hs, i)[k] == want[k] {
      assert Content(hs, i)[k] == Expected(fs, i, off, src, |src|, k);
    }
  }

  /** old[..off] + src + old[off+n..]. */
  function Spliced(old_: seq<Byte>, off: nat, src: seq<Byte>): (r: seq<Byte>)
    requires off <= |old_|
    ensures |r| == Max(|old_|, off + |src|)
    ensures forall k :: 0 <= k < |r| ==> r[k] == if off <= k < off + |src| then src[k - off] else old_[k]
  {
    old_[..off] + src + (if off + |src| < |old_| then old_[off + |src|..] else [])
  }

  /** What the loop keeps about the indirect block. */
  ghost predicate IndirectKept(fs: Fs, gs: Fs, i: nat)
  {
    && i < |fs.ind| && i < |gs.ind| && i < |gs.slots|
    && (gs.ind[i] != 0 <==> |gs.slots[i]| > NDIRECT)
    && (fs.ind[i] != 0 ==> gs.ind[i] == fs.ind[i])
  }

  lemma SameAddrs(d: Disk, a: Dinode, e: Disk, b: Dinode, slots: seq<nat>, ind: nat)
    requires Represents(d, a, slots, ind) && Represents(e, b, slots, ind)
    ensures a.addrs == b.addrs
  {
    hide ListsSlots, Roomy;
    assert forall k :: 0 <= k <= NDIRECT ==> a.addrs[k] == b.addrs[k];
  }

  /** A write inside the file allocates nothing, so the inode on disk is still
      current without being written back. */
  lemma InsideQuiet(sb: Super, fs: Fs, gs: Fs, i: nat, off: nat, src: seq<Byte>)
    requires Quiet(sb, fs) && Written(sb, fs, gs, i, off, src, |src|) && FsInv(sb, gs, {}, {i})
    requires IndirectKept(fs, gs, i) && off + |src| <= fs.ino[i].size
    ensures gs.ino[i] == fs.ino[i] && Quiet(sb, gs)
  {
    hide BlockOk, DinodeAt, Represents, Expected, ByteAt, SameFile, SameOthers, Roomy;
    CeilMono(off + |src|, fs.ino[i].size);
    assert Snug(fs, i);
    assert gs.slots[i] == fs.slots[i] && gs.ind[i] == fs.ind[i];
    FileFacts(sb, fs, i);
    FileFacts(sb, gs, i);
    SameAddrs(fs.disk, fs.ino[i], gs.disk, gs.ino[i], fs.slots[i], fs.ind[i]);
    InodeFrame(sb, fs.disk, gs.disk, i);
    forall j | 0 <= j < sb.ninodes ensures Snug(gs, j) {
      OtherSnug(sb, fs, gs, i, j);
    }
  }

  lemma OtherSnug(sb: Super, fs: Fs, gs: Fs, i: nat, j: nat)
    requires Shaped(sb, fs) && Shaped(sb, gs) && j < sb.ninodes && SameOthers(sb, fs, gs, i) && Snug(fs, j)
    ensures j != i ==> Snug(gs, j)
  {
    assert j != i ==> SameFile(fs, gs, j);
  }

  /** The in-memory inode after `ip->size = off`. */
  function Resized(gs: Fs, i: nat, size: nat): Fs
    requires i < |gs.ino|
  {
    gs.(ino := gs.ino[i := gs.ino[i].(size := size)])
  }

  lemma ResizedInv(sb: Super, gs: Fs, i: nat, size: nat, stale: set<nat>)
    requires FsInv(sb, gs, {}, stale) && i < sb.ninodes && i in stale && size < UINT
    ensures FsInv(sb, Resized(gs, i, size), {}, stale) && DinodeOk(Resized(gs, i, size).ino[i])
  {
    hide Marked, DinodeAt, FileOk, Roomy;
    var hs := Resized(gs, i, size);
    forall b | 0 <= b < sb.size ensures BlockOk(sb, hs, b) {
      assert BlockOk(sb, gs, b);
    }
    OtherFiles(sb, gs, hs, i);
    ResizedFile(sb, gs, i, size);
  }

  lemma ResizedFile(sb: Super, gs: Fs, i: nat, size: nat)
    requires Shaped(sb, gs) && i < sb.ninodes && FileOk(sb, gs, i) && size < UINT
    ensures FileOk(sb, Resized(gs, i, size), i) && DinodeOk(Resized(gs, i, size).ino[i])
  {
    hide ListsSlots, Roomy;
  }

  /** A write that ends past the old end leaves a quiet file system once the
      inode is written back. */
  lemma ExtendQuiet(sb: Super, fs: Fs, gs: Fs, i: nat, off: nat, src: seq<Byte>)
    requires Quiet(sb, fs) && Written(sb, fs, gs, i, off, src, |src|) && FsInv(sb, gs, {}, {i})
    requires IndirectKept(fs, gs, i) && fs.ino[i].size < off + |src| < UINT
    ensures var hs := Resized(gs, i, off + |src|);
            && FsInv(sb, hs, {}, {i}) && DinodeOk(hs.ino[i])
            && Quiet(sb, WriteBack(sb, hs, i)) && SameOthers(sb, fs, WriteBack(sb, hs, i), i)
  {
    hide BlockOk, DinodeAt, Represents, Expected, ByteAt, SameFile, SameOthers, WriteDinode, FileOk, Roomy;
    var hs := Resized(gs, i, off + |src|);
    ResizedInv(sb, gs, i, off + |src|, {i});
    WriteBackInv(sb, hs, i, {}, {i});
    var ws := WriteBack(sb, hs, i);
    assert {i} - {i} == {};
    assert OnlyFile(sb, gs, hs, i);
    OthersSame(sb, gs, hs, i, {i});
    WriteBackOnly(sb, hs, i, {i});
    OthersSame(sb, hs, ws, i, {i});
    SameOthersTrans(sb, fs, gs, hs, i);
    SameOthersTrans(sb, fs, hs, ws, i);
    CeilMono(fs.ino[i].size, off + |src|);
    assert Snug(fs, i);
    forall j | 0 <= j < sb.ninodes ensures Snug(ws, j) {
      OtherSnug(sb, fs, ws, i, j);
    }
  }

  lemma WriteBackOnly(sb: Super, fs: Fs, i: nat, stale: set<nat>)
    requires FsInv(sb, fs, {}, stale) && i < sb.ninodes && DinodeOk(fs.ino[i])
    ensures OnlyFile(sb, fs, WriteBack(sb, fs, i), i)
  {
    hide DinodeAt, FileOk, WriteDinode, Marked, Roomy;
    WriteBackInv(sb, fs, i, {}, stale);
    forall c | 0 <= c < sb.size && (fs.owner[c].Data? || fs.owner[c].Indirect?) ensures sb.datastart <= c {
      BlockFacts(sb, fs, c);
    }
  }

  // ---- How many blocks a write takes ----

  lemma PaidSame(fs: Fs, gs: Fs, hs: Fs, i: nat)
    requires Paid(fs, gs, i) && hs.owner == gs.owner && hs.slots == gs.slots && hs.ind == gs.ind
    ensures Paid(fs, hs, i)
  {
  }

  lemma BlocksMono(a: nat, b: nat)
    requires a <= b
    ensures BlocksFor(a) <= BlocksFor(b)
  {
    CeilMono(a, b);
  }

  lemma QuietUses(sb: Super, fs: Fs, i: nat)
    requires Quiet(sb, fs) && i < sb.ninodes
    ensures i < |fs.slots| && i < |fs.ind| && i < |fs.ino| && Uses(fs, i) == BlocksFor(fs.ino[i].size)
  {
    hide BlockOk, FileOk, DinodeAt, Roomy;
    assert Snug(fs, i);
  }

  /** `writei` has stopped for want of a free block: every block is in use,
      the bytes before some point have been written and nothing else has
      changed, and there were too few free blocks for the whole write. */
  ghost predicate Starved(sb: Super, fs: Fs, gs: Fs, i: nat, off: nat, src: seq<Byte>)
  {
    && (exists w :: 0 <= w < |src| && Written(sb, fs, gs, i, off, src, w))
    && Paid(fs, gs, i) && FreeBlocks(gs.owner) == 0 && i < |fs.ino|
    && FreeBlocks(fs.owner) + BlocksFor(fs.ino[i].size) < BlocksFor(off + |src|)
  }

  lemma StarvedFacts(sb: Super, fs: Fs, gs: Fs, i: nat, off: nat, src: seq<Byte>)
    requires Starved(sb, fs, gs, i, off, src)
    ensures i < |fs.ino| && FreeBlocks(fs.owner) + BlocksFor(fs.ino[i].size) < BlocksFor(off + |src|)
  {
  }

  lemma WrittenGrown(sb: Super, fs: Fs, ms: Fs, hs: Fs, i: nat, off: nat, src: seq<Byte>, done: nat)
    requires Written(sb, fs, ms, i, off, src, done) && Grown(sb, ms, hs, i) && hs.slots[i] == ms.slots[i]
    ensures Written(sb, fs, hs, i, off, src, done)
  {
    hide SameOthers, Expected, Zeroes, Roomy;
    SameOthersTrans(sb, fs, ms, hs, i);
  }

  lemma StarvedWhen(sb: Super, fs: Fs, hs: Fs, i: nat, off: nat, src: seq<Byte>, done: nat)
    requires Quiet(sb, fs) && FsInv(sb, hs, {}, {i}) && i < sb.ninodes && Paid(fs, hs, i)
    requires Written(sb, fs, hs, i, off, src, done) && done < |src|
    requires FreeBlocks(hs.owner) == 0 && |hs.slots[i]| < Ceil(off + |src|)
    ensures Starved(sb, fs, hs, i, off, src)
  {
    hide Quiet, Written, BlockOk, DinodeAt, ListsSlots, FreeBlocks, Roomy, Ceil;
    QuietUses(sb, fs, i);
    assert FileOk(sb, hs, i);
  }

  /** Between operations free and used blocks add up to the same. */
  lemma WriteCounted(sb: Super, fs: Fs, gs: Fs, ws: Fs, i: nat, off: nat, src: seq<Byte>)
    requires Quiet(sb, fs) && Quiet(sb, ws) && i < sb.ninodes && Paid(fs, gs, i)
    requires ws.owner == gs.owner && ws.slots == gs.slots && ws.ind == gs.ind
    requires Readable(fs, i) && Readable(ws, i) && off <= |Content(fs, i)|
    requires Content(ws, i) == Spliced(Content(fs, i), off, src)
    ensures FreeBlocks(ws.owner) + BlocksFor(ws.ino[i].size) == FreeBlocks(fs.owner) + BlocksFor(fs.ino[i].size)
    ensures FreeBlocks(fs.owner) + BlocksFor(fs.ino[i].size) >= BlocksFor(off + |src|)
  {
    hide Quiet, FreeBlocks, BlocksFor;
    PaidSame(fs, gs, ws, i);
    QuietUses(sb, fs, i);
    QuietUses(sb, ws, i);
    BlocksMono(off + |src|, ws.ino[i].size);
  }

  // ---- Which blocks are logged ----

  /** Block b may be logged while `bmap` maps block bn of inode i. */
  ghost predicate MapLogs(sb: Super, fs: Fs, i: nat, bn: nat, b: nat)
  {
    && i < |fs.slots| && i < |fs.ind|
    && ((bn < |fs.slots[i]| && b == fs.slots[i][bn]) || (fs.ind[i] != 0 && b == fs.ind[i]) || InBitmap(sb, b))
  }

  /** Block b may be logged while blocks lo .. hi-1 of inode i are written: one
      of them, the indirect block, the inode's block, or free map. */
  ghost predicate WriteLogs(sb: Super, fs: Fs, i: nat, lo: nat, hi: nat, b: nat)
  {
    && i < |fs.slots| && i < |fs.ind|
    && (|| (exists k :: lo <= k < hi && k < |fs.slots[i]| && fs.slots[i][k] == b)
        || (fs.ind[i] != 0 && b == fs.ind[i]) || InBitmap(sb, b) || b == Iblock(sb, i))
  }

  ghost predicate LogsWithin(sb: Super, fs: Fs, i: nat, lo: nat, hi: nat, before: set<nat>, logged: set<nat>)
  {
    forall b :: b in logged ==> b in before || WriteLogs(sb, fs, i, lo, hi, b)
  }

  lemma RoundLogs(sb: Super, ms: Fs, hs: Fs, gs: Fs, i: nat, lo: nat, hi: nat, bn: nat,
                  before: set<nat>, logged1: set<nat>, logged2: set<nat>)
    requires LogsWithin(sb, ms, i, lo, hi, before, logged1) && Grown(sb, ms, hs, i)
    requires forall b :: b in logged2 ==> b in logged1 || MapLogs(sb, hs, i, bn, b)
    requires ms.ind[i] != 0 ==> hs.ind[i] == ms.ind[i]
    requires gs.slots == hs.slots && gs.ind == hs.ind
    requires hi <= bn + 1 && lo <= bn < |hs.slots[i]|
    ensures LogsWithin(sb, gs, i, lo, bn + 1, before, logged2 + {hs.slots[i][bn]})
  {
    hide SameOthers, SameInodeBlocks, InBitmap, Roomy;
    forall b | b in logged2 + {hs.slots[i][bn]} && b !in before ensures WriteLogs(sb, gs, i, lo, bn + 1, b) {
      if b in logged1 {
        assert WriteLogs(sb, ms, i, lo, hi, b);
        if k :| lo <= k < hi && k < |ms.slots[i]| && ms.slots[i][k] == b {
          assert gs.slots[i][k] == b;
        }
      } else {
        assert gs.slots[i][bn] == hs.slots[i][bn];
      }
    }
  }

  /** What a round does to the indirect block. */
  lemma RoundIndirect(sb: Super, fs: Fs, ms: Fs, hs: Fs, gs: Fs, i: nat, bn: nat, stale: set<nat>)
    requires IndirectKept(fs, ms, i) && Grown(sb, ms, hs, i) && FsInv(sb, hs, {}, stale)
    requires gs.slots == hs.slots && gs.ind == hs.ind && bn < |hs.slots[i]|
    requires hs.ind[i] != 0 && ms.ind[i] == 0 ==> bn >= NDIRECT
    requires ms.ind[i] != 0 ==> hs.ind[i] == ms.ind[i]
    ensures IndirectKept(fs, gs, i)
  {
    hide BlockOk, DinodeAt, ListsSlots, SameOthers, SameInodeBlocks, Roomy;
    FileFacts(sb, hs, i);
  }

  /** A round of the loop: from ms, `bmap` led to hs, and the chunk is stored. */
  lemma RoundDone(sb: Super, fs: Fs, ms: Fs, hs: Fs, i: nat, off: nat, src: seq<Byte>, done: nat, m: nat,
                  before: set<nat>, logged1: set<nat>, logged2: set<nat>)
    requires Shaped(sb, ms) && Shaped(sb, hs) && i < sb.ninodes
    requires Written(sb, fs, ms, i, off, src, done) && IndirectKept(fs, ms, i)
    requires LogsWithin(sb, ms, i, off / BSIZE, Ceil(off + done), before, logged1)
    requires Grown(sb, ms, hs, i) && FsInv(sb, hs, {}, {i})
    requires done + m <= |src| && 0 < m <= BSIZE - (off + done) % BSIZE
    requires |hs.slots[i]| == Max(|ms.slots[i]|, (off + done) / BSIZE + 1)
    requires hs.ind[i] != 0 && ms.ind[i] == 0 ==> (off + done) / BSIZE >= NDIRECT
    requires ms.ind[i] != 0 ==> hs.ind[i] == ms.ind[i]
    requires forall b :: b in logged2 ==> b in logged1 || MapLogs(sb, hs, i, (off + done) / BSIZE, b)
    ensures (off + done) / BSIZE < |hs.slots[i]| && hs.slots[i][(off + done) / BSIZE] < |hs.disk|
    ensures var gs := PutChunk(hs, i, off + done, src[done..done + m]);
            && Written(sb, fs, gs, i, off, src, done + m) && FsInv(sb, gs, {}, {i}) && IndirectKept(fs, gs, i)
            && LogsWithin(sb, gs, i, off / BSIZE, Ceil(off + done + m), before,
                          logged2 + {hs.slots[i][(off + done) / BSIZE]})
  {
    hide FsInv, Written, Grown, LogsWithin, IndirectKept, Overwrite, MapLogs, Roomy;
    WrittenStep(sb, fs, ms, hs, i, off, src, done, m, {i});
    ChunkBlocks(off + done, m);
    assert off / BSIZE <= (off + done) / BSIZE;
    var gs := PutChunk(hs, i, off + done, src[done..done + m]);
    RoundLogs(sb, ms, hs, gs, i, off / BSIZE, Ceil(off + done), (off + done) / BSIZE, before, logged1, logged2);
    RoundIndirect(sb, fs, ms, hs, gs, i, (off + done) / BSIZE, {i});
  }

  /** Positions lo .. hi-1 of a sequence name at most hi-lo blocks. */
  lemma {:induction false} SliceCount(s: seq<nat>, lo: nat, hi: nat) returns (r: set<nat>)
    requires lo <= hi <= |s|
    ensures |r| <= hi - lo && forall k :: lo <= k < hi ==> s[k] in r
    decreases hi
  {
    if lo == hi {
      r := {};
    } else {
      r := SliceCount(s, lo, hi - 1);
      r := r + {s[hi - 1]};
    }
  }

  /** With a one-block free map, writing blocks lo .. hi-1 in a transaction of
      its own logs at most three blocks besides them. */
  lemma LogsCount(sb: Super, fs: Fs, i: nat, lo: nat, hi: nat, logged: set<nat>)
    requires LogsWithin(sb, fs, i, lo, hi, {}, logged) && lo <= hi && 0 < sb.size <= BPB
    requires i < |fs.slots| && i < |fs.ind| && hi <= |fs.slots[i]|
    ensures |logged| <= hi - lo + 3
  {
    var r := SliceCount(fs.slots[i], lo, hi);
    var all := r + {fs.ind[i]} + {Iblock(sb, i)} + {sb.bmapstart};
    forall b | b in logged ensures b in all {
      assert WriteLogs(sb, fs, i, lo, hi, b);
    }
    SubsetSize(logged, all);
  }
}
