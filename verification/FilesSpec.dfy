/** Files on blocks: the on-disk formats, who owns each block, and the byte
    sequence each inode stands for. */
module FilesSpec {
  import opened Blocks
  import opened Common

  const NDIRECT: nat := 12
  const NINDIRECT: nat := WORDS
  const MAXFILE: nat := NDIRECT + NINDIRECT
  const BPB: nat := BSIZE * 8
  const IPB: nat := 8             // BSIZE / sizeof(struct dinode)
  const DINODEWORDS: nat := 16

  // ---- Layout ----

  /** The superblock; `datastart` is the first block past the free map. */
  datatype Super = Super(size: nat, ninodes: nat, inodestart: nat, bmapstart: nat, datastart: nat)

  predicate SuperOk(sb: Super)
  {
    2 <= sb.inodestart < sb.bmapstart < sb.datastart <= sb.size < UINT && Roomy(sb)
  }

  /** The inode blocks and the free map have room for all inodes and blocks. */
  predicate Roomy(sb: Super)
  {
    && sb.inodestart + sb.ninodes / IPB + 1 <= sb.bmapstart
    && sb.bmapstart + sb.size / BPB + 1 <= sb.datastart
  }

  function Iblock(sb: Super, i: nat): nat { i / IPB + sb.inodestart }
  function Bblock(sb: Super, b: nat): nat { b / BPB + sb.bmapstart }

  lemma BitmapRange(sb: Super, b: nat)
    requires SuperOk(sb) && b < sb.size
    ensures sb.bmapstart <= Bblock(sb, b) < sb.datastart
  {
    assert b / BPB <= sb.size / BPB;
  }

  lemma BlockRanges(sb: Super, i: nat, b: nat)
    requires SuperOk(sb) && i < sb.ninodes && b < sb.size
    ensures sb.inodestart <= Iblock(sb, i) < sb.bmapstart <= Bblock(sb, b) < sb.datastart
  {
    assert i / IPB <= sb.ninodes / IPB;
    BitmapRange(sb, b);
  }

  // ---- Inodes on disk ----

  datatype Dinode = Dinode(typ: nat, major: nat, minor: nat, nlink: nat, size: nat, addrs: seq<nat>)

  predicate DinodeOk(d: Dinode)
  {
    && d.typ < 0x1_0000 && d.major < 0x1_0000 && d.minor < 0x1_0000 && d.nlink < 0x1_0000 && d.size < UINT
    && |d.addrs| == NDIRECT + 1 && forall k :: 0 <= k < |d.addrs| ==> d.addrs[k] < UINT
  }

  function DinodeWords(d: Dinode): (ws: seq<nat>)
    requires DinodeOk(d)
    ensures |ws| == DINODEWORDS && forall i :: 0 <= i < |ws| ==> ws[i] < UINT
  {
    [d.typ + 0x1_0000 * d.major, d.minor + 0x1_0000 * d.nlink, d.size] + d.addrs
  }

  function WordsDinode(ws: seq<nat>): (d: Dinode)
    requires |ws| == DINODEWORDS && forall i :: 0 <= i < |ws| ==> ws[i] < UINT
    ensures DinodeOk(d)
  {
    Dinode(ws[0] % 0x1_0000, ws[0] / 0x1_0000, ws[1] % 0x1_0000, ws[1] / 0x1_0000, ws[2], ws[3..])
  }

  lemma DinodeOfWords(d: Dinode)
    requires DinodeOk(d)
    ensures WordsDinode(DinodeWords(d)) == d
  {
    assert DinodeWords(d)[3..] == d.addrs;
  }

  /** The inode in the given slot of an inode block. */
  function ReadDinode(b: Block, slot: nat): (d: Dinode)
    requires slot < IPB
    ensures DinodeOk(d)
  {
    WordsDinode(Words(b, DINODEWORDS * slot, DINODEWORDS))
  }

  function WriteDinode(b: Block, slot: nat, d: Dinode): (r: Block)
    requires slot < IPB && DinodeOk(d)
  {
    PutWords(b, DINODEWORDS * slot, DinodeWords(d))
  }

  /** `iupdate` then `ilock`: the inode comes back, its neighbours in the
      block stay. */
  lemma DinodeRoundTrip(b: Block, slot: nat, d: Dinode, j: nat)
    requires slot < IPB && j < IPB && DinodeOk(d)
    ensures ReadDinode(WriteDinode(b, slot, d), j) == if j == slot then d else ReadDinode(b, j)
  {
    hide Words, PutWords, DinodeWords, WordsDinode;
    WordsOfPuts(b, DINODEWORDS * slot, DinodeWords(d), DINODEWORDS * j, DINODEWORDS);
    DinodeOfWords(d);
  }

  function DinodeAt(sb: Super, disk: Disk, i: nat): Dinode
    requires SuperOk(sb) && i < sb.ninodes && |disk| == sb.size
  {
    assert Iblock(sb, i) < sb.size by { assert i / IPB <= sb.ninodes / IPB; }
    ReadDinode(disk[Iblock(sb, i)], i % IPB)
  }

  // ---- The free map ----

  predicate BitAt(b: Block, bi: nat)
    requires bi < BPB
  {
    Bit(b[bi / 8], bi % 8)
  }

  function PutBitAt(b: Block, bi: nat, on: bool): (r: Block)
    requires bi < BPB
  {
    b[bi / 8 := PutByteBit(b[bi / 8], bi % 8, on)]
  }

  lemma BitAtOfPut(b: Block, bi: nat, on: bool, j: nat)
    requires bi < BPB && j < BPB
    ensures BitAt(PutBitAt(b, bi, on), j) == if j == bi then on else BitAt(b, j)
  {
    if j / 8 == bi / 8 {
      BitOfPut(b[bi / 8], bi % 8, on, j % 8);
    }
  }

  /** Block x holds part of the free map. */
  predicate InBitmap(sb: Super, x: nat) { sb.bmapstart <= x <= sb.bmapstart + (sb.size - 1) / BPB }

  lemma BitmapBlock(sb: Super, b: nat)
    requires b < sb.size
    ensures InBitmap(sb, Bblock(sb, b))
  {
    assert b / BPB <= (sb.size - 1) / BPB;
  }

  /** The free map marks block b as in use. */
  predicate Marked(sb: Super, disk: Disk, b: nat)
    requires SuperOk(sb) && |disk| == sb.size && b < sb.size
  {
    assert Bblock(sb, b) < sb.size by { assert b / BPB <= sb.size / BPB; }
    BitAt(disk[Bblock(sb, b)], b % BPB)
  }

  /** The disk with the mark of block b set or cleared. */
  function Mark(sb: Super, disk: Disk, b: nat, on: bool): (r: Disk)
    requires SuperOk(sb) && |disk| == sb.size && b < sb.size
    ensures |r| == |disk|
  {
    assert Bblock(sb, b) < sb.size by { assert b / BPB <= sb.size / BPB; }
    disk[Bblock(sb, b) := PutBitAt(disk[Bblock(sb, b)], b % BPB, on)]
  }

  lemma MarkedOfMark(sb: Super, disk: Disk, b: nat, on: bool, c: nat)
    requires SuperOk(sb) && |disk| == sb.size && b < sb.size && c < sb.size
    ensures Marked(sb, Mark(sb, disk, b, on), c) == if c == b then on else Marked(sb, disk, c)
  {
    hide PutBitAt, BitAt;
    assert b / BPB <= sb.size / BPB && c / BPB <= sb.size / BPB;
    BitAtOfPut(disk[Bblock(sb, b)], b % BPB, on, c % BPB);
    if b / BPB == c / BPB && b % BPB == c % BPB {
      assert b == b / BPB * BPB + b % BPB && c == c / BPB * BPB + c % BPB;
    }
  }

  // ---- Ownership ----

  /** What a block is used for. `Loose` blocks are marked in use but not
      linked to an inode; there are none between operations. */
  datatype Owner = Free | Meta | Loose | Data(inum: nat, slot: nat) | Indirect(inum: nat)

  /** The file system as seen through the buffer cache, with the current
      (possibly not yet written back) inodes, the data blocks of each file in
      order, its indirect block or 0, and the owner of every block. */
  datatype Fs = Fs(disk: Disk, ino: seq<Dinode>, slots: seq<seq<nat>>, ind: seq<nat>, owner: seq<Owner>)

  function At(s: seq<nat>, k: nat): nat { if k < |s| then s[k] else 0 }

  predicate Shaped(sb: Super, fs: Fs)
  {
    && SuperOk(sb) && |fs.disk| == |fs.owner| == sb.size
    && |fs.ino| == |fs.slots| == |fs.ind| == sb.ninodes
  }

  /** The indirect block lists the data blocks past the direct ones. */
  ghost predicate ListsSlots(b: Block, slots: seq<nat>)
  {
    forall j :: 0 <= j < NINDIRECT ==> Word(b, j) == At(slots, NDIRECT + j)
  }

  /** Inode d, with indirect block ind, lists exactly the blocks of slots. */
  ghost predicate Represents(disk: Disk, d: Dinode, slots: seq<nat>, ind: nat)
  {
    && DinodeOk(d) && |slots| <= MAXFILE
    && (forall k :: 0 <= k < NDIRECT ==> d.addrs[k] == At(slots, k))
    && d.addrs[NDIRECT] == ind
    && (|slots| > NDIRECT ==> ind != 0)
    && (ind != 0 ==> |slots| >= NDIRECT && ind < |disk| && ListsSlots(disk[ind], slots))
  }

  ghost predicate Owns(sb: Super, fs: Fs, i: nat)
    requires Shaped(sb, fs) && i < sb.ninodes
  {
    && (forall k :: 0 <= k < |fs.slots[i]| ==> fs.slots[i][k] < sb.size && fs.owner[fs.slots[i][k]] == Data(i, k))
    && (fs.ind[i] != 0 ==> fs.ind[i] < sb.size && fs.owner[fs.ind[i]] == Indirect(i))
  }

  ghost predicate FileOk(sb: Super, fs: Fs, i: nat)
    requires Shaped(sb, fs) && i < sb.ninodes
  {
    Represents(fs.disk, fs.ino[i], fs.slots[i], fs.ind[i]) && Owns(sb, fs, i)
  }

  ghost predicate BlockOk(sb: Super, fs: Fs, b: nat)
    requires Shaped(sb, fs) && b < sb.size
  {
    && (Marked(sb, fs.disk, b) <==> fs.owner[b] != Free)
    && (fs.owner[b] == Meta <==> b < sb.datastart)
    && (fs.owner[b].Data? ==> var Data(i, k) := fs.owner[b];
                              i < sb.ninodes && k < |fs.slots[i]| && fs.slots[i][k] == b)
    && (fs.owner[b].Indirect? ==> fs.owner[b].inum < sb.ninodes && fs.ind[fs.owner[b].inum] == b)
  }

  /** The invariant inside operations: every block is marked exactly when it
      has a use, belongs to at most one inode and slot, and every inode but
      those in `busy` is a list of blocks it owns; the disk copy of the inodes
      outside `stale` is current. */
  ghost predicate FsInv(sb: Super, fs: Fs, busy: set<nat>, stale: set<nat>)
  {
    && Shaped(sb, fs)
    && (forall b :: 0 <= b < sb.size ==> BlockOk(sb, fs, b))
    && (forall i :: 0 <= i < sb.ninodes && i !in busy ==> FileOk(sb, fs, i))
    && (forall i :: 0 <= i < sb.ninodes && i !in stale ==> DinodeAt(sb, fs.disk, i) == fs.ino[i])
  }

  function Ceil(n: nat): nat { (n + BSIZE - 1) / BSIZE }

  /** Between operations, moreover: no block is loose, no file has holes or
      spare blocks, and every inode on disk is current. */
  ghost predicate Quiet(sb: Super, fs: Fs)
  {
    && FsInv(sb, fs, {}, {})
    && (forall b :: 0 <= b < sb.size ==> fs.owner[b] != Loose)
    && (forall i :: 0 <= i < sb.ninodes ==> Snug(fs, i))
  }

  ghost predicate Snug(fs: Fs, i: nat)
    requires i < |fs.slots| && i < |fs.ino| && i < |fs.ind|
  {
    |fs.slots[i]| == Ceil(fs.ino[i].size) && (fs.ind[i] != 0 <==> |fs.slots[i]| > NDIRECT)
  }

  // ---- Counting blocks ----

  function FreeBlocks(owner: seq<Owner>): nat
  {
    if owner == [] then 0
    else FreeBlocks(owner[..|owner| - 1]) + (if owner[|owner| - 1] == Free then 1 else 0)
  }

  lemma {:induction false} FreeBlocksPut(owner: seq<Owner>, b: nat, o: Owner)
    requires b < |owner|
    ensures FreeBlocks(owner[b := o]) + (if owner[b] == Free then 1 else 0)
            == FreeBlocks(owner) + (if o == Free then 1 else 0)
  {
    var last := |owner| - 1;
    if b == last {
      assert owner[b := o][..last] == owner[..last];
    } else {
      assert owner[b := o][..last] == owner[..last][b := o];
      FreeBlocksPut(owner[..last], b, o);
    }
  }

  lemma {:induction false} FreeBlocksNone(owner: seq<Owner>)
    ensures FreeBlocks(owner) == 0 <==> forall b :: 0 <= b < |owner| ==> owner[b] != Free
  {
    if owner != [] {
      FreeBlocksNone(owner[..|owner| - 1]);
      assert forall b :: 0 <= b < |owner| - 1 ==> owner[..|owner| - 1][b] == owner[b];
    }
  }

  lemma {:induction false} FreeBlocksSame(owner: seq<Owner>, now: seq<Owner>)
    requires |now| == |owner| && forall b :: 0 <= b < |owner| ==> (now[b] == Free <==> owner[b] == Free)
    ensures FreeBlocks(now) == FreeBlocks(owner)
  {
    if owner != [] {
      FreeBlocksSame(owner[..|owner| - 1], now[..|now| - 1]);
    }
  }

  /** The blocks that a file of this size has, its indirect block included. */
  function BlocksFor(size: nat): nat { Ceil(size) + (if Ceil(size) > NDIRECT then 1 else 0) }

  /** The blocks that inode i has at the moment. */
  function Uses(fs: Fs, i: nat): nat
    requires i < |fs.slots| && i < |fs.ind|
  {
    |fs.slots[i]| + (if fs.ind[i] != 0 then 1 else 0)
  }

  /** Every block that inode i gained from fs to gs was a free one, and every
      free block that has gone is one of these. */
  ghost predicate Paid(fs: Fs, gs: Fs, i: nat)
  {
    && i < |fs.slots| && i < |fs.ind| && i < |gs.slots| && i < |gs.ind|
    && FreeBlocks(gs.owner) + Uses(gs, i) == FreeBlocks(fs.owner) + Uses(fs, i)
  }

  lemma PaidTrans(fs: Fs, gs: Fs, hs: Fs, i: nat)
    requires Paid(fs, gs, i) && Paid(gs, hs, i)
    ensures Paid(fs, hs, i)
  {
  }

  /** A free block becomes a data block of inode i, or its indirect block. */
  lemma PaidOne(fs: Fs, gs: Fs, i: nat, b: nat, o: Owner)
    requires i < |fs.slots| && i < |fs.ind| && i < |gs.slots| && i < |gs.ind| && b < |fs.owner|
    requires fs.owner[b] == Free && o != Free && gs.owner == fs.owner[b := Loose][b := o]
    requires Uses(gs, i) == Uses(fs, i) + 1
    ensures Paid(fs, gs, i)
  {
    FreeBlocksPut(fs.owner, b, Loose);
    FreeBlocksPut(fs.owner[b := Loose], b, o);
  }

  // ---- What operations leave alone ----

  /** File j has the same inode, the same blocks and the same data. */
  ghost predicate SameFile(fs: Fs, gs: Fs, j: nat)
  {
    && j < |fs.slots| && j < |gs.slots| && j < |fs.ino| && j < |gs.ino| && j < |fs.ind| && j < |gs.ind|
    && gs.ino[j] == fs.ino[j] && gs.slots[j] == fs.slots[j] && gs.ind[j] == fs.ind[j]
    && forall k :: 0 <= k < |fs.slots[j]| ==>
         fs.slots[j][k] < |fs.disk| && fs.slots[j][k] < |gs.disk| && gs.disk[fs.slots[j][k]] == fs.disk[fs.slots[j][k]]
  }

  ghost predicate SameOthers(sb: Super, fs: Fs, gs: Fs, i: nat)
  {
    forall j :: 0 <= j < sb.ninodes && j != i ==> SameFile(fs, gs, j)
  }

  lemma SameOthersTrans(sb: Super, fs: Fs, gs: Fs, hs: Fs, i: nat)
    requires SameOthers(sb, fs, gs, i) && SameOthers(sb, gs, hs, i)
    ensures SameOthers(sb, fs, hs, i)
  {
    forall j | 0 <= j < sb.ninodes && j != i ensures SameFile(fs, hs, j) {
      assert SameFile(fs, gs, j) && SameFile(gs, hs, j);
    }
  }

  // ---- The steps operations are made of ----

  /** Two states that agree on a file's inode, block list and indirect block
      agree on whether it is well formed. */
  lemma FileFrame(sb: Super, fs: Fs, gs: Fs, j: nat)
    requires Shaped(sb, fs) && Shaped(sb, gs) && j < sb.ninodes && FileOk(sb, fs, j)
    requires gs.ino[j] == fs.ino[j] && gs.slots[j] == fs.slots[j] && gs.ind[j] == fs.ind[j]
    requires fs.ind[j] != 0 ==> gs.disk[fs.ind[j]] == fs.disk[fs.ind[j]] && gs.owner[fs.ind[j]] == Indirect(j)
    requires forall k :: 0 <= k < |fs.slots[j]| ==> gs.owner[fs.slots[j][k]] == Data(j, k)
    ensures FileOk(sb, gs, j)
  {
  }

  /** The step from fs to gs leaves every inode but i, and the indirect and
      data blocks of the others, alone. */
  ghost predicate OnlyFile(sb: Super, fs: Fs, gs: Fs, i: nat)
  {
    && Shaped(sb, fs) && Shaped(sb, gs)
    && (forall j :: 0 <= j < sb.ninodes && j != i ==>
          gs.ino[j] == fs.ino[j] && gs.slots[j] == fs.slots[j] && gs.ind[j] == fs.ind[j])
    && (forall c :: 0 <= c < sb.size && fs.owner[c].Data? && fs.owner[c].inum != i ==>
          gs.owner[c] == fs.owner[c] && gs.disk[c] == fs.disk[c])
    && (forall c :: 0 <= c < sb.size && fs.owner[c].Indirect? && fs.owner[c].inum != i ==>
          gs.owner[c] == fs.owner[c] && gs.disk[c] == fs.disk[c])
  }

  lemma OtherFiles(sb: Super, fs: Fs, gs: Fs, i: nat)
    requires OnlyFile(sb, fs, gs, i)
    ensures forall j :: 0 <= j < sb.ninodes && j != i && FileOk(sb, fs, j) ==> FileOk(sb, gs, j) && SameFile(fs, gs, j)
  {
    hide FileOk, ListsSlots, Roomy;
    forall j | 0 <= j < sb.ninodes && j != i && FileOk(sb, fs, j) ensures FileOk(sb, gs, j) && SameFile(fs, gs, j) {
      FileFacts(sb, fs, j);
      FileFrame(sb, fs, gs, j);
    }
  }

  /** `balloc` of the free block b: marked, zeroed, not linked yet. */
  function Allocate(sb: Super, fs: Fs, b: nat): (r: Fs)
    requires Shaped(sb, fs) && b < sb.size
    ensures Shaped(sb, r)
  {
    fs.(disk := Mark(sb, fs.disk, b, true)[b := Zeroes()], owner := fs.owner[b := Loose])
  }

  lemma MarkKeeps(sb: Super, fs: Fs, b: nat, on: bool, c: nat)
    requires Shaped(sb, fs) && b < sb.size && c < sb.size && (c < sb.bmapstart || sb.datastart <= c)
    ensures Mark(sb, fs.disk, b, on)[c] == fs.disk[c]
  {
    assert b / BPB <= sb.size / BPB;
  }

  lemma AllocateKeeps(sb: Super, fs: Fs, b: nat)
    requires Shaped(sb, fs) && sb.datastart <= b < sb.size
    ensures var gs := Allocate(sb, fs, b);
            && SameInodeBlocks(sb, fs, gs)
            && forall c :: sb.datastart <= c < sb.size && c != b ==> gs.disk[c] == fs.disk[c]
  {
    hide Mark, Zeroes, Roomy;
    forall c | 0 <= c < sb.size && c != b && (c < sb.bmapstart || sb.datastart <= c)
      ensures Allocate(sb, fs, b).disk[c] == fs.disk[c]
    {
      MarkKeeps(sb, fs, b, true, c);
    }
  }

  lemma AllocateBlock(sb: Super, fs: Fs, b: nat, c: nat)
    requires Shaped(sb, fs) && b < sb.size && c < sb.size && fs.owner[b] == Free
    requires BlockOk(sb, fs, b) && BlockOk(sb, fs, c)
    ensures BlockOk(sb, Allocate(sb, fs, b), c)
  {
    hide PutBitAt, BitAt, Roomy, Bblock;
    MarkedOfMark(sb, fs.disk, b, true, c);
    BitmapRange(sb, c);
  }

  lemma AllocateInv(sb: Super, fs: Fs, b: nat, busy: set<nat>, stale: set<nat>)
    requires FsInv(sb, fs, busy, stale) && b < sb.size && fs.owner[b] == Free
    ensures FsInv(sb, Allocate(sb, fs, b), busy, stale)
    ensures forall c :: 0 <= c < sb.size && c != b && sb.datastart <= c ==> Allocate(sb, fs, b).disk[c] == fs.disk[c]
    ensures SameInodeBlocks(sb, fs, Allocate(sb, fs, b))
    ensures sb.datastart <= b
  {
    hide Marked, Mark, BlockOk, FileOk, DinodeAt, Zeroes, Roomy;
    var gs := Allocate(sb, fs, b);
    assert sb.datastart <= b && b != 0 by { BlockFacts(sb, fs, b); }
    forall c | 0 <= c < sb.size ensures BlockOk(sb, gs, c) {
      AllocateBlock(sb, fs, b, c);
    }
    AllocateKeeps(sb, fs, b);
    forall j | 0 <= j < sb.ninodes && j !in busy ensures FileOk(sb, gs, j) {
      assert FileOk(sb, fs, j);
      OwnedFacts(sb, fs, j);
      FileFrame(sb, fs, gs, j);
    }
    forall j | 0 <= j < sb.ninodes && j !in stale ensures DinodeAt(sb, gs.disk, j) == gs.ino[j] {
      InodeFrame(sb, fs.disk, gs.disk, j);
    }
  }

  lemma InodeFrame(sb: Super, d: Disk, e: Disk, j: nat)
    requires SuperOk(sb) && |d| == |e| == sb.size && j < sb.ninodes
    requires forall c :: sb.inodestart <= c < sb.bmapstart ==> e[c] == d[c]
    ensures DinodeAt(sb, e, j) == DinodeAt(sb, d, j)
  {
    assert j / IPB <= sb.ninodes / IPB;
  }

  lemma BlockFacts(sb: Super, fs: Fs, b: nat)
    requires Shaped(sb, fs) && b < sb.size && BlockOk(sb, fs, b)
    ensures fs.owner[b] == Meta <==> b < sb.datastart
    ensures Marked(sb, fs.disk, b) <==> fs.owner[b] != Free
  {
  }

  /** The blocks of a file are outside the metadata area. */
  lemma OwnedFacts(sb: Super, fs: Fs, j: nat)
    requires Shaped(sb, fs) && j < sb.ninodes && FileOk(sb, fs, j)
    requires forall b :: 0 <= b < sb.size ==> BlockOk(sb, fs, b)
    ensures forall k :: 0 <= k < |fs.slots[j]| ==>
              sb.datastart <= fs.slots[j][k] < sb.size && fs.owner[fs.slots[j][k]] == Data(j, k)
    ensures fs.ind[j] != 0 ==> sb.datastart <= fs.ind[j] < sb.size && fs.owner[fs.ind[j]] == Indirect(j)
  {
    hide Marked, Roomy;
    forall k | 0 <= k < |fs.slots[j]| ensures sb.datastart <= fs.slots[j][k] {
      BlockFacts(sb, fs, fs.slots[j][k]);
    }
    if fs.ind[j] != 0 { BlockFacts(sb, fs, fs.ind[j]); }
  }

  /** The loose block b becomes the next data block of inode i. */
  function Linked(fs: Fs, i: nat, b: nat): Fs
    requires i < |fs.slots| && b < |fs.owner|
  {
    fs.(slots := fs.slots[i := fs.slots[i] + [b]], owner := fs.owner[b := Data(i, |fs.slots[i]|)])
  }

  lemma LinkedBlock(sb: Super, fs: Fs, i: nat, b: nat, ino: seq<Dinode>, disk: Disk, c: nat)
    requires Shaped(sb, fs) && i < sb.ninodes && b < sb.size && fs.owner[b] == Loose && c < sb.size
    requires BlockOk(sb, fs, b) && BlockOk(sb, fs, c)
    requires |ino| == sb.ninodes && |disk| == sb.size
    requires forall x :: 0 <= x < sb.datastart ==> disk[x] == fs.disk[x]
    ensures BlockOk(sb, Linked(fs, i, b).(ino := ino, disk := disk), c)
  {
    hide BitAt, Roomy, Bblock;
    BitmapRange(sb, c);
  }

  /** `ip->addrs[bn] = balloc(...)`. */
  function LinkDirect(fs: Fs, i: nat, b: nat): Fs
    requires i < |fs.slots| && i < |fs.ino| && b < |fs.owner| && |fs.slots[i]| < |fs.ino[i].addrs|
  {
    var d := fs.ino[i];
    Linked(fs, i, b).(ino := fs.ino[i := d.(addrs := d.addrs[|fs.slots[i]| := b])])
  }

  lemma LinkDirectInv(sb: Super, fs: Fs, i: nat, b: nat, stale: set<nat>)
    requires FsInv(sb, fs, {}, stale) && i < sb.ninodes && b < sb.size && fs.owner[b] == Loose
    requires |fs.slots[i]| < NDIRECT
    ensures |fs.ino[i].addrs| == NDIRECT + 1
    ensures FsInv(sb, LinkDirect(fs, i, b), {}, stale + {i}) && OnlyFile(sb, fs, LinkDirect(fs, i, b), i)
  {
    hide Marked, BlockOk, FileOk, DinodeAt, Represents, Owns, Roomy;
    AddrsLength(sb, fs, i);
    var gs := LinkDirect(fs, i, b);
    forall c | 0 <= c < sb.size ensures BlockOk(sb, gs, c) {
      LinkedBlock(sb, fs, i, b, gs.ino, fs.disk, c);
    }
    OtherFiles(sb, fs, gs, i);
    LinkDirectFile(sb, fs, i, b);
  }

  lemma LinkDirectFile(sb: Super, fs: Fs, i: nat, b: nat)
    requires Shaped(sb, fs) && i < sb.ninodes && b < sb.size && fs.owner[b] == Loose
    requires FileOk(sb, fs, i) && |fs.slots[i]| < NDIRECT
    ensures FileOk(sb, LinkDirect(fs, i, b), i)
  {
    hide ListsSlots;
  }

  lemma AddrsLength(sb: Super, fs: Fs, i: nat)
    requires Shaped(sb, fs) && i < sb.ninodes && FileOk(sb, fs, i)
    ensures |fs.ino[i].addrs| == NDIRECT + 1
  {
  }

  lemma FileFacts(sb: Super, fs: Fs, j: nat)
    requires Shaped(sb, fs) && j < sb.ninodes && FileOk(sb, fs, j)
    ensures Represents(fs.disk, fs.ino[j], fs.slots[j], fs.ind[j]) && Owns(sb, fs, j)
  {
  }

  /** `ip->addrs[NDIRECT] = balloc(...)`. */
  function LinkIndirect(fs: Fs, i: nat, b: nat): Fs
    requires i < |fs.ind| && i < |fs.ino| && b < |fs.owner| && NDIRECT < |fs.ino[i].addrs|
  {
    var d := fs.ino[i];
    fs.(ino := fs.ino[i := d.(addrs := d.addrs[NDIRECT := b])],
        ind := fs.ind[i := b], owner := fs.owner[b := Indirect(i)])
  }

  lemma LinkIndirectBlock(sb: Super, fs: Fs, i: nat, b: nat, c: nat)
    requires Shaped(sb, fs) && i < sb.ninodes && b < sb.size && fs.owner[b] == Loose && c < sb.size
    requires NDIRECT < |fs.ino[i].addrs| && fs.ind[i] == 0 && sb.datastart > 0
    requires BlockOk(sb, fs, b) && BlockOk(sb, fs, c)
    ensures BlockOk(sb, LinkIndirect(fs, i, b), c)
  {
    hide Marked;
  }

  lemma LinkIndirectInv(sb: Super, fs: Fs, i: nat, b: nat, stale: set<nat>)
    requires FsInv(sb, fs, {}, stale) && i < sb.ninodes && b < sb.size && fs.owner[b] == Loose
    requires |fs.slots[i]| == NDIRECT && fs.ind[i] == 0 && fs.disk[b] == Zeroes()
    ensures NDIRECT < |fs.ino[i].addrs|
    ensures FsInv(sb, LinkIndirect(fs, i, b), {}, stale + {i}) && OnlyFile(sb, fs, LinkIndirect(fs, i, b), i)
  {
    hide Marked, BlockOk, FileOk, DinodeAt, Zeroes, Represents, Owns, Roomy;
    assert NDIRECT < |fs.ino[i].addrs| by { AddrsLength(sb, fs, i); }
    var gs := LinkIndirect(fs, i, b);
    forall c | 0 <= c < sb.size ensures BlockOk(sb, gs, c) {
      LinkIndirectBlock(sb, fs, i, b, c);
    }
    OtherFiles(sb, fs, gs, i);
    assert fs.owner[b] != Meta && b != 0 by { BlockFacts(sb, fs, b); BlockFacts(sb, fs, 0); }
    LinkIndirectFile(sb, fs, i, b);
  }

  lemma LinkIndirectFile(sb: Super, fs: Fs, i: nat, b: nat)
    requires Shaped(sb, fs) && i < sb.ninodes && 0 < b < sb.size && fs.owner[b] == Loose
    requires FileOk(sb, fs, i) && |fs.slots[i]| == NDIRECT && fs.ind[i] == 0 && fs.disk[b] == Zeroes()
    ensures FileOk(sb, LinkIndirect(fs, i, b), i)
  {
    hide Word, Zeroes;
    forall j | 0 <= j < NINDIRECT ensures Word(Zeroes(), j) == At(fs.slots[i], NDIRECT + j) {
      ZeroWords(j);
    }
    assert ListsSlots(fs.disk[b], fs.slots[i]);
  }

  /** `a[bn] = balloc(...)` in the indirect block. */
  function LinkListed(fs: Fs, i: nat, b: nat): Fs
    requires i < |fs.slots| && i < |fs.ind| && b < |fs.owner| && b < UINT && fs.ind[i] < |fs.disk|
    requires NDIRECT <= |fs.slots[i]| < MAXFILE
  {
    var x := fs.ind[i];
    Linked(fs, i, b).(disk := fs.disk[x := PutWord(fs.disk[x], |fs.slots[i]| - NDIRECT, b)])
  }

  lemma LinkListedInv(sb: Super, fs: Fs, i: nat, b: nat, stale: set<nat>)
    requires FsInv(sb, fs, {}, stale) && i < sb.ninodes && b < sb.size && fs.owner[b] == Loose
    requires NDIRECT <= |fs.slots[i]| < MAXFILE && fs.ind[i] != 0
    ensures sb.datastart <= fs.ind[i] < sb.size
    ensures FsInv(sb, LinkListed(fs, i, b), {}, stale) && OnlyFile(sb, fs, LinkListed(fs, i, b), i)
  {
    hide Marked, BlockOk, FileOk, DinodeAt, PutWord, Represents, Owns, OnlyFile, Roomy;
    OwnedFacts(sb, fs, i);
    var gs := LinkListed(fs, i, b);
    LinkListedOnly(sb, fs, i, b);
    forall c | 0 <= c < sb.size ensures BlockOk(sb, gs, c) {
      LinkedBlock(sb, fs, i, b, fs.ino, gs.disk, c);
    }
    OtherFiles(sb, fs, gs, i);
    LinkListedFile(sb, fs, i, b);
    forall j | 0 <= j < sb.ninodes && j !in stale ensures DinodeAt(sb, gs.disk, j) == gs.ino[j] {
      InodeFrame(sb, fs.disk, gs.disk, j);
    }
  }

  lemma LinkListedOnly(sb: Super, fs: Fs, i: nat, b: nat)
    requires Shaped(sb, fs) && i < sb.ninodes && b < sb.size && fs.owner[b] == Loose
    requires NDIRECT <= |fs.slots[i]| < MAXFILE
    requires sb.datastart <= fs.ind[i] < sb.size && fs.owner[fs.ind[i]] == Indirect(i)
    ensures OnlyFile(sb, fs, LinkListed(fs, i, b), i)
    ensures forall c :: 0 <= c < sb.datastart ==> LinkListed(fs, i, b).disk[c] == fs.disk[c]
  {
    hide PutWord, Roomy;
  }

  lemma LinkListedFile(sb: Super, fs: Fs, i: nat, b: nat)
    requires Shaped(sb, fs) && i < sb.ninodes && b < sb.size && fs.owner[b] == Loose
    requires FileOk(sb, fs, i) && NDIRECT <= |fs.slots[i]| < MAXFILE && fs.ind[i] != 0
    ensures FileOk(sb, LinkListed(fs, i, b), i)
  {
    hide Word, PutWord;
    var n, x := |fs.slots[i]|, fs.ind[i];
    var list, slots := PutWord(fs.disk[x], n - NDIRECT, b), fs.slots[i] + [b];
    forall j | 0 <= j < NINDIRECT ensures Word(list, j) == At(slots, NDIRECT + j) {
      WordOfPut(fs.disk[x], n - NDIRECT, b, j);
    }
    assert ListsSlots(list, slots);
  }

  /** Writing a data block, or any block past the metadata that is not an
      indirect block. */
  lemma DataWriteInv(sb: Super, fs: Fs, x: nat, data: Block, busy: set<nat>, stale: set<nat>)
    requires FsInv(sb, fs, busy, stale) && sb.datastart <= x < sb.size && !fs.owner[x].Indirect?
    ensures FsInv(sb, fs.(disk := fs.disk[x := data]), busy, stale)
  {
    hide Marked, BlockOk, FileOk, DinodeAt, ListsSlots, Roomy;
    var gs := fs.(disk := fs.disk[x := data]);
    forall c | 0 <= c < sb.size ensures BlockOk(sb, gs, c) {
      DataWriteBlock(sb, fs, x, data, c);
    }
    forall j | 0 <= j < sb.ninodes && j !in busy ensures FileOk(sb, gs, j) {
      FileFacts(sb, fs, j);
      FileFrame(sb, fs, gs, j);
    }
    forall j | 0 <= j < sb.ninodes && j !in stale ensures DinodeAt(sb, gs.disk, j) == gs.ino[j] {
      InodeFrame(sb, fs.disk, gs.disk, j);
    }
  }

  lemma DataWriteBlock(sb: Super, fs: Fs, x: nat, data: Block, c: nat)
    requires Shaped(sb, fs) && sb.datastart <= x < sb.size && c < sb.size && BlockOk(sb, fs, c)
    ensures BlockOk(sb, fs.(disk := fs.disk[x := data]), c)
  {
    hide BitAt, Roomy, Bblock;
    BitmapRange(sb, c);
  }

  /** `iupdate`: the inode's disk copy becomes current. */
  function WriteBack(sb: Super, fs: Fs, i: nat): (r: Fs)
    requires Shaped(sb, fs) && i < sb.ninodes && DinodeOk(fs.ino[i])
    ensures Shaped(sb, r)
  {
    var x := Iblock(sb, i);
    assert x < sb.size by { assert i / IPB <= sb.ninodes / IPB; }
    fs.(disk := fs.disk[x := WriteDinode(fs.disk[x], i % IPB, fs.ino[i])])
  }

  lemma WriteBackInode(sb: Super, fs: Fs, i: nat, j: nat)
    requires Shaped(sb, fs) && i < sb.ninodes && j < sb.ninodes && DinodeOk(fs.ino[i])
    ensures DinodeAt(sb, WriteBack(sb, fs, i).disk, j) == if j == i then fs.ino[i] else DinodeAt(sb, fs.disk, j)
  {
    hide ReadDinode, WriteDinode;
    assert i / IPB <= sb.ninodes / IPB && j / IPB <= sb.ninodes / IPB;
    DinodeRoundTrip(fs.disk[Iblock(sb, i)], i % IPB, fs.ino[i], j % IPB);
  }

  lemma WriteBackBlock(sb: Super, fs: Fs, i: nat, c: nat)
    requires Shaped(sb, fs) && i < sb.ninodes && DinodeOk(fs.ino[i]) && c < sb.size && BlockOk(sb, fs, c)
    ensures BlockOk(sb, WriteBack(sb, fs, i), c)
  {
    hide BitAt, WriteDinode, Roomy, Iblock, Bblock;
    BlockRanges(sb, i, c);
  }

  lemma WriteBackInv(sb: Super, fs: Fs, i: nat, busy: set<nat>, stale: set<nat>)
    requires FsInv(sb, fs, busy, stale) && i < sb.ninodes && DinodeOk(fs.ino[i])
    ensures FsInv(sb, WriteBack(sb, fs, i), busy, stale - {i})
    ensures forall c :: sb.datastart <= c < sb.size ==> WriteBack(sb, fs, i).disk[c] == fs.disk[c]
  {
    hide Marked, BlockOk, FileOk, DinodeAt, WriteDinode, ListsSlots, Roomy, Iblock;
    var gs := WriteBack(sb, fs, i);
    BlockRanges(sb, i, 0);
    forall c | 0 <= c < sb.size ensures BlockOk(sb, gs, c) {
      WriteBackBlock(sb, fs, i, c);
    }
    forall j | 0 <= j < sb.ninodes && j !in busy ensures FileOk(sb, gs, j) {
      OwnedFacts(sb, fs, j);
      FileFrame(sb, fs, gs, j);
    }
    forall j | 0 <= j < sb.ninodes && j !in stale - {i} ensures DinodeAt(sb, gs.disk, j) == gs.ino[j] {
      WriteBackInode(sb, fs, i, j);
    }
  }

  // ---- Growing a file ----

  /** From fs to gs, inode i may have gained zeroed blocks at its end; its
      other blocks and all other files are as they were. */
  ghost predicate Grown(sb: Super, fs: Fs, gs: Fs, i: nat)
  {
    && Shaped(sb, fs) && Shaped(sb, gs) && i < sb.ninodes
    && SameOthers(sb, fs, gs, i)
    && gs.ino[i].(addrs := fs.ino[i].addrs) == fs.ino[i]
    && fs.slots[i] <= gs.slots[i]
    && (forall k :: 0 <= k < |gs.slots[i]| ==> gs.slots[i][k] < sb.size)
    && (forall k :: 0 <= k < |fs.slots[i]| ==> gs.disk[fs.slots[i][k]] == fs.disk[fs.slots[i][k]])
    && (forall k :: |fs.slots[i]| <= k < |gs.slots[i]| ==> gs.disk[gs.slots[i][k]] == Zeroes())
    && (forall b :: 0 <= b < sb.size && gs.owner[b] == Loose ==> fs.owner[b] == Loose)
    && SameInodeBlocks(sb, fs, gs)
  }

  ghost predicate SameInodeBlocks(sb: Super, fs: Fs, gs: Fs)
    requires Shaped(sb, fs) && Shaped(sb, gs)
  {
    forall c :: sb.inodestart <= c < sb.bmapstart ==> gs.disk[c] == fs.disk[c]
  }

  lemma GrownTrans(sb: Super, fs: Fs, gs: Fs, hs: Fs, i: nat)
    requires Grown(sb, fs, gs, i) && Grown(sb, gs, hs, i)
    ensures Grown(sb, fs, hs, i)
  {
    hide SameOthers, Zeroes, Roomy;
    SameOthersTrans(sb, fs, gs, hs, i);
    forall k | 0 <= k < |fs.slots[i]| ensures hs.disk[fs.slots[i][k]] == fs.disk[fs.slots[i][k]] {
      assert fs.slots[i][k] == gs.slots[i][k];
    }
    forall k | |fs.slots[i]| <= k < |hs.slots[i]| ensures hs.disk[hs.slots[i][k]] == Zeroes() {
      if k < |gs.slots[i]| { assert hs.slots[i][k] == gs.slots[i][k]; }
    }
  }

  lemma AllocateOnly(sb: Super, fs: Fs, b: nat, i: nat, busy: set<nat>, stale: set<nat>)
    requires FsInv(sb, fs, busy, stale) && b < sb.size && fs.owner[b] == Free
    ensures OnlyFile(sb, fs, Allocate(sb, fs, b), i)
  {
    hide Marked, Mark, FileOk, DinodeAt, Zeroes, Roomy;
    AllocateInv(sb, fs, b, busy, stale);
    forall c | 0 <= c < sb.size && (fs.owner[c].Data? || fs.owner[c].Indirect?) ensures sb.datastart <= c {
      BlockFacts(sb, fs, c);
    }
  }

  lemma OnlyFileTrans(sb: Super, fs: Fs, gs: Fs, hs: Fs, i: nat)
    requires OnlyFile(sb, fs, gs, i) && OnlyFile(sb, gs, hs, i)
    ensures OnlyFile(sb, fs, hs, i)
  {
  }

  lemma OthersSame(sb: Super, fs: Fs, gs: Fs, i: nat, stale: set<nat>)
    requires FsInv(sb, fs, {}, stale) && OnlyFile(sb, fs, gs, i)
    ensures SameOthers(sb, fs, gs, i)
  {
    hide BlockOk, DinodeAt, FileOk, OnlyFile, SameFile, Roomy;
    OtherFiles(sb, fs, gs, i);
  }

  /** `bmap` past the end of the direct blocks in use. */
  lemma GrowDirect(sb: Super, fs: Fs, i: nat, b: nat, stale: set<nat>)
    requires FsInv(sb, fs, {}, stale) && i < sb.ninodes && b < sb.size && fs.owner[b] == Free
    requires |fs.slots[i]| < NDIRECT
    ensures |fs.ino[i].addrs| == NDIRECT + 1
    ensures var gs := LinkDirect(Allocate(sb, fs, b), i, b);
            FsInv(sb, gs, {}, stale + {i}) && Grown(sb, fs, gs, i) && Paid(fs, gs, i)
  {
    hide Marked, Mark, FileOk, DinodeAt, Zeroes, BlockOk, Represents, SameOthers, Roomy, Paid;
    var ms := Allocate(sb, fs, b);
    AllocateInv(sb, fs, b, {}, stale);
    AllocateOnly(sb, fs, b, i, {}, stale);
    LinkDirectInv(sb, ms, i, b, stale);
    var gs := LinkDirect(ms, i, b);
    OnlyFileTrans(sb, fs, ms, gs, i);
    OthersSame(sb, fs, gs, i, stale);
    OwnedFacts(sb, fs, i);
    PaidOne(fs, gs, i, b, Data(i, |fs.slots[i]|));
  }

  /** `bmap` allocating the indirect block. */
  lemma GrowIndirect(sb: Super, fs: Fs, i: nat, b: nat, stale: set<nat>)
    requires FsInv(sb, fs, {}, stale) && i < sb.ninodes && b < sb.size && fs.owner[b] == Free
    requires |fs.slots[i]| == NDIRECT && fs.ind[i] == 0
    ensures NDIRECT < |fs.ino[i].addrs|
    ensures var gs := LinkIndirect(Allocate(sb, fs, b), i, b);
            FsInv(sb, gs, {}, stale + {i}) && Grown(sb, fs, gs, i) && Paid(fs, gs, i)
  {
    hide Marked, Mark, FileOk, DinodeAt, Zeroes, BlockOk, Represents, SameOthers, Roomy, Paid;
    var ms := Allocate(sb, fs, b);
    AllocateInv(sb, fs, b, {}, stale);
    AllocateOnly(sb, fs, b, i, {}, stale);
    LinkIndirectInv(sb, ms, i, b, stale);
    var gs := LinkIndirect(ms, i, b);
    OnlyFileTrans(sb, fs, ms, gs, i);
    OthersSame(sb, fs, gs, i, stale);
    OwnedFacts(sb, fs, i);
    PaidOne(fs, gs, i, b, Indirect(i));
  }

  lemma LinkListedData(sb: Super, fs: Fs, ms: Fs, i: nat, b: nat)
    requires Shaped(sb, fs) && Shaped(sb, ms) && i < sb.ninodes && sb.datastart <= b < sb.size
    requires ms.slots == fs.slots && ms.ind == fs.ind && ms.disk[b] == Zeroes()
    requires forall c :: sb.datastart <= c < sb.size && c != b ==> ms.disk[c] == fs.disk[c]
    requires NDIRECT <= |fs.slots[i]| < MAXFILE && fs.owner[b] == Free
    requires sb.datastart <= fs.ind[i] < sb.size && fs.owner[fs.ind[i]] == Indirect(i)
    requires forall k :: 0 <= k < |fs.slots[i]| ==>
               sb.datastart <= fs.slots[i][k] < sb.size && fs.owner[fs.slots[i][k]] == Data(i, k)
    ensures var gs := LinkListed(ms, i, b);
            && gs.disk[b] == Zeroes()
            && forall k :: 0 <= k < |fs.slots[i]| ==> gs.disk[fs.slots[i][k]] == fs.disk[fs.slots[i][k]]
  {
    hide Zeroes, PutWord, Roomy;
  }

  lemma LinkListedGrown(sb: Super, fs: Fs, ms: Fs, i: nat, b: nat)
    requires Shaped(sb, fs) && Shaped(sb, ms) && i < sb.ninodes && sb.datastart <= b < sb.size
    requires ms.ino == fs.ino && ms.slots == fs.slots && ms.ind == fs.ind && ms.owner == fs.owner[b := Loose]
    requires ms.disk[b] == Zeroes() && SameInodeBlocks(sb, fs, ms)
    requires forall c :: sb.datastart <= c < sb.size && c != b ==> ms.disk[c] == fs.disk[c]
    requires NDIRECT <= |fs.slots[i]| < MAXFILE && fs.owner[b] == Free
    requires sb.datastart <= fs.ind[i] < sb.size && fs.owner[fs.ind[i]] == Indirect(i)
    requires forall k :: 0 <= k < |fs.slots[i]| ==>
               sb.datastart <= fs.slots[i][k] < sb.size && fs.owner[fs.slots[i][k]] == Data(i, k)
    requires SameOthers(sb, fs, LinkListed(ms, i, b), i)
    ensures Grown(sb, fs, LinkListed(ms, i, b), i)
  {
    LinkListedData(sb, fs, ms, i, b);
    hide Zeroes, PutWord, SameOthers, Roomy;
    var gs := LinkListed(ms, i, b);
    assert gs.slots[i] == fs.slots[i] + [b] && gs.ino == fs.ino;
    hide LinkListed;
  }

  /** `bmap` allocating a block listed in the indirect block. */
  lemma GrowListed(sb: Super, fs: Fs, i: nat, b: nat, stale: set<nat>)
    requires FsInv(sb, fs, {}, stale) && i < sb.ninodes && b < sb.size && fs.owner[b] == Free
    requires NDIRECT <= |fs.slots[i]| < MAXFILE && fs.ind[i] != 0
    ensures sb.datastart <= fs.ind[i] < sb.size && fs.ind[i] != b
    ensures Allocate(sb, fs, b).disk[fs.ind[i]] == fs.disk[fs.ind[i]]
    ensures var gs := LinkListed(Allocate(sb, fs, b), i, b);
            FsInv(sb, gs, {}, stale) && Grown(sb, fs, gs, i) && Paid(fs, gs, i)
  {
    hide Marked, Mark, FileOk, DinodeAt, Zeroes, BlockOk, Represents, PutWord, SameOthers, OnlyFile, Grown, Roomy, Paid;
    var ms := Allocate(sb, fs, b);
    AllocateInv(sb, fs, b, {}, stale);
    AllocateOnly(sb, fs, b, i, {}, stale);
    LinkListedInv(sb, ms, i, b, stale);
    var gs := LinkListed(ms, i, b);
    OnlyFileTrans(sb, fs, ms, gs, i);
    OthersSame(sb, fs, gs, i, stale);
    OwnedFacts(sb, fs, i);
    LinkListedGrown(sb, fs, ms, i, b);
    PaidOne(fs, gs, i, b, Data(i, |fs.slots[i]|));
  }

  // ---- Truncation ----

  predicate BelongsTo(o: Owner, i: nat) { (o.Data? || o.Indirect?) && o.inum == i }

  /** Inode i gives up its blocks: they stay marked but belong to no file. */
  ghost function Detach(fs: Fs, i: nat): Fs
    requires i < |fs.slots| && i < |fs.ind|
  {
    fs.(slots := fs.slots[i := []], ind := fs.ind[i := 0],
        owner := seq(|fs.owner|, b requires 0 <= b < |fs.owner| =>
                   if BelongsTo(fs.owner[b], i) then Loose else fs.owner[b]))
  }

  lemma DetachInv(sb: Super, fs: Fs, i: nat)
    requires FsInv(sb, fs, {}, {}) && i < sb.ninodes
    ensures FsInv(sb, Detach(fs, i), {i}, {i}) && OnlyFile(sb, fs, Detach(fs, i), i)
  {
    hide Marked, DinodeAt, FileOk, Roomy;
    var gs := Detach(fs, i);
    forall b | 0 <= b < sb.size ensures BlockOk(sb, gs, b) {
      assert BlockOk(sb, fs, b);
    }
    OtherFiles(sb, fs, gs, i);
  }

  /** `bfree` of block b. */
  function Release(sb: Super, fs: Fs, b: nat): (r: Fs)
    requires Shaped(sb, fs) && b < sb.size
    ensures Shaped(sb, r)
  {
    fs.(disk := Mark(sb, fs.disk, b, false), owner := fs.owner[b := Free])
  }

  /** Freeing a block with this owner hurts no inode outside `busy`. */
  predicate Disposable(o: Owner, busy: set<nat>)
  {
    o == Loose || ((o.Data? || o.Indirect?) && o.inum in busy)
  }

  lemma ReleaseBlock(sb: Super, fs: Fs, b: nat, c: nat, busy: set<nat>)
    requires Shaped(sb, fs) && b < sb.size && c < sb.size && Disposable(fs.owner[b], busy)
    requires BlockOk(sb, fs, b) && BlockOk(sb, fs, c)
    ensures BlockOk(sb, Release(sb, fs, b), c)
  {
    hide Marked, Mark, Roomy;
    MarkedOfMark(sb, fs.disk, b, false, c);
  }

  lemma ReleaseInv(sb: Super, fs: Fs, b: nat, busy: set<nat>, stale: set<nat>)
    requires FsInv(sb, fs, busy, stale) && b < sb.size && Disposable(fs.owner[b], busy)
    ensures FsInv(sb, Release(sb, fs, b), busy, stale)
    ensures forall c :: sb.datastart <= c < sb.size ==> Release(sb, fs, b).disk[c] == fs.disk[c]
  {
    hide Marked, Mark, BlockOk, FileOk, DinodeAt, Roomy;
    var gs := Release(sb, fs, b);
    forall c | 0 <= c < sb.size ensures BlockOk(sb, gs, c) {
      ReleaseBlock(sb, fs, b, c, busy);
    }
    forall c | 0 <= c < sb.size && (c < sb.bmapstart || sb.datastart <= c) ensures gs.disk[c] == fs.disk[c] {
      MarkKeeps(sb, fs, b, false, c);
    }
    forall j | 0 <= j < sb.ninodes && j !in busy ensures FileOk(sb, gs, j) {
      OwnedFacts(sb, fs, j);
      FileFrame(sb, fs, gs, j);
    }
    forall j | 0 <= j < sb.ninodes && j !in stale ensures DinodeAt(sb, gs.disk, j) == gs.ino[j] {
      InodeFrame(sb, fs.disk, gs.disk, j);
    }
  }

  /** Freeing any other block in use breaks the invariant. */
  lemma ReleaseBreaks(sb: Super, fs: Fs, b: nat, busy: set<nat>, stale: set<nat>)
    requires FsInv(sb, fs, busy, stale) && b < sb.size && fs.owner[b] != Free && !Disposable(fs.owner[b], busy)
    ensures !FsInv(sb, Release(sb, fs, b), busy, stale)
  {
    hide Marked, Mark, DinodeAt, Represents, Roomy;
    var gs := Release(sb, fs, b);
    assert BlockOk(sb, fs, b);
    if fs.owner[b] == Meta {
      assert !BlockOk(sb, gs, b);
    } else {
      var i := fs.owner[b].inum;
      assert FileOk(sb, fs, i);
      assert !FileOk(sb, gs, i);
    }
  }

  /** An inode with no addresses at all is an empty file. */
  lemma EmptyFile(sb: Super, fs: Fs, i: nat, d: Dinode, stale: set<nat>)
    requires FsInv(sb, fs, {i}, stale) && i < sb.ninodes && i in stale
    requires fs.slots[i] == [] && fs.ind[i] == 0
    requires DinodeOk(d) && forall k :: 0 <= k < |d.addrs| ==> d.addrs[k] == 0
    ensures FsInv(sb, fs.(ino := fs.ino[i := d]), {}, stale)
  {
    hide Marked, DinodeAt, FileOk, Roomy;
    var gs := fs.(ino := fs.ino[i := d]);
    forall b | 0 <= b < sb.size ensures BlockOk(sb, gs, b) {
      assert BlockOk(sb, fs, b);
    }
    OtherFiles(sb, fs, gs, i);
    EmptyFileOk(sb, gs, i);
  }

  lemma EmptyFileOk(sb: Super, fs: Fs, i: nat)
    requires Shaped(sb, fs) && i < sb.ninodes && fs.slots[i] == [] && fs.ind[i] == 0
    requires DinodeOk(fs.ino[i]) && forall k :: 0 <= k < |fs.ino[i].addrs| ==> fs.ino[i].addrs[k] == 0
    ensures FileOk(sb, fs, i)
  {
  }

  // ---- File contents ----

  ghost predicate Readable(fs: Fs, i: nat)
  {
    && i < |fs.ino| && i < |fs.slots| && fs.ino[i].size <= |fs.slots[i]| * BSIZE
    && forall k :: 0 <= k < |fs.slots[i]| ==> fs.slots[i][k] < |fs.disk|
  }

  /** Byte k of the blocks listed in slots. */
  ghost function ByteAt(disk: Disk, slots: seq<nat>, k: nat): Byte
    requires k < |slots| * BSIZE && forall j :: 0 <= j < |slots| ==> slots[j] < |disk|
  {
    disk[slots[k / BSIZE]][k % BSIZE]
  }

  /** The byte sequence that file i stands for. */
  ghost function Content(fs: Fs, i: nat): (s: seq<Byte>)
    requires Readable(fs, i)
    ensures |s| == fs.ino[i].size
  {
    seq(fs.ino[i].size, k requires 0 <= k < fs.ino[i].size => ByteAt(fs.disk, fs.slots[i], k))
  }

  lemma SameContent(fs: Fs, gs: Fs, j: nat)
    requires SameFile(fs, gs, j) && Readable(fs, j)
    ensures Readable(gs, j) && Content(gs, j) == Content(fs, j)
  {
  }

  lemma QuietReadable(sb: Super, fs: Fs, i: nat)
    requires Quiet(sb, fs) && i < sb.ninodes
    ensures Readable(fs, i)
  {
    hide Marked, BlockOk, DinodeAt, ListsSlots;
    assert FileOk(sb, fs, i) && Snug(fs, i);
    CeilBound(fs.ino[i].size);
  }

  lemma CeilBound(n: nat)
    ensures n <= Ceil(n) * BSIZE < n + BSIZE
  {
  }

  /** Between operations the free map and the inodes agree: a block is marked
      exactly when it is metadata, or a data block of exactly one file at
      exactly one position, or the indirect block of exactly one file. */
  lemma OwnershipExact(sb: Super, fs: Fs, b: nat)
    requires Quiet(sb, fs) && b < sb.size
    ensures Marked(sb, fs.disk, b) <==>
              || b < sb.datastart
              || (exists i, k :: 0 <= i < sb.ninodes && 0 <= k < |fs.slots[i]| && fs.slots[i][k] == b)
              || (exists i :: 0 <= i < sb.ninodes && fs.ind[i] == b && b != 0)
    ensures forall i, k, j, m |
              && 0 <= i < sb.ninodes && 0 <= k < |fs.slots[i]| && fs.slots[i][k] == b
              && 0 <= j < sb.ninodes && 0 <= m < |fs.slots[j]| && fs.slots[j][m] == b :: i == j && k == m
    ensures forall i, k, j |
              && 0 <= i < sb.ninodes && 0 <= k < |fs.slots[i]| && fs.slots[i][k] == b
              && 0 <= j < sb.ninodes :: fs.ind[j] != b
    ensures forall i, j ::
              0 <= i < sb.ninodes && 0 <= j < sb.ninodes && fs.ind[i] == b == fs.ind[j] && b != 0 ==> i == j
  {
    hide Marked, DinodeAt, Represents;
    assert BlockOk(sb, fs, b) && BlockOk(sb, fs, 0) && sb.datastart > 0;
    forall i, k | 0 <= i < sb.ninodes && 0 <= k < |fs.slots[i]| && fs.slots[i][k] == b
      ensures fs.owner[b] == Data(i, k)
    {
      assert FileOk(sb, fs, i);
    }
    forall i | 0 <= i < sb.ninodes && fs.ind[i] == b && b != 0 ensures fs.owner[b] == Indirect(i) {
      assert FileOk(sb, fs, i);
    }
    assert fs.owner[b] != Loose;
  }
}
