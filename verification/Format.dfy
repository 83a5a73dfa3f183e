/** The file system that src/mkfs.c lays out. */
module Format {
  import opened Blocks
  import opened Common
  import opened FilesSpec
  import opened WriteSpec

  /** The bitmap that `balloc` of mkfs builds: the first `used` bits are set. */
  method Bitmap(used: nat) returns (buf: Block)
    requires used < BPB
    ensures forall c :: 0 <= c < BPB ==> (BitAt(buf, c) <==> c < used)
  {
    hide BitAt, PutByteBit;
    buf := Zeroes();
    forall c | 0 <= c < BPB ensures !BitAt(buf, c) {
      ZeroBit(c);
    }
    for i := 0 to used
      invariant forall c :: 0 <= c < BPB ==> (BitAt(buf, c) <==> c < i)
    {
      ghost var was := buf;
      buf := buf[i / 8 := PutByteBit(buf[i / 8], i % 8, true)];
      assert buf == PutBitAt(was, i, true);
      forall c | 0 <= c < BPB ensures BitAt(buf, c) <==> c < i + 1 {
        BitAtOfPut(was, i, true, c);
      }
    }
  }

  lemma ZeroBit(c: nat)
    requires c < BPB
    ensures !BitAt(Zeroes(), c)
  {
    NoBit(c % 8);
  }

  lemma {:induction false} NoBit(k: nat)
    ensures !Bit(0, k)
  {
    if k > 0 {
      NoBit(k - 1);
    }
  }

  /** An inode that is not in use. */
  function FreeInode(): Dinode { Dinode(0, 0, 0, 0, 0, seq(NDIRECT + 1, _ => 0)) }

  lemma ZeroInode(slot: nat)
    requires slot < IPB
    ensures ReadDinode(Zeroes(), slot) == FreeInode()
  {
    hide Word, Zeroes;
    forall i | 0 <= i < WORDS ensures Word(Zeroes(), i) == 0 {
      ZeroWords(i);
    }
    var ws := Words(Zeroes(), DINODEWORDS * slot, DINODEWORDS);
    assert ws[3..] == seq(NDIRECT + 1, _ => 0);
  }

  ghost function EmptyFs(sb: Super, d: Disk): Fs
  {
    Fs(d, seq(sb.ninodes, _ => FreeInode()), seq(sb.ninodes, _ => []), seq(sb.ninodes, _ => 0),
       seq(sb.size, b => if b < sb.datastart then Meta else Free))
  }

  /** mkfs before it adds any file: zeroes, the superblock and the bitmap of
      the metadata. Every inode is free and so is every data block. */
  method FormatDisk(sb: Super, super: Block) returns (d: Disk)
    requires SuperOk(sb) && sb.datastart < BPB
    ensures |d| == sb.size && d[1] == super && Quiet(sb, EmptyFs(sb, d))
    ensures FreeBlocks(EmptyFs(sb, d).owner) == sb.size - sb.datastart
  {
    hide BitAt, ReadDinode;
    d := seq(sb.size, _ => Zeroes());
    d := d[1 := super];
    var buf := Bitmap(sb.datastart);
    d := d[sb.bmapstart := buf];
    FormatQuiet(sb, d, buf);
  }

  lemma FormatBlock(sb: Super, d: Disk, buf: Block, b: nat)
    requires SuperOk(sb) && sb.datastart < BPB && |d| == sb.size && d[sb.bmapstart] == buf && b < sb.size
    requires forall c :: sb.inodestart <= c < sb.size && c != sb.bmapstart ==> d[c] == Zeroes()
    requires forall c :: 0 <= c < BPB ==> (BitAt(buf, c) <==> c < sb.datastart)
    ensures BlockOk(sb, EmptyFs(sb, d), b)
  {
    hide BitAt, Zeroes, Roomy;
    BitmapRange(sb, b);
    ZeroBit(b % BPB);
    if b < BPB {
      assert b / BPB == 0 && b % BPB == b;
    }
  }

  lemma FormatQuiet(sb: Super, d: Disk, buf: Block)
    requires SuperOk(sb) && sb.datastart < BPB && |d| == sb.size && d[sb.bmapstart] == buf
    requires forall c :: sb.inodestart <= c < sb.size && c != sb.bmapstart ==> d[c] == Zeroes()
    requires forall c :: 0 <= c < BPB ==> (BitAt(buf, c) <==> c < sb.datastart)
    ensures Quiet(sb, EmptyFs(sb, d)) && FreeBlocks(EmptyFs(sb, d).owner) == sb.size - sb.datastart
  {
    hide BitAt, ReadDinode, Zeroes, BlockOk, Marked, Roomy, Iblock, Bblock;
    var fs := EmptyFs(sb, d);
    forall b | 0 <= b < sb.size ensures BlockOk(sb, fs, b) {
      FormatBlock(sb, d, buf, b);
    }
    forall i | 0 <= i < sb.ninodes ensures DinodeAt(sb, d, i) == fs.ino[i] {
      BlockRanges(sb, i, 0);
      ZeroInode(i % IPB);
    }
    FreeTail(sb.size, sb.datastart, fs.owner);
  }

  lemma {:induction false} FreeTail(n: nat, m: nat, owner: seq<Owner>)
    requires m <= n == |owner| && forall b :: 0 <= b < n ==> (owner[b] == Free <==> b >= m)
    ensures FreeBlocks(owner) == n - m
  {
    if n > m {
      FreeTail(n - 1, m, owner[..n - 1]);
    } else {
      FreeBlocksNone(owner);
    }
  }

  /** The size mkfs gives the root directory in the end. */
  function RootSize(size: nat): (r: nat)
    ensures r % 512 == 0 && size < r <= size + 512
  {
    (size / BSIZE + 1) * BSIZE
  }

  lemma RootBlocks(size: nat)
    ensures Ceil(RootSize(size)) == size / BSIZE + 1
    ensures Ceil(size) == (if size % BSIZE == 0 then size / BSIZE else size / BSIZE + 1)
  {
    assert size == size / BSIZE * BSIZE + size % BSIZE;
  }

  /** Rounding up the size of the root directory leaves a consistent file
      system if and only if its entries did not fill their last block. */
  lemma RootSizeExact(sb: Super, fs: Fs, i: nat)
    requires Quiet(sb, fs) && i < sb.ninodes && RootSize(fs.ino[i].size) < UINT
    ensures DinodeOk(Resized(fs, i, RootSize(fs.ino[i].size)).ino[i])
    ensures Quiet(sb, WriteBack(sb, Resized(fs, i, RootSize(fs.ino[i].size)), i)) <==> fs.ino[i].size % BSIZE != 0
  {
    hide BlockOk, DinodeAt, Represents, FileOk, WriteDinode, Roomy, RootSize, Ceil;
    var size := RootSize(fs.ino[i].size);
    RootBlocks(fs.ino[i].size);
    assert FsInv(sb, fs, {}, {i});
    ResizedInv(sb, fs, i, size, {i});
    var gs := Resized(fs, i, size);
    WriteBackInv(sb, gs, i, {}, {i});
    assert {i} - {i} == {};
    var ws := WriteBack(sb, gs, i);
    assert Snug(fs, i);
    forall j | 0 <= j < sb.ninodes && j != i ensures Snug(ws, j) {
      assert Snug(fs, j);
    }
    assert Snug(ws, i) <==> fs.ino[i].size % BSIZE != 0;
  }
}
