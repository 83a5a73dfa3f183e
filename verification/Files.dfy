/** Block allocation and inode contents of src/fs.c, over the contents that
    `bread` returns and `log_write` stores. */
module Files {
  import opened Blocks
  import opened Common
  import opened FilesSpec
  import opened WriteSpec
  import opened TruncSpec
  import opened TxnSpec
  import LogSpec
  import OnDisk

  const T_DEV: nat := 3

  datatype ReadResult = ReadError | ReadDevice | Bytes(data: seq<Byte>)
  datatype MapResult = Mapped(addr: nat) | NoBlock | OutOfRange
  datatype WriteResult = WriteError | WriteDevice | Wrote(n: nat) | OutOfBlocks

  /** The bit `balloc` and `bfree` test is the mark of block b + bi. */
  lemma MarkBit(sb: Super, disk: Disk, b: nat, bi: nat)
    requires SuperOk(sb) && |disk| == sb.size && b % BPB == 0 && bi < BPB && b + bi < sb.size
    ensures Bblock(sb, b) < sb.size && Bblock(sb, b + bi) == Bblock(sb, b)
    ensures Marked(sb, disk, b + bi) <==> Bit(disk[Bblock(sb, b)][bi / 8], bi % 8)
  {
    hide Bit, Roomy;
    BitmapRange(sb, b);
    assert b == b / BPB * BPB;
    assert (b / BPB * BPB + bi) / BPB == b / BPB;
    assert (b + bi) % BPB == bi;
  }

  /** The in-memory copy of an inode. */
  class Inode {
    const inum: nat
    var typ: nat
    var major: nat
    var minor: nat
    var nlink: nat
    var size: nat
    const addrs: array<nat>

    constructor (inum: nat)
      ensures this.inum == inum && fresh(addrs) && addrs.Length == NDIRECT + 1
    {
      this.inum := inum;
      typ, major, minor, nlink, size := 0, 0, 0, 0, 0;
      addrs := new nat[NDIRECT + 1](i => 0);
    }

    ghost function Value(): Dinode
      reads this, addrs
    {
      Dinode(typ, major, minor, nlink, size, addrs[..])
    }
  }

  class FileSystem {
    const sb: Super
    var disk: Disk              // what bread returns for each block
    var logged: set<nat>        // blocks given to log_write in this transaction
    ghost var fs: Fs
    ghost const base: Disk      // the disk at boot
    ghost var txns: seq<Txn>    // the transactions that have ended since
    ghost var start: Disk       // the disk after these
    ghost var trace: Txn        // what has been logged since

    constructor (sb: Super, image: Disk, ghost fs: Fs)
      requires fs.disk == image && Quiet(sb, fs)
      ensures Valid() && this.sb == sb && base == disk == image && this.fs == fs && txns == [] && trace == []
    {
      TracedStart(sb, image);
      HistoryStart(sb, fs);
      hide Quiet, Traced, History;
      this.sb, disk, logged, this.fs, base, txns, start, trace := sb, image, {}, fs, image, [], image, [];
    }

    /** What has been logged is on the disk, in transactions. */
    ghost predicate Logging()
      reads this
    {
      Traced(sb, start, disk, trace, logged) && History(sb, base, txns, start)
    }

    /** The invariant inside an operation (see FsInv). */
    ghost predicate Inside(busy: set<nat>, stale: set<nat>)
      reads this
    {
      fs.disk == disk && FsInv(sb, fs, busy, stale) && Logging()
    }

    /** The invariant between operations. */
    ghost predicate Valid()
      reads this
    {
      fs.disk == disk && Quiet(sb, fs) && Logging()
    }

    /** ip is the current copy of its inode. */
    ghost predicate Current(ip: Inode)
      reads this, ip, ip.addrs
    {
      ip.inum < |fs.ino| && fs.ino[ip.inum] == ip.Value()
    }

    /** `end_op`: what was logged since the last one becomes a transaction. */
    method EndOp()
      requires Valid()
      modifies this`logged, this`start, this`trace, this`txns
      ensures Valid() && txns == old(txns) + [old(trace)] && start == disk && trace == []
    {
      TracedStart(sb, disk);
      HistoryNext(sb, base, txns, start, fs, trace, logged);
      hide Quiet, Traced, History;
      txns := txns + [trace];
      logged := {};
      start, trace := disk, [];
    }

    /** `log_write` of block b with these contents. */
    method LogWrite(b: nat, data: Block)
      requires sb.inodestart <= b < |disk| && Traced(sb, start, disk, trace, logged)
      modifies this`disk, this`logged, this`trace
      ensures disk == old(disk)[b := data] && logged == old(logged) + {b}
      ensures trace == old(trace) + [LogSpec.Write(b, data)] && Traced(sb, start, disk, trace, logged)
    {
      TracedWrite(sb, start, disk, trace, logged, b, data);
      disk := disk[b := data];
      logged := logged + {b};
      trace := trace + [LogSpec.Write(b, data)];
    }

    /** The search of `balloc`: the first block not marked in the free map. */
    method FindFree() returns (r: Option<nat>)
      requires SuperOk(sb) && |disk| == sb.size
      ensures r.None? ==> forall c :: 0 <= c < sb.size ==> Marked(sb, disk, c)
      ensures r.Some? ==> r.value < sb.size && !Marked(sb, disk, r.value)
                          && forall c :: 0 <= c < r.value ==> Marked(sb, disk, c)
    {
      hide Marked, Bit, Roomy, Traced, History, FreeBlocks, Paid;
      var b := 0;
      while b < sb.size
        invariant b % BPB == 0
        invariant forall c :: 0 <= c < b && c < sb.size ==> Marked(sb, disk, c)
      {
        MarkBit(sb, disk, b, 0);
        var bp := disk[Bblock(sb, b)];
        var bi := 0;
        while bi < BPB && b + bi < sb.size
          invariant 0 <= bi <= BPB
          invariant forall c :: 0 <= c < b + bi && c < sb.size ==> Marked(sb, disk, c)
        {
          MarkBit(sb, disk, b, bi);
          if !Bit(bp[bi / 8], bi % 8) {
            return Some(b + bi);
          }
          bi := bi + 1;
        }
        b := b + BPB;
      }
      return None;
    }

    /** `balloc`: a zeroed block that nothing owned; None is the panic "out of
        blocks", which happens only when every block is in use. */
    method Balloc(ghost busy: set<nat>, ghost stale: set<nat>) returns (r: Option<nat>)
      requires Inside(busy, stale)
      modifies this`disk, this`logged, this`trace, this`fs
      ensures r.None? <==> FreeBlocks(old(fs).owner) == 0
      ensures r.None? ==> unchanged(this)
      ensures r.Some? ==>
                && Inside(busy, stale) && sb.datastart <= r.value < sb.size
                && old(fs).owner[r.value] == Free && (forall c :: 0 <= c < r.value ==> old(fs).owner[c] != Free)
                && fs == Allocate(sb, old(fs), r.value)
                && logged == old(logged) + {Bblock(sb, r.value), r.value}
                && forall c :: sb.datastart <= c < sb.size && c != r.value ==> disk[c] == old(disk)[c]
    {
      hide Marked, Mark, FileOk, DinodeAt, Zeroes, Roomy, Traced, History, FreeBlocks, Paid;
      r := FindFree();
      if r.None? {
        forall c | 0 <= c < sb.size ensures fs.owner[c] != Free {
          BlockFacts(sb, fs, c);
        }
        FreeBlocksNone(fs.owner);
        return;
      }
      var b := r.value;
      BlockFacts(sb, fs, b);
      forall c | 0 <= c < b ensures fs.owner[c] != Free {
        BlockFacts(sb, fs, c);
      }
      FreeBlocksNone(fs.owner);
      AllocateInv(sb, fs, b, busy, stale);
      SetMark(b, true);
      LogWrite(b, Zeroes());
      fs := Allocate(sb, fs, b);
    }

    /** Sets or clears the mark of block b in the free map. */
    method SetMark(b: nat, on: bool)
      requires SuperOk(sb) && |disk| == sb.size && b < sb.size && Traced(sb, start, disk, trace, logged)
      modifies this`disk, this`logged, this`trace
      ensures disk == Mark(sb, old(disk), b, on) && logged == old(logged) + {Bblock(sb, b)}
      ensures Traced(sb, start, disk, trace, logged)
    {
      hide Roomy, PutByteBit, Traced, History, FreeBlocks, Paid;
      BitmapRange(sb, b);
      var bp := disk[Bblock(sb, b)];
      var bi := b % BPB;
      bp := bp[bi / 8 := PutByteBit(bp[bi / 8], bi % 8, on)];
      LogWrite(Bblock(sb, b), bp);
    }

    /** `bfree`; true is the panic "freeing free block". */
    method Bfree(b: nat, ghost busy: set<nat>, ghost stale: set<nat>) returns (panicked: bool)
      requires Inside(busy, stale) && b < sb.size
      modifies this`disk, this`logged, this`trace, this`fs
      ensures panicked <==> old(fs).owner[b] == Free
      ensures panicked ==> unchanged(this)
      ensures !panicked ==>
                && fs == Release(sb, old(fs), b) && fs.disk == disk
                && (Inside(busy, stale) <==> Disposable(old(fs).owner[b], busy))
                && logged == old(logged) + {Bblock(sb, b)}
    {
      hide Mark, Marked, FileOk, DinodeAt, Bit, BlockOk, Roomy, Traced, History;
      var bi := b % BPB;
      MarkBit(sb, disk, b - bi, bi);
      BlockFacts(sb, fs, b);
      if !Bit(disk[Bblock(sb, b)][bi / 8], bi % 8) {
        return true;
      }
      if Disposable(fs.owner[b], busy) {
        ReleaseInv(sb, fs, b, busy, stale);
      } else {
        ReleaseBreaks(sb, fs, b, busy, stale);
      }
      SetMark(b, false);
      fs := Release(sb, fs, b);
      return false;
    }

    /** `iupdate`. */
    method Iupdate(ip: Inode, ghost busy: set<nat>, ghost stale: set<nat>)
      requires Inside(busy, stale) && Current(ip) && ip.inum < sb.ninodes && DinodeOk(ip.Value())
      modifies this`disk, this`logged, this`trace, this`fs
      ensures Inside(busy, stale - {ip.inum}) && Current(ip)
      ensures fs == WriteBack(sb, old(fs), ip.inum)
      ensures logged == old(logged) + {Iblock(sb, ip.inum)}
      ensures sb.inodestart + ip.inum / 8 < |disk|
      ensures OnDisk.Spells(disk[sb.inodestart + ip.inum / 8], 64 * (ip.inum % 8), ip.Value())
      ensures forall c :: sb.datastart <= c < sb.size ==> disk[c] == old(disk)[c]
    {
      hide FileOk, DinodeAt, BlockOk, WriteDinode, Roomy;
      hide Traced, History, FreeBlocks, Paid, OnDisk.Spells;
      WriteBackInv(sb, fs, ip.inum, busy, stale);
      var x := Iblock(sb, ip.inum);
      BlockRanges(sb, ip.inum, 0);
      var d := Dinode(ip.typ, ip.major, ip.minor, ip.nlink, ip.size, ip.addrs[..]);
      LogWrite(x, WriteDinode(disk[x], ip.inum % IPB, d));
      fs := WriteBack(sb, fs, ip.inum);
      OnDisk.InodeLayout(sb, disk, ip.inum);
      assert DinodeAt(sb, fs.disk, ip.inum) == fs.ino[ip.inum];
    }

    /** The disk read of `ilock`; false is the panic "no type". */
    method Ilock(ip: Inode) returns (ok: bool)
      requires Valid() && ip.inum < sb.ninodes && ip.addrs.Length == NDIRECT + 1
      modifies ip, ip.addrs
      ensures Current(ip) && (ok <==> fs.ino[ip.inum].typ != 0)
      ensures sb.inodestart + ip.inum / 8 < |disk|
      ensures OnDisk.Spells(disk[sb.inodestart + ip.inum / 8], 64 * (ip.inum % 8), ip.Value())
    {
      hide FileOk, BlockOk, Roomy, Iblock, ReadDinode, Snug, Traced, History, FreeBlocks, Paid, OnDisk.Spells;
      BlockRanges(sb, ip.inum, 0);
      OnDisk.InodeLayout(sb, disk, ip.inum);
      var d := ReadDinode(disk[Iblock(sb, ip.inum)], ip.inum % IPB);
      ip.typ, ip.major, ip.minor, ip.nlink, ip.size := d.typ, d.major, d.minor, d.nlink, d.size;
      forall k | 0 <= k < NDIRECT + 1 {
        ip.addrs[k] := d.addrs[k];
      }
      assert ip.addrs[..] == d.addrs;
      assert DinodeAt(sb, fs.disk, ip.inum) == fs.ino[ip.inum];
      ok := ip.typ != 0;
    }

    /** `bmap`: the address of block bn of the file, allocated if bn is the
        first block past the end. NoBlock is the panic of `balloc`, OutOfRange
        its own. */
    method Bmap(ip: Inode, bn: nat, ghost stale: set<nat>) returns (r: MapResult)
      requires Inside({}, stale) && Current(ip) && ip.inum < sb.ninodes
      requires bn < MAXFILE ==> bn <= |fs.slots[ip.inum]|
      modifies this`disk, this`logged, this`trace, this`fs, ip.addrs
      ensures r.OutOfRange? <==> bn >= MAXFILE
      ensures r.NoBlock? <==> bn < MAXFILE && FreeBlocks(old(fs).owner) < MapNeed(old(fs), ip.inum, bn)
      ensures r.OutOfRange? || bn < |old(fs).slots[ip.inum]| ==> unchanged(this)
      ensures r.Mapped? ==>
                && Inside({}, stale + {ip.inum}) && Current(ip)
                && Grown(sb, old(fs), fs, ip.inum) && Paid(old(fs), fs, ip.inum)
                && bn < |fs.slots[ip.inum]| && r.addr == fs.slots[ip.inum][bn]
                && |fs.slots[ip.inum]| == Max(|old(fs).slots[ip.inum]|, bn + 1)
                && (fs.ind[ip.inum] != 0 && old(fs).ind[ip.inum] == 0 ==> bn >= NDIRECT)
                && (old(fs).ind[ip.inum] != 0 ==> fs.ind[ip.inum] == old(fs).ind[ip.inum])
      ensures r.Mapped? ==> forall b :: b in logged ==> b in old(logged) || MapLogs(sb, fs, ip.inum, bn, b)
      ensures r.NoBlock? ==>
                Inside({}, stale + {ip.inum}) && Current(ip) && NoRoom(sb, old(fs), fs, ip.inum)
    {
      hide FsInv, Grown, FreeBlocks, Paid, Traced, History, Roomy;
      MapFacts(sb, fs, ip.inum, stale);
      if bn < NDIRECT {
        r := BmapDirect(ip, bn, stale);
      } else if bn < MAXFILE {
        var ok := EnsureIndirect(ip, bn, stale);
        if !ok {
          return NoBlock;
        }
        ghost var gs := fs;
        GrownShape(sb, old(fs), fs, ip.inum);
        r := BmapListed(ip, bn, stale + {ip.inum});
        assert stale + {ip.inum} + {ip.inum} == stale + {ip.inum};
        GrownShape(sb, gs, fs, ip.inum);
        MapDone(sb, old(fs), gs, fs, ip.inum, bn, r);
      } else {
        r := OutOfRange;
      }
    }

    method BmapDirect(ip: Inode, bn: nat, ghost stale: set<nat>) returns (r: MapResult)
      requires Inside({}, stale) && Current(ip) && ip.inum < sb.ninodes
      requires bn <= |fs.slots[ip.inum]| && bn < NDIRECT
      modifies this`disk, this`logged, this`trace, this`fs, ip.addrs
      ensures r.Mapped? || r.NoBlock?
      ensures r.NoBlock? <==> FreeBlocks(old(fs).owner) < MapNeed(old(fs), ip.inum, bn)
      ensures bn < |old(fs).slots[ip.inum]| ==> unchanged(this)
      ensures r.Mapped? ==>
                && Inside({}, stale + {ip.inum}) && Current(ip)
                && Grown(sb, old(fs), fs, ip.inum) && Paid(old(fs), fs, ip.inum)
                && bn < |fs.slots[ip.inum]| && r.addr == fs.slots[ip.inum][bn]
                && |fs.slots[ip.inum]| == Max(|old(fs).slots[ip.inum]|, bn + 1)
                && fs.ind[ip.inum] == old(fs).ind[ip.inum]
      ensures r.Mapped? ==> forall b :: b in logged ==> b in old(logged) || MapLogs(sb, fs, ip.inum, bn, b)
      ensures r.NoBlock? ==>
                Inside({}, stale + {ip.inum}) && Current(ip) && NoRoom(sb, old(fs), fs, ip.inum)
    {
      hide Marked, Mark, BlockOk, DinodeAt, Zeroes, ListsSlots, Roomy, Traced, History, FreeBlocks, Paid, Grown;
      ghost var i := ip.inum;
      SlotFacts(sb, fs, i, stale);
      StaleMore(sb, fs, i, stale);
      var addr := ip.addrs[bn];
      if addr == 0 {
        var a := Balloc({}, stale);
        if a.None? {
          return NoBlock;
        }
        GrowDirect(sb, old(fs), i, a.value, stale);
        BitmapBlock(sb, a.value);
        ip.addrs[bn] := a.value;
        fs := LinkDirect(fs, i, a.value);
        assert Current(ip);
        return Mapped(a.value);
      }
      return Mapped(addr);
    }

    /** Loads the indirect block of `bmap`, allocating it if necessary. */
    method EnsureIndirect(ip: Inode, bn: nat, ghost stale: set<nat>) returns (ok: bool)
      requires Inside({}, stale) && Current(ip) && ip.inum < sb.ninodes
      requires NDIRECT <= bn <= |fs.slots[ip.inum]| && bn < MAXFILE
      modifies this`disk, this`logged, this`trace, this`fs, ip.addrs
      ensures ok <==> FreeBlocks(old(fs).owner) > 0 || old(fs).ind[ip.inum] != 0
      ensures bn < |old(fs).slots[ip.inum]| || !ok ==> unchanged(this)
      ensures Inside({}, stale + {ip.inum}) && Current(ip)
      ensures Grown(sb, old(fs), fs, ip.inum) && Paid(old(fs), fs, ip.inum)
      ensures fs.slots[ip.inum] == old(fs).slots[ip.inum]
      ensures ok ==> fs.ind[ip.inum] != 0
      ensures old(fs).ind[ip.inum] != 0 ==> fs == old(fs)
      ensures forall b :: b in logged ==> b in old(logged) || b == fs.ind[ip.inum] != 0 || InBitmap(sb, b)
    {
      hide Marked, Mark, BlockOk, DinodeAt, Zeroes, ListsSlots, Roomy, Traced, History, FreeBlocks, Paid, Grown;
      ghost var i := ip.inum;
      SlotFacts(sb, fs, i, stale);
      StaleMore(sb, fs, i, stale);
      if ip.addrs[NDIRECT] == 0 {
        var r := Balloc({}, stale);
        if r.None? {
          return false;
        }
        GrowIndirect(sb, old(fs), i, r.value, stale);
        BitmapBlock(sb, r.value);
        ip.addrs[NDIRECT] := r.value;
        fs := LinkIndirect(fs, i, r.value);
        assert Current(ip);
        return true;
      }
      return true;
    }

    method BmapListed(ip: Inode, bn: nat, ghost stale: set<nat>) returns (r: MapResult)
      requires Inside({}, stale) && Current(ip) && ip.inum < sb.ninodes && fs.ind[ip.inum] != 0
      requires NDIRECT <= bn <= |fs.slots[ip.inum]| && bn < MAXFILE
      modifies this`disk, this`logged, this`trace, this`fs
      ensures r.Mapped? || r.NoBlock?
      ensures r.NoBlock? <==> bn == |old(fs).slots[ip.inum]| && FreeBlocks(old(fs).owner) == 0
      ensures r.NoBlock? || bn < |old(fs).slots[ip.inum]| ==> unchanged(this)
      ensures Inside({}, stale) && Current(ip) && Grown(sb, old(fs), fs, ip.inum) && Paid(old(fs), fs, ip.inum)
      ensures r.Mapped? ==>
                && bn < |fs.slots[ip.inum]| && r.addr == fs.slots[ip.inum][bn]
                && |fs.slots[ip.inum]| == Max(|old(fs).slots[ip.inum]|, bn + 1)
                && fs.ind[ip.inum] == old(fs).ind[ip.inum]
      ensures r.Mapped? ==> forall b :: b in logged ==> b in old(logged) || MapLogs(sb, fs, ip.inum, bn, b)
    {
      hide Marked, Mark, BlockOk, DinodeAt, Zeroes, Word, PutWord, Roomy, Traced, History, FreeBlocks, Paid, Grown;
      ghost var i := ip.inum;
      SlotFacts(sb, fs, i, stale);
      GrownSelf(sb, fs, i, stale);
      var x := ip.addrs[NDIRECT];
      var addr := Word(disk[x], bn - NDIRECT);
      assert addr == At(fs.slots[i], bn);
      if addr == 0 {
        var a := Balloc({}, stale);
        if a.None? {
          return NoBlock;
        }
        GrowListed(sb, old(fs), i, a.value, stale);
        BitmapBlock(sb, a.value);
        LogWrite(x, PutWord(disk[x], bn - NDIRECT, a.value));
        fs := LinkListed(fs, i, a.value);
        return Mapped(a.value);
      }
      return Mapped(addr);
    }

    /** `readi`: the slice of the file's bytes that exists. Nothing changes. */
    method Readi(ip: Inode, off: nat, n: nat) returns (r: ReadResult)
      requires Valid() && Current(ip) && ip.inum < sb.ninodes && off < UINT && n < UINT
      modifies this`disk, this`logged, this`trace, this`fs, ip.addrs
      ensures unchanged(this) && Valid() && Current(ip)
      ensures Readable(fs, ip.inum)
      ensures r == if ip.typ == T_DEV then ReadDevice
                   else if off > ip.size || off + n >= UINT then ReadError
                   else Bytes(Content(fs, ip.inum)[off..if off + n > ip.size then ip.size else off + n])
    {
      hide Quiet, Content, Roomy, Traced, History, FreeBlocks, Paid;
      QuietReadable(sb, fs, ip.inum);
      if ip.typ == T_DEV {
        return ReadDevice;
      }
      var sum := (off + n) % UINT;
      if off > ip.size || sum < off {
        return ReadError;
      }
      var dst := ReadLoop(ip, off, if sum > ip.size then ip.size - off else n);
      return Bytes(dst);
    }

    /** The loop of `readi`. */
    method ReadLoop(ip: Inode, off: nat, n: nat) returns (dst: seq<Byte>)
      requires Valid() && Current(ip) && ip.inum < sb.ninodes && Readable(fs, ip.inum) && off + n <= ip.size
      modifies this`disk, this`logged, this`trace, this`fs, ip.addrs
      ensures unchanged(this) && Current(ip)
      ensures dst == Content(fs, ip.inum)[off..off + n]
    {
      hide Quiet, Content, Readable, Roomy, Traced, History, FreeBlocks, Paid;
      ghost var content, gs := Content(fs, ip.inum), fs;
      var tot := 0;
      dst := [];
      while tot < n
        invariant tot <= n && fs == gs && unchanged(this) && Current(ip)
        invariant dst == content[off..off + tot]
        decreases n - tot
      {
        var pos := off + tot;
        var m := if n - tot < BSIZE - pos % BSIZE then n - tot else BSIZE - pos % BSIZE;
        var chunk := ReadChunk(ip, pos, m);
        assert content[off..off + tot] + content[pos..pos + m] == content[off..off + tot + m];
        dst := dst + chunk;
        tot := tot + m;
      }
    }

    /** One round of the loop of `readi`. */
    method ReadChunk(ip: Inode, pos: nat, m: nat) returns (chunk: seq<Byte>)
      requires Valid() && Current(ip) && ip.inum < sb.ninodes && Readable(fs, ip.inum)
      requires pos + m <= ip.size && 0 < m <= BSIZE - pos % BSIZE
      modifies this`disk, this`logged, this`trace, this`fs, ip.addrs
      ensures unchanged(this) && Current(ip)
      ensures chunk == Content(fs, ip.inum)[pos..pos + m]
    {
      hide FsInv, Snug, Grown, Roomy, Traced, History, FreeBlocks, Paid;
      SlotInRange(sb, fs, ip.inum, pos);
      ContentChunk(fs, ip.inum, pos, m);
      var b := Bmap(ip, pos / BSIZE, {});
      chunk := disk[b.addr][pos % BSIZE..pos % BSIZE + m];
    }

    /** The state of `writei` when `tot` bytes of src are in place. */
    ghost predicate Writing(ip: Inode, fs0: Fs, logged0: set<nat>, off: nat, src: seq<Byte>, tot: nat)
      reads this, ip, ip.addrs
    {
      && Inside({}, {ip.inum}) && Current(ip) && ip.inum < sb.ninodes
      && Written(sb, fs0, fs, ip.inum, off, src, tot) && IndirectKept(fs0, fs, ip.inum) && Paid(fs0, fs, ip.inum)
      && LogsWithin(sb, fs, ip.inum, off / BSIZE, Ceil(off + tot), logged0, logged)
    }

    /** One round of the loop of `writei`; false is a panic of `balloc`. */
    method WriteRound(ip: Inode, ghost fs0: Fs, ghost logged0: set<nat>, off: nat, src: seq<Byte>, tot: nat, m: nat)
      returns (ok: bool)
      requires Writing(ip, fs0, logged0, off, src, tot) && Quiet(sb, fs0)
      requires tot + m <= |src| && 0 < m <= BSIZE - (off + tot) % BSIZE && off + tot < MAXFILE * BSIZE
      modifies this`disk, this`logged, this`trace, this`fs, ip.addrs
      ensures ok ==> Writing(ip, fs0, logged0, off, src, tot + m)
      ensures !ok ==> Inside({}, {ip.inum}) && Current(ip) && Starved(sb, fs0, fs, ip.inum, off, src)
    {
      hide FsInv, Quiet, Written, Grown, Overwrite, LogsWithin, IndirectKept, MapLogs, Roomy;
      hide Traced, History, FreeBlocks, Paid, Starved, NoRoom;
      ghost var i, ms, logged1 := ip.inum, fs, logged;
      var bn := (off + tot) / BSIZE;
      SlotsWritten(sb, fs0, fs, i, off, src, tot, m);
      var r := Bmap(ip, bn, {i});
      assert {i} + {i} == {i};
      if r.NoBlock? {
        StarvedRound(sb, fs0, ms, fs, i, off, src, tot, m);
        return false;
      }
      GrownShape(sb, ms, fs, i);
      RoundDone(sb, fs0, ms, fs, i, off, src, tot, m, logged0, logged1, logged);
      PaidTrans(fs0, ms, fs, i);
      DataBlock(sb, fs, i, bn, {i});
      PaidSame(fs0, fs, PutChunk(fs, i, off + tot, src[tot..tot + m]), i);
      fs := PutChunk(fs, i, off + tot, src[tot..tot + m]);
      LogWrite(r.addr, Overwrite(disk[r.addr], (off + tot) % BSIZE, src[tot..tot + m]));
      assert off + tot + m == off + (tot + m);
      return true;
    }

    /** The loop of `writei`. */
    method WriteLoop(ip: Inode, off: nat, src: seq<Byte>) returns (ok: bool)
      requires Valid() && Current(ip) && ip.inum < sb.ninodes
      requires off <= ip.size && off + |src| <= MAXFILE * BSIZE
      modifies this`disk, this`logged, this`trace, this`fs, ip.addrs
      ensures ok ==> Writing(ip, old(fs), old(logged), off, src, |src|)
      ensures !ok ==> Inside({}, {ip.inum}) && Current(ip) && Starved(sb, old(fs), fs, ip.inum, off, src)
    {
      hide FsInv, Quiet, Written, LogsWithin, IndirectKept, Roomy, Traced, History, FreeBlocks, Paid, Starved;
      ghost var fs0, logged0 := fs, logged;
      WritingStart(sb, fs, ip.inum, off, src, logged);
      var tot := 0;
      while tot < |src|
        invariant tot <= |src| && Writing(ip, fs0, logged0, off, src, tot)
        decreases |src| - tot
      {
        var at := (off + tot) % BSIZE;
        var m := if |src| - tot < BSIZE - at then |src| - tot else BSIZE - at;
        ok := WriteRound(ip, fs0, logged0, off, src, tot, m);
        if !ok {
          return;
        }
        tot := tot + m;
      }
      return true;
    }

    /** `writei` of all of src at off. A rejected call changes nothing; a
        completed one splices src into the bytes of the file, leaves every
        other file alone, and leaves the inode on disk current. */
    method Writei(ip: Inode, src: seq<Byte>, off: nat) returns (r: WriteResult)
      requires Valid() && Current(ip) && ip.inum < sb.ninodes && off < UINT && |src| < UINT
      modifies this`disk, this`logged, this`trace, this`fs, ip, ip.addrs
      ensures r == WriteDevice <==> old(ip.typ) == T_DEV
      ensures r == WriteError <==> old(ip.typ) != T_DEV && (off > old(ip.size) || off + |src| > MAXFILE * BSIZE)
      ensures r == WriteDevice || r == WriteError ==>
                unchanged(this) && ip.Value() == old(ip.Value())
      ensures r.Wrote? ==>
                && r.n == |src| && Valid() && Current(ip)
                && Readable(old(fs), ip.inum) && Readable(fs, ip.inum)
                && Content(fs, ip.inum) == Spliced(Content(old(fs), ip.inum), off, src)
                && SameOthers(sb, old(fs), fs, ip.inum)
                && ip.typ == old(ip.typ) && ip.major == old(ip.major) && ip.minor == old(ip.minor)
                && ip.nlink == old(ip.nlink) && ip.size == Max(old(ip.size), off + |src|)
                && LogsWithin(sb, fs, ip.inum, off / BSIZE, Ceil(off + |src|), old(logged), logged)
      ensures r.Wrote? ==>
                FreeBlocks(fs.owner) + BlocksFor(ip.size) == FreeBlocks(old(fs).owner) + BlocksFor(old(ip.size))
      ensures r.OutOfBlocks? <==>
                && old(ip.typ) != T_DEV && off <= old(ip.size) && off + |src| <= MAXFILE * BSIZE
                && FreeBlocks(old(fs).owner) + BlocksFor(old(ip.size)) < BlocksFor(off + |src|)
      ensures r.OutOfBlocks? ==>
                Inside({}, {ip.inum}) && Current(ip) && Starved(sb, old(fs), fs, ip.inum, off, src)
    {
      hide Quiet, FsInv, Written, LogsWithin, IndirectKept, Content, Readable, SameOthers, WriteDinode, Roomy;
      hide Spliced, BlocksFor, Starved;
      hide Traced, History, FreeBlocks, Paid;
      if ip.typ == T_DEV {
        return WriteDevice;
      }
      var sum := (off + |src|) % UINT;
      if off > ip.size || sum < off {
        SizeLimit(sb, fs, ip.inum);
        return WriteError;
      }
      if sum > MAXFILE * BSIZE {
        return WriteError;
      }
      ghost var i, fs0 := ip.inum, fs;
      var ok := WriteLoop(ip, off, src);
      if !ok {
        StarvedFacts(sb, fs0, fs, i, off, src);
        return OutOfBlocks;
      }
      ghost var gs := fs;
      if |src| > 0 && off + |src| > ip.size {
        ExtendDone(sb, fs0, fs, i, off, src, old(logged), logged);
        fs := Resized(fs, i, off + |src|);
        ip.size := off + |src|;
        Iupdate(ip, {}, {i});
      } else {
        InsideDone(sb, fs0, fs, i, off, src);
      }
      WriteCounted(sb, fs0, gs, fs, i, off, src);
      return Wrote(|src|);
    }

    /** The first m data blocks of inode i, and its indirect block if `ind`,
        have been given back. */
    ghost predicate Cutting(fs0: Fs, i: nat, m: nat, ind: bool)
      reads this
    {
      fs.disk == disk && Truncating(sb, fs0, fs, i, m, ind) && Logging()
    }

    /** Frees the m-th block of the inode being truncated, if there is one. */
    method FreeSlot(addr: nat, ghost fs0: Fs, ghost i: nat, ghost m: nat)
      requires Quiet(sb, fs0) && Cutting(fs0, i, m, false)
      requires addr == At(fs0.slots[i], m)
      modifies this`disk, this`logged, this`trace, this`fs
      ensures Cutting(fs0, i, m + 1, false)
    {
      hide FsInv, Freed, Snug, ListsSlots, Roomy, Traced, History, FreeBlocks, Paid;
      SlotFacts(sb, fs0, i, {});
      if addr != 0 {
        TruncFree(sb, fs0, fs, i, m, false);
        var panicked := Bfree(addr, {i}, {i});
        assert !panicked;
      } else {
        TruncSkip(sb, fs0, fs, i, m, false);
      }
    }

    /** The second half of `itrunc`: the blocks listed in the indirect block,
        then the indirect block itself. */
    method FreeIndirect(x: nat, ghost fs0: Fs, ghost i: nat)
      requires Quiet(sb, fs0) && Cutting(fs0, i, NDIRECT, false)
      requires x == fs0.ind[i] != 0
      modifies this`disk, this`logged, this`trace, this`fs
      ensures Cutting(fs0, i, MAXFILE, true)
    {
      hide FsInv, Freed, Snug, Word, Roomy, Traced, History, FreeBlocks, Paid;
      IndirectFacts(sb, fs0, i);
      var bp := disk[x];
      for j := 0 to NINDIRECT
        invariant Cutting(fs0, i, NDIRECT + j, false)
      {
        FreeSlot(Word(bp, j), fs0, i, NDIRECT + j);
      }
      TruncIndirect(sb, fs0, fs, i, MAXFILE);
      var panicked := Bfree(x, {i}, {i});
      assert !panicked;
    }

    /** `itrunc`: exactly the blocks of the inode become free, no other file
        changes, and `bfree` never meets a free block. */
    method Itrunc(ip: Inode)
      requires Valid() && Current(ip) && ip.inum < sb.ninodes
      modifies this`disk, this`logged, this`trace, this`fs, ip, ip.addrs
      ensures Valid() && Current(ip) && ip.size == 0 && ip.typ == old(ip.typ) && ip.nlink == old(ip.nlink)
      ensures ip.major == old(ip.major) && ip.minor == old(ip.minor)
      ensures fs.slots[ip.inum] == [] && fs.ind[ip.inum] == 0
      ensures forall b :: 0 <= b < sb.size ==>
                fs.owner[b] == if BelongsTo(old(fs).owner[b], ip.inum) then Free else old(fs).owner[b]
      ensures FreeBlocks(fs.owner) == FreeBlocks(old(fs).owner) + BlocksFor(old(ip.size))
      ensures SameOthers(sb, old(fs), fs, ip.inum)
    {
      hide FsInv, Freed, Snug, SameOthers, WriteDinode, Roomy;
      hide Traced, History, FreeBlocks, Paid;
      ghost var i, fs0 := ip.inum, fs;
      TruncStart(sb, fs, i);
      QuietUses(sb, fs, i);
      InodeFacts(sb, fs, i);
      fs := Detach(fs, i);
      for k := 0 to NDIRECT
        invariant Cutting(fs0, i, k, false)
        invariant ip.typ == old(ip.typ) && ip.nlink == old(ip.nlink)
        invariant ip.major == old(ip.major) && ip.minor == old(ip.minor)
        invariant ip.addrs[NDIRECT] == fs0.ind[i]
        invariant forall j :: 0 <= j < NDIRECT ==> ip.addrs[j] == if j < k then 0 else At(fs0.slots[i], j)
      {
        FreeSlot(ip.addrs[k], fs0, i, k);
        if ip.addrs[k] != 0 {
          ip.addrs[k] := 0;
        }
      }
      if ip.addrs[NDIRECT] != 0 {
        FreeIndirect(ip.addrs[NDIRECT], fs0, i);
        ip.addrs[NDIRECT] := 0;
      } else {
        TruncNoIndirect(sb, fs0, fs, i, NDIRECT);
      }
      ip.size := 0;
      TruncDone(sb, fs0, fs, i, ip.Value());
      fs := fs.(ino := fs.ino[i := ip.Value()]);
      Iupdate(ip, {}, {i});
    }
  }

  lemma IndirectFacts(sb: Super, fs0: Fs, i: nat)
    requires Quiet(sb, fs0) && i < sb.ninodes && fs0.ind[i] != 0
    ensures sb.datastart <= fs0.ind[i] < sb.size && ListsSlots(fs0.disk[fs0.ind[i]], fs0.slots[i])
  {
    hide ListsSlots, BlockOk, DinodeAt, Roomy;
    SlotFacts(sb, fs0, i, {});
  }

  lemma InodeFacts(sb: Super, fs0: Fs, i: nat)
    requires Quiet(sb, fs0) && i < sb.ninodes
    ensures DinodeOk(fs0.ino[i]) && |fs0.ino[i].addrs| == NDIRECT + 1 && fs0.ino[i].addrs[NDIRECT] == fs0.ind[i]
    ensures forall k :: 0 <= k < NDIRECT ==> fs0.ino[i].addrs[k] == At(fs0.slots[i], k)
  {
    hide ListsSlots, BlockOk, Roomy;
    SlotFacts(sb, fs0, i, {});
    QuietFile(sb, fs0, i);
  }

  lemma SizeLimit(sb: Super, fs: Fs, i: nat)
    requires Quiet(sb, fs) && i < sb.ninodes
    ensures fs.ino[i].size <= MAXFILE * BSIZE < UINT
  {
    hide BlockOk, DinodeAt, ListsSlots, Roomy;
    assert FileOk(sb, fs, i) && Snug(fs, i);
    CeilBound(fs.ino[i].size);
  }

  lemma WritingStart(sb: Super, fs: Fs, i: nat, off: nat, src: seq<Byte>, logged: set<nat>)
    requires Quiet(sb, fs) && i < sb.ninodes && off <= fs.ino[i].size
    ensures Written(sb, fs, fs, i, off, src, 0) && IndirectKept(fs, fs, i) && FsInv(sb, fs, {}, {i})
    ensures LogsWithin(sb, fs, i, off / BSIZE, Ceil(off + 0), logged, logged) && Paid(fs, fs, i)
  {
    hide BlockOk, DinodeAt, FileOk, Roomy;
    WrittenStart(sb, fs, i, off, src);
    assert Snug(fs, i);
  }

  /** The write went past the old end: size and disk copy are brought up. */
  lemma ExtendDone(sb: Super, fs: Fs, gs: Fs, i: nat, off: nat, src: seq<Byte>, before: set<nat>, logged: set<nat>)
    requires Quiet(sb, fs) && Written(sb, fs, gs, i, off, src, |src|) && FsInv(sb, gs, {}, {i})
    requires IndirectKept(fs, gs, i) && off <= fs.ino[i].size < off + |src| < UINT
    requires LogsWithin(sb, gs, i, off / BSIZE, Ceil(off + |src|), before, logged)
    ensures i < |gs.ino| && Shaped(sb, gs) && i < sb.ninodes
    ensures var hs := Resized(gs, i, off + |src|);
            && FsInv(sb, hs, {}, {i}) && DinodeOk(hs.ino[i])
            && var ws := WriteBack(sb, hs, i);
               && Quiet(sb, ws) && SameOthers(sb, fs, ws, i)
               && Readable(fs, i) && Readable(ws, i) && Content(ws, i) == Spliced(Content(fs, i), off, src)
               && LogsWithin(sb, ws, i, off / BSIZE, Ceil(off + |src|), before, logged + {Iblock(sb, i)})
  {
    hide Quiet, Written, IndirectKept, Content, SameOthers, WriteDinode, FsInv, Spliced, Roomy;
    WrittenShape(sb, fs, gs, i, off, src);
    ExtendQuiet(sb, fs, gs, i, off, src);
    var hs := Resized(gs, i, off + |src|);
    var ws := WriteBack(sb, hs, i);
    QuietReadable(sb, fs, i);
    WrittenContent(sb, fs, gs, i, off, src, off + |src|);
    WriteBackContent(sb, hs, i, {i});
    forall b | b in logged + {Iblock(sb, i)} && b !in before
      ensures WriteLogs(sb, ws, i, off / BSIZE, Ceil(off + |src|), b)
    {
      if b in logged {
        assert WriteLogs(sb, gs, i, off / BSIZE, Ceil(off + |src|), b);
      }
    }
  }

  lemma WrittenShape(sb: Super, fs: Fs, gs: Fs, i: nat, off: nat, src: seq<Byte>)
    requires Written(sb, fs, gs, i, off, src, |src|)
    ensures Shaped(sb, fs) && Shaped(sb, gs) && i < sb.ninodes
  {
  }

  lemma WriteBackContent(sb: Super, hs: Fs, i: nat, stale: set<nat>)
    requires FsInv(sb, hs, {}, stale) && i < sb.ninodes && DinodeOk(hs.ino[i]) && Readable(hs, i)
    ensures Readable(WriteBack(sb, hs, i), i) && Content(WriteBack(sb, hs, i), i) == Content(hs, i)
  {
    hide BlockOk, DinodeAt, FileOk, WriteDinode, Roomy;
    WriteBackInv(sb, hs, i, {}, stale);
    OwnedFacts(sb, hs, i);
    assert SameFile(hs, WriteBack(sb, hs, i), i);
    SameContent(hs, WriteBack(sb, hs, i), i);
  }

  /** The write stayed inside the file: nothing was allocated. */
  lemma InsideDone(sb: Super, fs: Fs, gs: Fs, i: nat, off: nat, src: seq<Byte>)
    requires Quiet(sb, fs) && Written(sb, fs, gs, i, off, src, |src|) && FsInv(sb, gs, {}, {i})
    requires IndirectKept(fs, gs, i) && off + |src| <= fs.ino[i].size
    ensures i < |gs.ino| && i < |fs.ino| && gs.ino[i] == fs.ino[i] && Quiet(sb, gs) && SameOthers(sb, fs, gs, i)
    ensures Readable(fs, i) && Readable(gs, i) && Content(gs, i) == Spliced(Content(fs, i), off, src)
  {
    hide Quiet, IndirectKept, Content, SameOthers, FsInv, Spliced, SameInodeBlocks, Expected, ByteAt, Roomy;
    InsideQuiet(sb, fs, gs, i, off, src);
    QuietReadable(sb, fs, i);
    WrittenContent(sb, fs, gs, i, off, src, fs.ino[i].size);
    assert Resized(gs, i, fs.ino[i].size) == gs;
  }

  lemma GrownShape(sb: Super, fs: Fs, gs: Fs, i: nat)
    requires Grown(sb, fs, gs, i)
    ensures Shaped(sb, fs) && Shaped(sb, gs) && i < sb.ninodes
  {
  }

  lemma SlotsWritten(sb: Super, fs: Fs, gs: Fs, i: nat, off: nat, src: seq<Byte>, done: nat, m: nat)
    requires Written(sb, fs, gs, i, off, src, done) && 0 < m <= BSIZE - (off + done) % BSIZE
    requires off + done < MAXFILE * BSIZE
    ensures i < |gs.slots| && (off + done) / BSIZE <= |gs.slots[i]| && (off + done) / BSIZE < MAXFILE
    ensures Shaped(sb, gs)
  {
    hide SameOthers, SameInodeBlocks, Expected, ByteAt, Roomy;
    ChunkBlocks(off + done, m);
  }

  /** Block bn of inode i is past the metadata. */
  lemma DataBlock(sb: Super, fs: Fs, i: nat, bn: nat, stale: set<nat>)
    requires FsInv(sb, fs, {}, stale) && i < sb.ninodes && bn < |fs.slots[i]|
    ensures sb.inodestart <= fs.slots[i][bn]
  {
    hide BlockOk, DinodeAt, ListsSlots, Roomy;
    SlotFacts(sb, fs, i, stale);
  }

  lemma StarvedRound(sb: Super, fs: Fs, ms: Fs, hs: Fs, i: nat, off: nat, src: seq<Byte>, done: nat, m: nat)
    requires Quiet(sb, fs) && Written(sb, fs, ms, i, off, src, done) && Paid(fs, ms, i) && NoRoom(sb, ms, hs, i)
    requires done + m <= |src| && 0 < m <= BSIZE - (off + done) % BSIZE && FsInv(sb, hs, {}, {i})
    requires FreeBlocks(ms.owner) < MapNeed(ms, i, (off + done) / BSIZE) && (off + done) / BSIZE <= |ms.slots[i]|
    ensures Starved(sb, fs, hs, i, off, src)
  {
    hide FsInv, Quiet, FreeBlocks, Written, Grown, Paid;
    ChunkBlocks(off + done, m);
    CeilMono(off + done + m, off + |src|);
    GrownShape(sb, ms, hs, i);
    WrittenGrown(sb, fs, ms, hs, i, off, src, done);
    PaidTrans(fs, ms, hs, i);
    StarvedWhen(sb, fs, hs, i, off, src, done);
  }

  /** A position inside the file lies in one of its blocks. */
  lemma SlotInRange(sb: Super, fs: Fs, i: nat, pos: nat)
    requires Quiet(sb, fs) && i < sb.ninodes && pos < fs.ino[i].size
    ensures pos / BSIZE < |fs.slots[i]| <= MAXFILE && FsInv(sb, fs, {}, {})
  {
    hide BlockOk, DinodeAt, ListsSlots, Roomy;
    assert FileOk(sb, fs, i) && Snug(fs, i);
    CeilBound(fs.ino[i].size);
  }

  lemma ContentChunk(fs: Fs, i: nat, pos: nat, m: nat)
    requires Readable(fs, i) && pos + m <= fs.ino[i].size && 0 < m <= BSIZE - pos % BSIZE
    ensures pos / BSIZE < |fs.slots[i]|
    ensures Content(fs, i)[pos..pos + m] == fs.disk[fs.slots[i][pos / BSIZE]][pos % BSIZE..pos % BSIZE + m]
  {
    assert pos == pos / BSIZE * BSIZE + pos % BSIZE;
    var got := fs.disk[fs.slots[i][pos / BSIZE]][pos % BSIZE..pos % BSIZE + m];
    forall k | 0 <= k < m ensures Content(fs, i)[pos + k] == got[k] {
      BlockOf(pos + k, pos / BSIZE);
    }
  }

  /** How many free blocks `bmap` needs for block bn of inode i. */
  function MapNeed(fs: Fs, i: nat, bn: nat): nat
    requires i < |fs.slots| && i < |fs.ind|
  {
    if bn < |fs.slots[i]| then 0 else if bn >= NDIRECT && fs.ind[i] == 0 then 2 else 1
  }

  /** `bmap` stopped half way: no block is free, and inode i has lost nothing
      and gained at most its indirect block. */
  ghost predicate NoRoom(sb: Super, fs: Fs, gs: Fs, i: nat)
  {
    Grown(sb, fs, gs, i) && Paid(fs, gs, i) && gs.slots[i] == fs.slots[i] && FreeBlocks(gs.owner) == 0
  }

  lemma MapFacts(sb: Super, fs: Fs, i: nat, stale: set<nat>)
    requires FsInv(sb, fs, {}, stale) && i < sb.ninodes
    ensures Shaped(sb, fs) && FsInv(sb, fs, {}, stale + {i}) && Grown(sb, fs, fs, i) && Paid(fs, fs, i)
    ensures |fs.slots[i]| > NDIRECT ==> fs.ind[i] != 0
  {
    hide BlockOk, DinodeAt, ListsSlots, Roomy;
    StaleMore(sb, fs, i, stale);
    SlotFacts(sb, fs, i, stale);
  }

  /** The two halves of `bmap` past the direct blocks. */
  lemma MapDone(sb: Super, fs: Fs, gs: Fs, hs: Fs, i: nat, bn: nat, r: MapResult)
    requires Grown(sb, fs, gs, i) && Grown(sb, gs, hs, i) && Paid(fs, gs, i) && Paid(gs, hs, i)
    requires gs.slots[i] == fs.slots[i] && gs.ind[i] != 0 && NDIRECT <= bn <= |fs.slots[i]|
    requires r.NoBlock? <==> bn == |gs.slots[i]| && FreeBlocks(gs.owner) == 0
    requires r.NoBlock? ==> hs == gs
    ensures Grown(sb, fs, hs, i) && Paid(fs, hs, i)
    ensures r.NoBlock? ==> NoRoom(sb, fs, hs, i)
    ensures r.NoBlock? <==> FreeBlocks(fs.owner) < MapNeed(fs, i, bn)
  {
    hide FreeBlocks;
    GrownTrans(sb, fs, gs, hs, i);
    PaidTrans(fs, gs, hs, i);
  }

  lemma StaleMore(sb: Super, fs: Fs, i: nat, stale: set<nat>)
    requires FsInv(sb, fs, {}, stale) && i < sb.ninodes
    ensures FsInv(sb, fs, {}, stale + {i}) && Grown(sb, fs, fs, i) && Paid(fs, fs, i)
  {
    hide BlockOk, DinodeAt, Roomy;
    GrownSelf(sb, fs, i, stale);
  }

  lemma GrownSelf(sb: Super, fs: Fs, i: nat, stale: set<nat>)
    requires FsInv(sb, fs, {}, stale) && i < sb.ninodes
    ensures Grown(sb, fs, fs, i) && Paid(fs, fs, i)
  {
    hide BlockOk, DinodeAt, Represents, Roomy;
    forall j | 0 <= j < sb.ninodes ensures SameFile(fs, fs, j) {
      FileFacts(sb, fs, j);
    }
    FileFacts(sb, fs, i);
  }

  /** The addresses in an inode are those of its blocks, none of them 0. */
  lemma SlotFacts(sb: Super, fs: Fs, i: nat, stale: set<nat>)
    requires FsInv(sb, fs, {}, stale) && i < sb.ninodes
    ensures |fs.ino[i].addrs| == NDIRECT + 1 && fs.ino[i].addrs[NDIRECT] == fs.ind[i]
    ensures forall k :: 0 <= k < NDIRECT ==> fs.ino[i].addrs[k] == At(fs.slots[i], k)
    ensures forall k :: 0 <= k < |fs.slots[i]| ==> 0 < sb.datastart <= fs.slots[i][k] < sb.size
    ensures fs.ind[i] != 0 ==> sb.datastart <= fs.ind[i] < sb.size && |fs.slots[i]| >= NDIRECT
                               && ListsSlots(fs.disk[fs.ind[i]], fs.slots[i])
    ensures |fs.slots[i]| > NDIRECT ==> fs.ind[i] != 0
  {
    hide BlockOk, DinodeAt, ListsSlots, Roomy;
    FileFacts(sb, fs, i);
    OwnedFacts(sb, fs, i);
  }
}
