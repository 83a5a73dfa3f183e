/** Where each field is on the disk, byte by byte: `struct dinode`, the free
    map, the indirect block and the log header. */
module OnDisk {
  import opened Blocks
  import opened Common
  import opened FilesSpec
  import opened LogSpec

  /** The number that these bytes spell, low byte first. */
  function Le(bytes: seq<Byte>): nat
  {
    if bytes == [] then 0 else bytes[0] + 256 * Le(bytes[1..])
  }

  lemma LeTwo(bytes: seq<Byte>)
    requires |bytes| == 2
    ensures Le(bytes) == bytes[0] as int + 256 * bytes[1] as int
  {
    assert Le(bytes[1..]) == bytes[1] + 256 * Le(bytes[1..][1..]);
  }

  lemma LeFour(bytes: seq<Byte>)
    requires |bytes| == 4
    ensures Le(bytes) == bytes[0] as int + 256 * (bytes[1] as int + 256 * (bytes[2] as int + 256 * bytes[3] as int))
  {
    assert bytes[1..][1..] == bytes[2..];
    LeTwo(bytes[2..]);
    assert Le(bytes[1..]) == bytes[1] + 256 * Le(bytes[2..]);
  }

  /** Words are stored low byte first. */
  lemma WordLayout(b: Block, i: nat)
    requires i < 128
    ensures Word(b, i) == Le(b[4 * i..4 * i + 4])
  {
    hide Le;
    LeFour(b[4 * i..4 * i + 4]);
  }

  /** The two halves of a word. */
  lemma HalfWords(b: Block, i: nat)
    requires i < 128
    ensures Word(b, i) % 0x1_0000 == Le(b[4 * i..4 * i + 2]) && Word(b, i) / 0x1_0000 == Le(b[4 * i + 2..4 * i + 4])
  {
    hide Le;
    LeTwo(b[4 * i..4 * i + 2]);
    LeTwo(b[4 * i + 2..4 * i + 4]);
  }

  // ---- Inodes ----

  /** The fields of `struct dinode` in the 64 bytes from `at` on: type, major,
      minor and nlink in two bytes each, size and thirteen addresses in four. */
  ghost predicate Spells(b: Block, at: nat, d: Dinode)
    requires at + 64 <= 512
  {
    && d.typ == Le(b[at..at + 2]) && d.major == Le(b[at + 2..at + 4])
    && d.minor == Le(b[at + 4..at + 6]) && d.nlink == Le(b[at + 6..at + 8])
    && d.size == Le(b[at + 8..at + 12])
    && |d.addrs| == 13 && forall k :: 0 <= k < 13 ==> d.addrs[k] == Le(b[at + 12 + 4 * k..at + 16 + 4 * k])
  }

  /** What `ilock` reads from a slot of an inode block. */
  lemma ReadLayout(b: Block, slot: nat)
    requires slot < 8
    ensures Spells(b, 64 * slot, ReadDinode(b, slot))
  {
    hide Le, Word;
    var d, at := ReadDinode(b, slot), 64 * slot;
    HalfWords(b, 16 * slot);
    HalfWords(b, 16 * slot + 1);
    WordLayout(b, 16 * slot + 2);
    forall k | 0 <= k < 13 ensures d.addrs[k] == Le(b[at + 12 + 4 * k..at + 16 + 4 * k]) {
      WordLayout(b, 16 * slot + 3 + k);
    }
  }

  /** What `iupdate` writes to a slot: the fields of the inode, and no byte
      outside the slot changes. */
  lemma WriteLayout(b: Block, slot: nat, d: Dinode)
    requires slot < 8 && DinodeOk(d)
    ensures Spells(WriteDinode(b, slot, d), 64 * slot, d)
    ensures forall j :: 0 <= j < 512 && !(64 * slot <= j < 64 * slot + 64) ==> WriteDinode(b, slot, d)[j] == b[j]
  {
    hide ReadDinode, WriteDinode, Spells;
    DinodeRoundTrip(b, slot, d, slot);
    ReadLayout(WriteDinode(b, slot, d), slot);
    WriteFrame(b, slot, d);
  }

  lemma WriteFrame(b: Block, slot: nat, d: Dinode)
    requires slot < 8 && DinodeOk(d)
    ensures forall j :: 0 <= j < 512 && !(64 * slot <= j < 64 * slot + 64) ==> WriteDinode(b, slot, d)[j] == b[j]
  {
    hide PutWords, DinodeWords;
    PutsFrame(b, 16 * slot, DinodeWords(d));
  }

  /** Storing words changes no other byte. */
  lemma {:induction false} PutsFrame(b: Block, at: nat, ws: seq<nat>)
    requires at + |ws| <= 128 && forall i :: 0 <= i < |ws| ==> ws[i] < UINT
    ensures forall j :: 0 <= j < 512 && !(4 * at <= j < 4 * (at + |ws|)) ==> PutWords(b, at, ws)[j] == b[j]
    decreases |ws|
  {
    if ws != [] {
      PutsFrame(b, at, ws[..|ws| - 1]);
    }
  }

  /** Inode i is in slot i % 8 of block inodestart + i / 8. */
  lemma InodeLayout(sb: Super, disk: Disk, i: nat)
    requires SuperOk(sb) && i < sb.ninodes && |disk| == sb.size
    ensures sb.inodestart + i / 8 < sb.bmapstart
    ensures Spells(disk[sb.inodestart + i / 8], 64 * (i % 8), DinodeAt(sb, disk, i))
  {
    hide ReadDinode, Spells;
    assert i / 8 <= sb.ninodes / 8;
    ReadLayout(disk[sb.inodestart + i / 8], i % 8);
  }

  // ---- The free map ----

  const MASKS: seq<nat> := [1, 2, 4, 8, 16, 32, 64, 128]

  lemma BitMask(x: nat, k: nat)
    requires k < 8
    ensures Bit(x, k) <==> x / MASKS[k] % 2 == 1
  {
    if k > 0 {
      BitMask(x / 2, k - 1);
      assert x / 2 / MASKS[k - 1] == x / MASKS[k];
    }
  }

  /** The mark of block b is bit b % 8 of byte b % 4096 / 8 of block
      bmapstart + b / 4096. */
  lemma MarkLayout(sb: Super, disk: Disk, b: nat)
    requires SuperOk(sb) && |disk| == sb.size && b < sb.size
    ensures sb.bmapstart + b / 4096 < sb.datastart
    ensures Marked(sb, disk, b) <==> disk[sb.bmapstart + b / 4096][b % 4096 / 8] / MASKS[b % 8] % 2 == 1
  {
    hide Bit;
    assert b / 4096 <= sb.size / 4096;
    assert b % 4096 % 8 == b % 8;
    BitMask(disk[sb.bmapstart + b / 4096][b % 4096 / 8], b % 8);
  }

  // ---- File contents ----

  /** Byte k of a file is byte k % 512 of the block that the inode lists for
      k / 512: directly for the first twelve, the others in the block that the
      thirteenth address names, four bytes each. */
  lemma ContentLayout(sb: Super, fs: Fs, i: nat, k: nat)
    requires Quiet(sb, fs) && i < sb.ninodes && k < fs.ino[i].size
    ensures |fs.ino[i].addrs| == 13 && Readable(fs, i) && (k / 512 >= 12 ==> fs.ino[i].addrs[12] < sb.size == |fs.disk|)
    ensures k / 512 < 140
    ensures var n := k / 512;
            var x := if n < 12 then fs.ino[i].addrs[n]
                     else Le(fs.disk[fs.ino[i].addrs[12]][4 * (n - 12)..4 * (n - 12) + 4]);
            sb.datastart <= x < sb.size == |fs.disk| && Content(fs, i)[k] == fs.disk[x][k % 512]
  {
    hide BlockOk, DinodeAt, Word, Le, Roomy;
    QuietReadable(sb, fs, i);
    assert FileOk(sb, fs, i) && Snug(fs, i);
    CeilBound(fs.ino[i].size);
    OwnedFacts(sb, fs, i);
    var n := k / 512;
    assert n < |fs.slots[i]|;
    if n >= 12 {
      assert Word(fs.disk[fs.ind[i]], n - 12) == At(fs.slots[i], n);
      WordLayout(fs.disk[fs.ind[i]], n - 12);
    }
  }

  // ---- The log header ----

  /** `struct logheader`: the count in the first four bytes, the block numbers
      after it, four bytes each. */
  lemma HeaderLayout(b: Block)
    requires Le(b[..4]) <= 30
    ensures |HeaderOf(b)| == Le(b[..4])
    ensures forall i :: 0 <= i < |HeaderOf(b)| ==> HeaderOf(b)[i] == Le(b[4 + 4 * i..8 + 4 * i])
  {
    hide Le, Word;
    WordLayout(b, 0);
    assert b[0..4] == b[..4];
    forall i | 0 <= i < |HeaderOf(b)| ensures HeaderOf(b)[i] == Le(b[4 + 4 * i..8 + 4 * i]) {
      WordLayout(b, i + 1);
    }
  }

  /** What `write_head` stores: count and numbers in that order, and the rest
      of the block as it was. */
  lemma EncodeLayout(b: Block, bs: seq<nat>)
    requires Encodable(bs)
    ensures var r := EncodeHeader(b, bs);
            && Le(r[..4]) == |bs| <= 30
            && (forall i :: 0 <= i < |bs| ==> Le(r[4 + 4 * i..8 + 4 * i]) == bs[i])
            && forall j :: 4 + 4 * |bs| <= j < 512 ==> r[j] == b[j]
  {
    hide Le, Word, PutWord, PutWords;
    var r := EncodeHeader(b, bs);
    HeaderRoundTrip(b, bs);
    WordLayout(r, 0);
    assert r[0..4] == r[..4];
    HeaderLayout(r);
    EncodeFrame(b, bs);
  }

  lemma EncodeFrame(b: Block, bs: seq<nat>)
    requires Encodable(bs)
    ensures forall j :: 4 + 4 * |bs| <= j < 512 ==> EncodeHeader(b, bs)[j] == b[j]
  {
    hide PutWords;
    PutsFrame(PutWord(b, 0, |bs|), 1, bs);
  }
}
