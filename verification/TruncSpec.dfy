/** Truncation: which blocks `itrunc` has given back so far. */
module TruncSpec {
  import opened Blocks
  import opened Common
  import opened FilesSpec

  /** The owner of a block once the first m data blocks of inode i, and its
      indirect block if `ind`, have been freed; the rest await their turn. */
  function AfterFree(o: Owner, i: nat, m: nat, ind: bool): Owner
  {
    if o.Data? && o.inum == i then (if o.slot < m then Free else Loose)
    else if o == Indirect(i) then (if ind then Free else Loose)
    else o
  }

  ghost predicate Freed(before: seq<Owner>, now: seq<Owner>, i: nat, m: nat, ind: bool)
  {
    |now| == |before| && forall b :: 0 <= b < |now| ==> now[b] == AfterFree(before[b], i, m, ind)
  }

  /** How many blocks of inode i that is. */
  function Gone(fs0: Fs, i: nat, m: nat, ind: bool): nat
    requires i < |fs0.slots| && i < |fs0.ind|
  {
    (if m < |fs0.slots[i]| then m else |fs0.slots[i]|) + (if ind && fs0.ind[i] != 0 then 1 else 0)
  }

  /** The file system in the middle of truncating inode i of fs0. */
  ghost predicate Truncating(sb: Super, fs0: Fs, fs: Fs, i: nat, m: nat, ind: bool)
  {
    && Shaped(sb, fs0) && Shaped(sb, fs) && i < sb.ninodes
    && FsInv(sb, fs, {i}, {i}) && Freed(fs0.owner, fs.owner, i, m, ind)
    && FreeBlocks(fs.owner) == FreeBlocks(fs0.owner) + Gone(fs0, i, m, ind)
    && fs.ino == fs0.ino && fs.slots == fs0.slots[i := []] && fs.ind == fs0.ind[i := 0]
    && forall c :: sb.datastart <= c < sb.size ==> fs.disk[c] == fs0.disk[c]
  }

  lemma TruncStart(sb: Super, fs0: Fs, i: nat)
    requires Quiet(sb, fs0) && i < sb.ninodes
    ensures Truncating(sb, fs0, Detach(fs0, i), i, 0, false)
  {
    hide BlockOk, FileOk, DinodeAt, Snug, Roomy;
    DetachInv(sb, fs0, i);
    FreeBlocksSame(fs0.owner, Detach(fs0, i).owner);
  }

  /** There is no m-th data block: nothing to free. */
  lemma TruncSkip(sb: Super, fs0: Fs, fs: Fs, i: nat, m: nat, ind: bool)
    requires Quiet(sb, fs0) && Truncating(sb, fs0, fs, i, m, ind) && m >= |fs0.slots[i]|
    ensures Truncating(sb, fs0, fs, i, m + 1, ind)
  {
    hide FileOk, DinodeAt, Snug, Marked, FsInv, Roomy;
    forall b | 0 <= b < sb.size ensures fs0.owner[b] != Data(i, m) {
      QuietBlock(sb, fs0, b);
    }
  }

  lemma QuietBlock(sb: Super, fs0: Fs, b: nat)
    requires Quiet(sb, fs0) && b < sb.size
    ensures BlockOk(sb, fs0, b) && fs0.owner[b] != Loose
  {
  }

  lemma QuietFile(sb: Super, fs0: Fs, i: nat)
    requires Quiet(sb, fs0) && i < sb.ninodes
    ensures FileOk(sb, fs0, i) && Snug(fs0, i)
  {
  }

  /** Freeing the m-th data block: it is still marked, and no other block
      changes hands. */
  lemma TruncFree(sb: Super, fs0: Fs, fs: Fs, i: nat, m: nat, ind: bool)
    requires Quiet(sb, fs0) && Truncating(sb, fs0, fs, i, m, ind) && m < |fs0.slots[i]|
    ensures var b := fs0.slots[i][m];
            && b < sb.size && fs.owner[b] == Loose
            && Truncating(sb, fs0, Release(sb, fs, b), i, m + 1, ind)
  {
    hide FileOk, DinodeAt, Snug, Marked, Mark, FsInv, Represents, Roomy;
    QuietFile(sb, fs0, i);
    FileFacts(sb, fs0, i);
    var b := fs0.slots[i][m];
    ReleaseInv(sb, fs, b, {i}, {i});
    FreeBlocksPut(fs.owner, b, Free);
    forall c | 0 <= c < sb.size && fs0.owner[c] == Data(i, m) ensures c == b {
      QuietBlock(sb, fs0, c);
    }
  }

  /** Freeing the indirect block. */
  lemma TruncIndirect(sb: Super, fs0: Fs, fs: Fs, i: nat, m: nat)
    requires Quiet(sb, fs0) && Truncating(sb, fs0, fs, i, m, false) && fs0.ind[i] != 0
    ensures var b := fs0.ind[i];
            && sb.datastart <= b < sb.size && fs.owner[b] == Loose
            && Truncating(sb, fs0, Release(sb, fs, b), i, m, true)
  {
    hide FileOk, DinodeAt, Snug, Marked, Mark, FsInv, Represents, Roomy;
    QuietFile(sb, fs0, i);
    FileFacts(sb, fs0, i);
    var b := fs0.ind[i];
    QuietBlock(sb, fs0, b);
    ReleaseInv(sb, fs, b, {i}, {i});
    FreeBlocksPut(fs.owner, b, Free);
    forall c | 0 <= c < sb.size && fs0.owner[c] == Indirect(i) ensures c == b {
      QuietBlock(sb, fs0, c);
    }
  }

  /** An inode without an indirect block has none to free. */
  lemma TruncNoIndirect(sb: Super, fs0: Fs, fs: Fs, i: nat, m: nat)
    requires Quiet(sb, fs0) && Truncating(sb, fs0, fs, i, m, false) && fs0.ind[i] == 0 && m >= NDIRECT
    ensures Truncating(sb, fs0, fs, i, MAXFILE, true)
  {
    hide FileOk, DinodeAt, Marked, FsInv, Represents, Roomy;
    QuietFile(sb, fs0, i);
    assert |fs0.slots[i]| <= NDIRECT;
    forall c | 0 <= c < sb.size
      ensures fs0.owner[c] != Indirect(i)
      ensures fs0.owner[c].Data? && fs0.owner[c].inum == i ==> fs0.owner[c].slot < NDIRECT
    {
      QuietBlock(sb, fs0, c);
      QuietBlock(sb, fs0, 0);
    }
  }

  /** When all is freed and the inode is cleared and written back, exactly the
      blocks of inode i have become free. */
  lemma TruncDone(sb: Super, fs0: Fs, fs: Fs, i: nat, d: Dinode)
    requires Quiet(sb, fs0) && Truncating(sb, fs0, fs, i, MAXFILE, true)
    requires DinodeOk(d) && d.size == 0 && forall k :: 0 <= k < |d.addrs| ==> d.addrs[k] == 0
    ensures var gs := fs.(ino := fs.ino[i := d]);
            && FsInv(sb, gs, {}, {i})
            && var ws := WriteBack(sb, gs, i);
               && Quiet(sb, ws) && SameOthers(sb, fs0, ws, i) && ws.slots[i] == [] && ws.ind[i] == 0
               && (forall b :: 0 <= b < sb.size ==>
                     ws.owner[b] == if BelongsTo(fs0.owner[b], i) then Free else fs0.owner[b])
               && FreeBlocks(ws.owner) == FreeBlocks(fs0.owner) + Uses(fs0, i)
  {
    hide FileOk, DinodeAt, Marked, Represents, SameFile, WriteDinode, BlockOk, Roomy;
    EmptyFile(sb, fs, i, d, {i});
    var gs := fs.(ino := fs.ino[i := d]);
    WriteBackInv(sb, gs, i, {}, {i});
    assert {i} - {i} == {};
    var ws := WriteBack(sb, gs, i);
    TruncOwners(sb, fs0, fs, i);
    TruncOthers(sb, fs0, ws, i);
    forall j | 0 <= j < sb.ninodes ensures Snug(ws, j) {
      QuietFile(sb, fs0, j);
    }
  }

  lemma TruncOwners(sb: Super, fs0: Fs, fs: Fs, i: nat)
    requires Quiet(sb, fs0) && Truncating(sb, fs0, fs, i, MAXFILE, true)
    ensures |fs0.slots[i]| <= MAXFILE
    ensures forall b :: 0 <= b < sb.size ==>
              && fs.owner[b] == (if BelongsTo(fs0.owner[b], i) then Free else fs0.owner[b])
              && fs.owner[b] != Loose
  {
    hide FileOk, DinodeAt, Marked, FsInv, Represents, Roomy;
    QuietFile(sb, fs0, i);
    assert |fs0.slots[i]| <= MAXFILE by { FileFacts(sb, fs0, i); ShortFile(sb, fs0, i); }
    forall b | 0 <= b < sb.size
      ensures fs.owner[b] == (if BelongsTo(fs0.owner[b], i) then Free else fs0.owner[b]) && fs.owner[b] != Loose
    {
      QuietBlock(sb, fs0, b);
    }
  }

  lemma ShortFile(sb: Super, fs0: Fs, i: nat)
    requires Shaped(sb, fs0) && i < sb.ninodes && FileOk(sb, fs0, i)
    ensures |fs0.slots[i]| <= MAXFILE
  {
  }

  lemma TruncOthers(sb: Super, fs0: Fs, ws: Fs, i: nat)
    requires Quiet(sb, fs0) && Shaped(sb, ws) && i < sb.ninodes
    requires ws.slots == fs0.slots[i := []] && ws.ind == fs0.ind[i := 0]
    requires forall j :: 0 <= j < sb.ninodes && j != i ==> ws.ino[j] == fs0.ino[j]
    requires forall c :: sb.datastart <= c < sb.size ==> ws.disk[c] == fs0.disk[c]
    ensures SameOthers(sb, fs0, ws, i)
  {
    hide DinodeAt, Marked, Represents, Roomy;
    forall j | 0 <= j < sb.ninodes && j != i ensures SameFile(fs0, ws, j) {
      QuietFile(sb, fs0, j);
      OwnedFacts(sb, fs0, j);
    }
  }
}
