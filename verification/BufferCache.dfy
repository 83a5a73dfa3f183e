/** The buffer cache: a fixed table of buffers on an MRU ring that presents
    the disk as a plain map from block number to contents. */
module BufferCache {
  import opened Blocks
  import opened Common
  import opened LogSpec
  import opened Ring

  const NBUF: nat := 3 * MAXOPBLOCKS
  const HEAD: nat := NBUF      // the index of bcache.head
  const ROOTDEV: nat := 1

  /** The disk: synchronous atomic block writes, with their history. */
  class MemDisk {
    var blocks: Disk
    ghost var initial: Disk
    ghost var writes: seq<Write>

    ghost predicate Valid() reads this { blocks == Replay(initial, writes) }

    constructor (image: Disk)
      ensures Valid() && blocks == initial == image && writes == []
    {
      blocks, initial, writes := image, image, [];
    }

    method WriteBlock(b: nat, data: Block)
      requires Valid() && b < |blocks|
      modifies this
      ensures Valid() && blocks == old(blocks)[b := data] && initial == old(initial)
      ensures writes == old(writes) + [Write(b, data)]
    {
      ReplaySnoc(initial, writes, Write(b, data));
      blocks := blocks[b := data];
      writes := writes + [Write(b, data)];
    }
  }

  datatype Buf = Buf(dev: nat, blockno: nat, valid: bool, dirty: bool, refcnt: nat, locked: bool, data: Block)

  predicate Holds(b: Buf, dev: nat, blockno: nat) { b.dev == dev && b.blockno == blockno }

  predicate Cached(bs: seq<Buf>, dev: nat, blockno: nat)
  {
    exists i :: 0 <= i < |bs| && Holds(bs[i], dev, blockno)
  }

  predicate Recyclable(b: Buf) { b.refcnt == 0 && !b.dirty }

  /** Every buffer can be recycled. */
  predicate AllFree(bs: seq<Buf>) { forall i :: 0 <= i < |bs| ==> Recyclable(bs[i]) }

  /** Some buffer can be recycled. */
  predicate Room(bs: seq<Buf>) { exists i :: 0 <= i < |bs| && Recyclable(bs[i]) }

  /** `bget` finds a buffer for block a. */
  predicate Ready(bs: seq<Buf>, a: nat) { Cached(bs, ROOTDEV, a) || Room(bs) }

  /** Nobody has block a locked. */
  predicate Unlocked(bs: seq<Buf>, a: nat)
  {
    forall i :: 0 <= i < |bs| && Holds(bs[i], ROOTDEV, a) ==> !bs[i].locked
  }

  /** How `bread` ends, or that it has to wait. */
  datatype ReadResult = Granted(b: nat) | Waits(b: nat) | NoBuffers

  ghost predicate BufOk(b: Buf, contents: Disk)
  {
    && (b.valid ==> b.dev == ROOTDEV && b.blockno < |contents|)
    && (b.dirty ==> b.valid)
    && (b.locked ==> b.refcnt > 0)
    && (b.valid && !b.locked ==> b.data == contents[b.blockno])
  }

  /** At most one buffer per block of a real device. */
  ghost predicate Unique(bs: seq<Buf>)
  {
    forall i, j :: 0 <= i < j < |bs| && bs[i].dev != 0 ==> !Holds(bs[j], bs[i].dev, bs[i].blockno)
  }

  function DirtyBlocks(bs: seq<Buf>): set<nat>
  {
    set i | 0 <= i < |bs| && bs[i].dirty :: bs[i].blockno
  }

  /** Away from the pinned blocks the disk is up to date. */
  ghost predicate Backed(bs: seq<Buf>, disk: Disk, contents: Disk)
  {
    |disk| == |contents| && forall b :: 0 <= b < |disk| && b !in DirtyBlocks(bs) ==> disk[b] == contents[b]
  }

  ghost predicate Consistent(bs: seq<Buf>, disk: Disk, contents: Disk)
  {
    && |bs| == NBUF && Unique(bs) && Backed(bs, disk, contents)
    && forall i :: 0 <= i < |bs| ==> BufOk(bs[i], contents)
  }

  ghost predicate SoleDirty(bs: seq<Buf>, i: nat)
    requires i < |bs|
  {
    forall j :: 0 <= j < |bs| && j != i && bs[j].dirty ==> bs[j].blockno != bs[i].blockno
  }

  lemma DirtyUpdate(bs: seq<Buf>, i: nat, b: Buf)
    requires i < |bs|
    ensures !bs[i].dirty && !b.dirty ==> DirtyBlocks(bs[i := b]) == DirtyBlocks(bs)
    ensures b.dirty && (bs[i].dirty ==> b.blockno == bs[i].blockno) ==>
              DirtyBlocks(bs[i := b]) == DirtyBlocks(bs) + {b.blockno}
    ensures bs[i].dirty && !b.dirty && SoleDirty(bs, i) ==>
              DirtyBlocks(bs[i := b]) == DirtyBlocks(bs) - {bs[i].blockno}
  {
    var cs := bs[i := b];
    assert forall j :: 0 <= j < |bs| && j != i ==> cs[j] == bs[j];
    forall x | x in DirtyBlocks(bs) ensures x == bs[i].blockno || x in DirtyBlocks(cs) {
      var j :| 0 <= j < |bs| && bs[j].dirty && bs[j].blockno == x;
      assert j != i ==> cs[j].dirty && cs[j].blockno == x;
    }
    forall x | x in DirtyBlocks(cs) ensures x in DirtyBlocks(bs) || (b.dirty && x == b.blockno) {
      var j :| 0 <= j < |cs| && cs[j].dirty && cs[j].blockno == x;
      assert j != i ==> bs[j].dirty && bs[j].blockno == x;
    }
    if b.dirty { assert cs[i].dirty && cs[i].blockno == b.blockno; }
    if !bs[i].dirty {
      forall x | x in DirtyBlocks(bs) ensures x in DirtyBlocks(cs) {
        var j :| 0 <= j < |bs| && bs[j].dirty && bs[j].blockno == x;
        assert cs[j].dirty && cs[j].blockno == x;
      }
    }
  }

  /** What `bget` makes of the buffer it returns. */
  function Referenced(b: Buf, dev: nat, blockno: nat): Buf
  {
    if Holds(b, dev, blockno) then b.(refcnt := b.refcnt + 1)
    else Buf(dev, blockno, false, false, 1, b.locked, b.data)
  }

  lemma HitConsistent(bs: seq<Buf>, disk: Disk, contents: Disk, i: nat)
    requires Consistent(bs, disk, contents) && i < |bs|
    ensures Consistent(bs[i := bs[i].(refcnt := bs[i].refcnt + 1)], disk, contents)
  {
    var b := bs[i].(refcnt := bs[i].refcnt + 1);
    DirtyUpdate(bs, i, b);
    if bs[i].dirty { assert bs[i].blockno in DirtyBlocks(bs); }
  }

  lemma RecycleConsistent(bs: seq<Buf>, disk: Disk, contents: Disk, i: nat, dev: nat, blockno: nat)
    requires Consistent(bs, disk, contents) && i < |bs| && Recyclable(bs[i])
    requires dev != 0 && !Cached(bs, dev, blockno)
    ensures Consistent(bs[i := Referenced(bs[i], dev, blockno)], disk, contents)
  {
    assert !Holds(bs[i], dev, blockno);
    DirtyUpdate(bs, i, Referenced(bs[i], dev, blockno));
  }

  /** What `bread` makes of the buffer `bget` returned. */
  function Loaded(b: Buf, contents: Disk): Buf
    requires b.blockno < |contents|
  {
    b.(valid := true, locked := true, data := contents[b.blockno])
  }

  /** `bread` of block a may pick buffer i: the one that holds the block, or a
      recyclable one if there is none. */
  ghost predicate Picks(bs: seq<Buf>, contents: Disk, i: nat, a: nat)
  {
    && i < |bs| && a < |contents| && !bs[i].locked
    && (if Cached(bs, ROOTDEV, a) then Holds(bs[i], ROOTDEV, a) else Recyclable(bs[i]))
  }

  /** From bs to cs, `bread` of block a has locked buffer i. */
  ghost predicate Took(bs: seq<Buf>, cs: seq<Buf>, contents: Disk, i: nat, a: nat)
  {
    Picks(bs, contents, i, a) && cs == bs[i := Loaded(Referenced(bs[i], ROOTDEV, a), contents)]
  }

  lemma TookFacts(bs: seq<Buf>, disk: Disk, contents: Disk, i: nat, a: nat)
    requires Consistent(bs, disk, contents) && i < |bs|
    requires if Cached(bs, ROOTDEV, a) then Holds(bs[i], ROOTDEV, a) else Recyclable(bs[i])
    ensures DirtyBlocks(bs[i := Referenced(bs[i], ROOTDEV, a)]) == DirtyBlocks(bs)
    ensures bs[i].locked <==> !Unlocked(bs, a)
    ensures bs[i].locked ==> Holds(bs[i], ROOTDEV, a)
    ensures Ready(bs, a)
  {
    assert BufOk(bs[i], contents);
    DirtyUpdate(bs, i, Referenced(bs[i], ROOTDEV, a));
    if bs[i].dirty { assert bs[i].blockno in DirtyBlocks(bs); }
    forall j | 0 <= j < |bs| && Holds(bs[j], ROOTDEV, a) ensures j == i {
    }
  }

  lemma LoadConsistent(bs: seq<Buf>, disk: Disk, contents: Disk, i: nat)
    requires Consistent(bs, disk, contents) && i < |bs|
    requires bs[i].dev == ROOTDEV && bs[i].blockno < |contents| && bs[i].refcnt > 0 && !bs[i].locked
    ensures (if bs[i].valid then bs[i].data else disk[bs[i].blockno]) == contents[bs[i].blockno]
    ensures Consistent(bs[i := Loaded(bs[i], contents)], disk, contents)
    ensures DirtyBlocks(bs[i := Loaded(bs[i], contents)]) == DirtyBlocks(bs)
  {
    var b := Loaded(bs[i], contents);
    DirtyUpdate(bs, i, b);
    if bs[i].dirty {
      assert bs[i].blockno in DirtyBlocks(bs);
    } else if bs[i].blockno in DirtyBlocks(bs) {
      var j :| 0 <= j < |bs| && bs[j].dirty && bs[j].blockno == bs[i].blockno;
      assert Holds(bs[j], ROOTDEV, bs[i].blockno) && Holds(bs[i], ROOTDEV, bs[j].blockno);
      assert false;
    }
  }

  /** Storing the data of a locked buffer: pinned in the cache (`log_write`)
      or written through (`bwrite`). */
  lemma StoreConsistent(bs: seq<Buf>, disk: Disk, contents: Disk, i: nat)
    requires Consistent(bs, disk, contents) && i < |bs| && bs[i].locked && bs[i].valid
    ensures var x := bs[i].blockno;
            && SoleDirty(bs, i)
            && Consistent(bs[i := bs[i].(dirty := true)], disk, contents[x := bs[i].data])
            && DirtyBlocks(bs[i := bs[i].(dirty := true)]) == DirtyBlocks(bs) + {x}
            && Consistent(bs[i := bs[i].(dirty := false)], disk[x := bs[i].data], contents[x := bs[i].data])
            && DirtyBlocks(bs[i := bs[i].(dirty := false)]) == DirtyBlocks(bs) - {x}
  {
    var x := bs[i].blockno;
    forall j | 0 <= j < |bs| && j != i && bs[j].valid ensures bs[j].blockno != x {
      assert i < j ==> !Holds(bs[j], bs[i].dev, bs[i].blockno);
      assert j < i ==> !Holds(bs[i], bs[j].dev, bs[j].blockno);
    }
    DirtyUpdate(bs, i, bs[i].(dirty := true));
    DirtyUpdate(bs, i, bs[i].(dirty := false));
  }

  lemma ReleaseConsistent(bs: seq<Buf>, disk: Disk, contents: Disk, i: nat)
    requires Consistent(bs, disk, contents) && i < |bs| && bs[i].locked && bs[i].valid
    ensures bs[i].blockno < |contents| && bs[i].refcnt > 0
    ensures Consistent(bs[i := bs[i].(locked := false, refcnt := bs[i].refcnt - 1)], disk, contents)
            <==> bs[i].data == contents[bs[i].blockno]
    ensures DirtyBlocks(bs[i := bs[i].(locked := false, refcnt := bs[i].refcnt - 1)]) == DirtyBlocks(bs)
  {
    assert BufOk(bs[i], contents);
    var b := bs[i].(locked := false, refcnt := bs[i].refcnt - 1);
    DirtyUpdate(bs, i, b);
    if bs[i].dirty { assert bs[i].blockno in DirtyBlocks(bs); }
    assert bs[i := b][i] == b;
    assert BufOk(b, contents) <==> bs[i].data == contents[bs[i].blockno];
  }

  lemma EditConsistent(bs: seq<Buf>, disk: Disk, contents: Disk, i: nat, data: Block)
    requires Consistent(bs, disk, contents) && i < |bs| && bs[i].locked
    ensures Consistent(bs[i := bs[i].(data := data)], disk, contents)
    ensures DirtyBlocks(bs[i := bs[i].(data := data)]) == DirtyBlocks(bs)
  {
    DirtyUpdate(bs, i, bs[i].(data := data));
    if bs[i].dirty { assert bs[i].blockno in DirtyBlocks(bs); }
  }

  /** The ring is in the order in which the buffers were last released. */
  ghost predicate Stamped(order: seq<nat>, stamp: seq<int>, clock: int)
  {
    && |stamp| == NBUF
    && (forall i :: 0 <= i < NBUF ==> stamp[i] < clock)
    && (forall i :: 0 <= i < |order| ==> order[i] < NBUF)
    && (forall i, j :: 0 <= i < j < |order| ==> stamp[order[i]] > stamp[order[j]])
  }

  /** Buffer b has moved to the front of the ring. */
  ghost predicate MovedFront(was: seq<nat>, now: seq<nat>, b: nat)
  {
    exists k :: 0 <= k < |was| && was[k] == b && now == [b] + Without(was, k)
  }

  class Cache {
    const disk: MemDisk
    const bufs: array<Buf>
    const next: array<nat>
    const prev: array<nat>
    ghost var order: seq<nat>      // the ring, most recently used first
    ghost var stamp: seq<int>      // when each buffer's reference count last dropped to zero
    ghost var clock: int
    ghost var contents: Disk       // the last contents stored in each block

    ghost predicate Linked()
      reads this, next, prev
    {
      && next != prev && next.Length == prev.Length == NBUF + 1
      && IsRing(next[..], prev[..], HEAD, order) && |order| == NBUF
      && Stamped(order, stamp, clock)
    }

    ghost predicate Valid()
      reads this, disk, bufs, next, prev
    {
      && Linked() && disk.Valid() && bufs.Length == NBUF
      && Consistent(bufs[..], disk.blocks, contents)
    }

    lemma Facts()
      requires Valid()
      ensures bufs.Length == NBUF && disk.blocks == Replay(disk.initial, disk.writes)
    {
    }

    /** `binit`, on the given disk. */
    constructor (disk: MemDisk)
      requires disk.Valid()
      ensures this.disk == disk && Valid() && AllFree(bufs[..]) && contents == disk.blocks
      ensures fresh(bufs) && fresh(next) && fresh(prev)
    {
      this.disk := disk;
      bufs := new Buf[NBUF](i => Buf(0, 0, false, false, 0, false, Zeroes()));
      next := new nat[NBUF + 1](i => HEAD);
      prev := new nat[NBUF + 1](i => HEAD);
      order, clock, contents := [], 0, disk.blocks;
      stamp := seq(NBUF, i => i - NBUF);
      new;
      for b := 0 to NBUF
        modifies this`order, next, prev
        invariant next != prev && IsRing(next[..], prev[..], HEAD, order) && |next[..]| == NBUF + 1
        invariant |order| == b && forall i :: 0 <= i < b ==> order[i] == b - 1 - i
      {
        SpliceFront(b);
      }
      assert forall i :: 0 <= i < NBUF ==> bufs[..][i] == Buf(0, 0, false, false, 0, false, Zeroes());
    }

    /** Links buffer b in behind the head of the ring. */
    method SpliceFront(b: nat)
      requires next != prev && IsRing(next[..], prev[..], HEAD, order)
      requires b < next.Length && b != HEAD && b !in order
      modifies this`order, next, prev
      ensures IsRing(next[..], prev[..], HEAD, order) && order == [b] + old(order)
    {
      PushFront(next[..], prev[..], HEAD, order, b);
      next[b] := next[HEAD];
      prev[b] := HEAD;
      prev[next[HEAD]] := b;
      next[HEAD] := b;
      order := [b] + order;
    }

    /** First loop of `bget`: is the block already cached? */
    method FindCached(dev: nat, blockno: nat) returns (r: Option<nat>)
      requires Linked() && bufs.Length == NBUF
      ensures r.Some? ==> r.value < NBUF && Holds(bufs[r.value], dev, blockno)
      ensures r.None? <==> !Cached(bufs[..], dev, blockno)
    {
      var b := next[HEAD];
      ghost var k := 0;
      while b != HEAD
        invariant k <= NBUF && b == if k < NBUF then order[k] else HEAD
        invariant forall j :: 0 <= j < k ==> !Holds(bufs[order[j]], dev, blockno)
        decreases NBUF - k
      {
        if bufs[b].dev == dev && bufs[b].blockno == blockno {
          assert Holds(bufs[..][b], dev, blockno);
          return Some(b);
        }
        RingAt(next[..], prev[..], HEAD, order, k);
        b := next[b];
        k := k + 1;
      }
      NotCached(bufs[..], order, dev, blockno);
      return None;
    }

    /** Second loop of `bget`: the least recently used buffer that is neither
        referenced nor pinned. */
    method FindRecyclable() returns (r: Option<nat>)
      requires Linked() && bufs.Length == NBUF
      ensures r.None? <==> forall i :: 0 <= i < NBUF ==> !Recyclable(bufs[i])
      ensures r.Some? ==>
                && r.value < NBUF && Recyclable(bufs[r.value])
                && exists k :: 0 <= k < NBUF && order[k] == r.value
                               && forall j :: k < j < NBUF ==> !Recyclable(bufs[order[j]])
    {
      var b := prev[HEAD];
      ghost var k := NBUF;
      while b != HEAD
        invariant 0 <= k <= NBUF && b == if k > 0 then order[k - 1] else HEAD
        invariant forall j :: k <= j < NBUF ==> !Recyclable(bufs[order[j]])
        decreases k
      {
        if bufs[b].refcnt == 0 && !bufs[b].dirty {
          return Some(b);
        }
        RingAt(next[..], prev[..], HEAD, order, k - 1);
        b := prev[b];
        k := k - 1;
      }
      forall i | 0 <= i < NBUF ensures !Recyclable(bufs[i]) {
        AllPresent(order, NBUF, i);
        var j :| 0 <= j < NBUF && order[j] == i;
      }
      return None;
    }

    /** The critical section of `bget`: None is the panic "no buffers". */
    method Bget(dev: nat, blockno: nat) returns (r: Option<nat>)
      requires Valid() && dev != 0
      modifies bufs
      ensures Valid()
      ensures r.None? <==> !Cached(old(bufs[..]), dev, blockno)
                           && forall i :: 0 <= i < NBUF ==> !Recyclable(old(bufs[..])[i])
      ensures r.None? ==> bufs[..] == old(bufs[..])
      ensures r.Some? ==>
                && r.value < NBUF && Holds(bufs[r.value], dev, blockno)
                && bufs[..] == old(bufs[..])[r.value := Referenced(old(bufs[..])[r.value], dev, blockno)]
                && bufs[r.value].dev == dev && bufs[r.value].blockno == blockno
      ensures r.Some? && Cached(old(bufs[..]), dev, blockno) ==>
                && Holds(old(bufs[..])[r.value], dev, blockno)
                && bufs[r.value] == old(bufs[r.value]).(refcnt := old(bufs[r.value]).refcnt + 1)
      ensures r.Some? && !Cached(old(bufs[..]), dev, blockno) ==>
                && Recyclable(old(bufs[..])[r.value])
                && bufs[r.value].refcnt == 1 && !bufs[r.value].valid && !bufs[r.value].dirty
                && exists k :: 0 <= k < NBUF && order[k] == r.value
                               && forall j :: k < j < NBUF ==> !Recyclable(old(bufs[..])[order[j]])
    {
      ghost var bs := bufs[..];
      r := FindCached(dev, blockno);
      if r.Some? {
        var b := r.value;
        assert Holds(bs[b], dev, blockno);
        HitConsistent(bs, disk.blocks, contents, b);
        bufs[b] := bufs[b].(refcnt := bufs[b].refcnt + 1);
        assert bufs[..] == bs[b := Referenced(bs[b], dev, blockno)];
        return;
      }
      r := FindRecyclable();
      if r.Some? {
        var b := r.value;
        assert !Holds(bs[b], dev, blockno);
        RecycleConsistent(bs, disk.blocks, contents, b, dev, blockno);
        bufs[b] := Buf(dev, blockno, false, false, 1, bufs[b].locked, bufs[b].data);
        assert bufs[..] == bs[b := Referenced(bs[b], dev, blockno)];
      }
    }

    /** The rest of `bread`, once the buffer's sleep lock is granted. Other
        processes may have run since `bget`; the reference count has kept the
        buffer from being recycled. */
    method LockAndLoad(b: nat)
      requires Valid() && b < NBUF && bufs[b].refcnt > 0 && !bufs[b].locked
      requires bufs[b].dev == ROOTDEV && bufs[b].blockno < |contents|
      modifies bufs
      ensures Valid()
      ensures bufs[..] == old(bufs[..])[b := Loaded(old(bufs[..])[b], contents)]
      ensures DirtyBlocks(bufs[..]) == DirtyBlocks(old(bufs[..]))
    {
      ghost var cs := bufs[..];
      LoadConsistent(cs, disk.blocks, contents, b);
      bufs[b] := bufs[b].(locked := true);
      if !bufs[b].valid {
        bufs[b] := bufs[b].(data := disk.blocks[bufs[b].blockno], valid := true);
      }
      assert bufs[..] == cs[b := Loaded(cs[b], contents)];
    }

    /** `bread`: a locked buffer with the last contents stored in the block.
        If the buffer is locked the caller waits for it, holding a reference,
        and goes on with LockAndLoad; NoBuffers is the panic of `bget`. */
    method Bread(dev: nat, blockno: nat) returns (r: ReadResult)
      requires Valid() && dev == ROOTDEV && blockno < |contents|
      modifies bufs
      ensures Valid() && DirtyBlocks(bufs[..]) == DirtyBlocks(old(bufs[..]))
      ensures r.NoBuffers? <==> !Ready(old(bufs[..]), blockno)
      ensures r.NoBuffers? ==> bufs[..] == old(bufs[..])
      ensures r.Waits? <==> !Unlocked(old(bufs[..]), blockno)
      ensures r.Waits? ==>
                && r.b < NBUF && Holds(old(bufs[..])[r.b], dev, blockno) && old(bufs[..])[r.b].locked
                && bufs[..] == old(bufs[..])[r.b := Referenced(old(bufs[..])[r.b], dev, blockno)]
      ensures r.Granted? ==> Took(old(bufs[..]), bufs[..], contents, r.b, blockno)
      ensures r.Granted? ==>
                && r.b < NBUF && bufs[r.b].locked && bufs[r.b].valid && bufs[r.b].refcnt > 0
                && bufs[r.b].dev == dev && bufs[r.b].blockno == blockno && bufs[r.b].data == contents[blockno]
                && forall i :: 0 <= i < NBUF && i != r.b ==> bufs[i] == old(bufs[i])
    {
      ghost var bs := bufs[..];
      var g := Bget(dev, blockno);
      if g.None? {
        return NoBuffers;
      }
      var b := g.value;
      TookFacts(bs, disk.blocks, contents, b, blockno);
      if bufs[b].locked {
        return Waits(b);
      }
      LockAndLoad(b);
      assert bufs[..] == bs[b := Loaded(Referenced(bs[b], dev, blockno), contents)];
      return Granted(b);
    }

    /** The holder of buffer b changes its data. */
    method Edit(b: nat, data: Block)
      requires Valid() && b < NBUF && bufs[b].locked
      modifies bufs
      ensures Valid()
      ensures bufs[..] == old(bufs[..])[b := old(bufs[b]).(data := data)]
      ensures DirtyBlocks(bufs[..]) == DirtyBlocks(old(bufs[..]))
    {
      EditConsistent(bufs[..], disk.blocks, contents, b, data);
      ghost var bs := bufs[..];
      bufs[b] := bufs[b].(data := data);
      assert bufs[..] == bs[b := bs[b].(data := data)];
    }

    /** The cache's part of `log_write`: the block is stored and pinned. */
    method Pin(b: nat)
      requires Valid() && b < NBUF && bufs[b].locked && bufs[b].valid
      modifies this`contents, bufs
      ensures Valid()
      ensures bufs[..] == old(bufs[..])[b := old(bufs[b]).(dirty := true)]
      ensures old(bufs[b]).blockno < |old(contents)|
      ensures contents == old(contents)[old(bufs[b]).blockno := old(bufs[b]).data]
      ensures DirtyBlocks(bufs[..]) == DirtyBlocks(old(bufs[..])) + {old(bufs[b]).blockno}
    {
      StoreConsistent(bufs[..], disk.blocks, contents, b);
      ghost var bs := bufs[..];
      bufs[b] := bufs[b].(dirty := true);
      contents := contents[bufs[b].blockno := bufs[b].data];
      assert bufs[..] == bs[b := bs[b].(dirty := true)];
    }

    /** `bwrite`: the block is stored and written to the disk. */
    method Bwrite(b: nat)
      requires Valid() && b < NBUF && bufs[b].locked && bufs[b].valid
      modifies this`contents, bufs, disk
      ensures Valid()
      ensures bufs[..] == old(bufs[..])[b := old(bufs[b]).(dirty := false)]
      ensures old(bufs[b]).blockno < |old(contents)|
      ensures contents == old(contents)[old(bufs[b]).blockno := old(bufs[b]).data]
      ensures disk.blocks == old(disk.blocks)[old(bufs[b]).blockno := old(bufs[b]).data]
      ensures disk.initial == old(disk.initial)
      ensures disk.writes == old(disk.writes) + [Write(old(bufs[b]).blockno, old(bufs[b]).data)]
      ensures DirtyBlocks(bufs[..]) == DirtyBlocks(old(bufs[..])) - {old(bufs[b]).blockno}
    {
      StoreConsistent(bufs[..], disk.blocks, contents, b);
      ghost var bs := bufs[..];
      bufs[b] := bufs[b].(dirty := true);
      bufs[b] := bufs[b].(dirty := false);
      disk.WriteBlock(bufs[b].blockno, bufs[b].data);
      contents := contents[bufs[b].blockno := bufs[b].data];
      assert bufs[..] == bs[b := bs[b].(dirty := false)];
    }

    /** `brelse`. A buffer whose last reference goes away becomes the most
        recently used one. The cache still shows what was last stored if and
        only if the data of the buffer has been stored. */
    method Brelse(b: nat)
      requires Valid() && b < NBUF && bufs[b].locked && bufs[b].valid
      modifies this`order, this`stamp, this`clock, bufs, next, prev
      ensures Linked() && old(bufs[b]).blockno < |contents| && old(bufs[b]).refcnt > 0
      ensures Valid() <==> old(bufs[b]).data == contents[old(bufs[b]).blockno]
      ensures bufs[..] == old(bufs[..])[b := old(bufs[b]).(locked := false, refcnt := old(bufs[b]).refcnt - 1)]
      ensures DirtyBlocks(bufs[..]) == DirtyBlocks(old(bufs[..]))
      ensures old(bufs[b]).refcnt > 1 ==> order == old(order) && stamp == old(stamp)
      ensures old(bufs[b]).refcnt == 1 ==> MovedFront(old(order), order, b) && stamp == old(stamp)[b := old(clock)]
    {
      ghost var bs := bufs[..];
      ReleaseConsistent(bs, disk.blocks, contents, b);
      hide Consistent;
      bufs[b] := bufs[b].(locked := false);
      bufs[b] := bufs[b].(refcnt := bufs[b].refcnt - 1);
      assert bufs[..] == bs[b := bs[b].(locked := false, refcnt := bs[b].refcnt - 1)];
      if bufs[b].refcnt == 0 {
        MoveToFront(b);
      }
    }

    /** The pointer splicing of `brelse`. */
    method MoveToFront(b: nat)
      requires Linked() && b < NBUF
      modifies this`order, this`stamp, this`clock, next, prev
      ensures Linked() && MovedFront(old(order), order, b) && stamp == old(stamp)[b := old(clock)]
    {
      hide IsRing, Nodes, Without, Stamped;
      ghost var k := PlaceOf(next[..], prev[..], order, b);
      MovedStamps(order, stamp, clock, k);
      SpliceOut(b, k);
      SpliceFront(b);
      stamp, clock := stamp[b := clock], clock + 1;
    }

    /** Takes buffer b, the k-th of the ring, out of it. */
    method SpliceOut(b: nat, ghost k: nat)
      requires next != prev && IsRing(next[..], prev[..], HEAD, order)
      requires k < |order| && order[k] == b
      modifies this`order, next, prev
      ensures IsRing(next[..], prev[..], HEAD, order) && order == Without(old(order), k)
      ensures b !in order
    {
      Unlink(next[..], prev[..], HEAD, order, k);
      RingAt(next[..], prev[..], HEAD, order, k);
      prev[next[b]] := prev[b];
      next[prev[b]] := next[b];
      order := Without(order, k);
    }
  }

  lemma PlaceOf(next: seq<nat>, prev: seq<nat>, order: seq<nat>, b: nat) returns (k: nat)
    requires IsRing(next, prev, HEAD, order) && |next| == NBUF + 1 && |order| == NBUF && b < NBUF
    ensures k < |order| && order[k] == b
    ensures forall i, j :: 0 <= i < j < |order| ==> order[i] != order[j]
  {
    AllPresent(order, NBUF, b);
    k :| 0 <= k < NBUF && order[k] == b;
  }

  /** Giving the k-th buffer the latest stamp and moving it to the front keeps
      the ring ordered by stamp. */
  lemma MovedStamps(order: seq<nat>, stamp: seq<int>, clock: int, k: nat)
    requires k < |order| && Stamped(order, stamp, clock)
    requires forall i, j :: 0 <= i < j < |order| ==> order[i] != order[j]
    ensures |stamp| == NBUF
    ensures Stamped([order[k]] + Without(order, k), stamp[order[k] := clock], clock + 1)
  {
    var o := [order[k]] + Without(order, k);
    forall i | 1 <= i < |o| ensures o[i] == order[if i - 1 < k then i - 1 else i] {
      assert o[i] == Without(order, k)[i - 1];
    }
  }

  lemma NotCached(bs: seq<Buf>, order: seq<nat>, dev: nat, blockno: nat)
    requires |bs| == NBUF == |order|
    requires forall i :: 0 <= i < NBUF ==> order[i] < NBUF
    requires forall i, j :: 0 <= i < j < NBUF ==> order[i] != order[j]
    requires forall j :: 0 <= j < NBUF ==> !Holds(bs[order[j]], dev, blockno)
    ensures !Cached(bs, dev, blockno)
  {
    forall i | 0 <= i < NBUF ensures !Holds(bs[i], dev, blockno) {
      AllPresent(order, NBUF, i);
      var j :| 0 <= j < NBUF && order[j] == i;
    }
  }
}
