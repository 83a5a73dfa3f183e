/** What a process does to a buffer cache in which others hold buffers: reading
    one or two blocks, changing one and releasing them. */
module Holders {
  import opened Blocks
  import opened Common
  import opened LogSpec
  import opened BufferCache

  /** Buffer b has become c: references and locks are as before, a referenced
      buffer still holds its block, a locked one has not been touched, and no
      block has been pinned. */
  predicate Spared(b: Buf, c: Buf)
  {
    && c.refcnt == b.refcnt && c.locked == b.locked && (c.dirty ==> b.dirty)
    && (b.refcnt > 0 ==> Holds(c, b.dev, b.blockno)) && (b.locked ==> c == b)
  }

  ghost predicate SparedAll(bs: seq<Buf>, cs: seq<Buf>)
  {
    |cs| == |bs| && forall i :: 0 <= i < |bs| ==> Spared(bs[i], cs[i])
  }

  /** Moreover no block has been unpinned or pushed out by force. */
  ghost predicate SamePins(bs: seq<Buf>, cs: seq<Buf>)
  {
    && |cs| == |bs|
    && forall i :: 0 <= i < |bs| ==>
         cs[i].dirty == bs[i].dirty && (!Recyclable(bs[i]) ==> Holds(cs[i], bs[i].dev, bs[i].blockno))
  }

  /** Every buffer holds the block it held. */
  ghost predicate SamePlaces(bs: seq<Buf>, cs: seq<Buf>)
  {
    |cs| == |bs| && forall i :: 0 <= i < |bs| ==> Holds(cs[i], bs[i].dev, bs[i].blockno)
  }

  lemma SparedSelf(bs: seq<Buf>)
    ensures SparedAll(bs, bs) && SamePins(bs, bs)
  {
  }

  lemma SparedTrans(bs: seq<Buf>, cs: seq<Buf>, ds: seq<Buf>)
    requires SparedAll(bs, cs) && SparedAll(cs, ds)
    ensures SparedAll(bs, ds)
    ensures SamePins(bs, cs) && SamePins(cs, ds) ==> SamePins(bs, ds)
  {
    forall i | 0 <= i < |bs| ensures Spared(bs[i], ds[i]) {
      assert Spared(bs[i], cs[i]) && Spared(cs[i], ds[i]);
    }
    if SamePins(bs, cs) && SamePins(cs, ds) {
      forall i | 0 <= i < |bs|
        ensures ds[i].dirty == bs[i].dirty && (!Recyclable(bs[i]) ==> Holds(ds[i], bs[i].dev, bs[i].blockno))
      {
        assert Spared(bs[i], cs[i]);
      }
    }
  }

  /** What is free for the taking stays so. */
  lemma SparedKeeps(bs: seq<Buf>, cs: seq<Buf>)
    requires SparedAll(bs, cs)
    ensures forall a :: Unlocked(bs, a) ==> Unlocked(cs, a)
    ensures Room(bs) ==> Room(cs)
    ensures AllFree(bs) ==> AllFree(cs)
  {
    forall a | Unlocked(bs, a) ensures Unlocked(cs, a) {
      forall i | 0 <= i < |cs| && Holds(cs[i], ROOTDEV, a) ensures !cs[i].locked {
        assert Spared(bs[i], cs[i]);
      }
    }
    if Room(bs) {
      var i :| 0 <= i < |bs| && Recyclable(bs[i]);
      assert Spared(bs[i], cs[i]) && Recyclable(cs[i]);
    }
    if AllFree(bs) {
      forall i | 0 <= i < |cs| ensures Recyclable(cs[i]) {
        assert Spared(bs[i], cs[i]) && Recyclable(bs[i]);
      }
    }
  }

  lemma PlacesCached(bs: seq<Buf>, cs: seq<Buf>, a: nat)
    requires SamePlaces(bs, cs) && Cached(bs, ROOTDEV, a)
    ensures Cached(cs, ROOTDEV, a)
  {
    var i :| 0 <= i < |bs| && Holds(bs[i], ROOTDEV, a);
    assert Holds(cs[i], ROOTDEV, a);
  }

  /** With the pins as before, `bget` finds a buffer for the same blocks. */
  lemma SameReady(bs: seq<Buf>, cs: seq<Buf>, a: nat)
    requires SparedAll(bs, cs) && SamePins(bs, cs)
    ensures Ready(cs, a) <==> Ready(bs, a)
  {
    SparedKeeps(bs, cs);
    if !Room(bs) {
      forall i | 0 <= i < |bs| ensures !Recyclable(cs[i]) && Holds(cs[i], bs[i].dev, bs[i].blockno) {
        assert Spared(bs[i], cs[i]) && !Recyclable(bs[i]);
      }
      if Cached(bs, ROOTDEV, a) { PlacesCached(bs, cs, a); }
      if Cached(cs, ROOTDEV, a) {
        var i :| 0 <= i < |cs| && Holds(cs[i], ROOTDEV, a);
        assert Holds(bs[i], ROOTDEV, a);
      }
    }
  }

  /** The buffers that are pinned or in use. */
  function Busy(bs: seq<Buf>): set<nat> { set i: nat | 0 <= i < |bs| && !Recyclable(bs[i]) }

  /** Room means that fewer than all buffers are pinned or in use. */
  lemma RoomCount(bs: seq<Buf>)
    ensures Room(bs) <==> |Busy(bs)| < |bs|
  {
    var busy, all := Busy(bs), Span(0, |bs|);
    SubsetSize(busy, all);
    if Room(bs) {
      var i :| 0 <= i < |bs| && Recyclable(bs[i]);
      SubsetSize(busy, all - {i});
    } else {
      assert busy == all;
    }
  }

  // ---- Reading ----

  function Read(b: Buf, a: nat, contents: Disk): Buf
    requires a < |contents|
  {
    Loaded(Referenced(b, ROOTDEV, a), contents)
  }

  /** Reading blocks a and b may pick buffers i and j. */
  ghost predicate PicksTwo(bs: seq<Buf>, contents: Disk, i: nat, a: nat, j: nat, b: nat)
  {
    && Picks(bs, contents, i, a) && j < |bs| && i != j && a != b && b < |contents| && !bs[j].locked
    && (Holds(bs[j], ROOTDEV, b) || (Recyclable(bs[j]) && b !in DirtyBlocks(bs)))
  }

  /** From bs to cs, buffers i and j were read: blocks a and b. */
  ghost predicate TookTwo(bs: seq<Buf>, cs: seq<Buf>, contents: Disk, i: nat, a: nat, j: nat, b: nat)
  {
    && PicksTwo(bs, contents, i, a, j, b)
    && cs == bs[i := Read(bs[i], a, contents)][j := Read(bs[j], b, contents)]
  }

  lemma PinnedBuffer(bs: seq<Buf>, disk: Disk, contents: Disk, b: nat) returns (k: nat)
    requires Consistent(bs, disk, contents) && b in DirtyBlocks(bs)
    ensures k < |bs| && bs[k].dirty && Holds(bs[k], ROOTDEV, b)
  {
    k :| 0 <= k < |bs| && bs[k].dirty && bs[k].blockno == b;
    assert BufOk(bs[k], contents);
  }

  /** After block a has been read there is a buffer for block b, if b is
      pinned or nothing was in use before. */
  lemma SecondReady(bs: seq<Buf>, cs: seq<Buf>, disk: Disk, contents: Disk, i: nat, a: nat, b: nat)
    requires Consistent(bs, disk, contents) && Took(bs, cs, contents, i, a) && a != b
    requires b in DirtyBlocks(bs) || AllFree(bs)
    ensures Ready(cs, b) && (Unlocked(bs, b) ==> Unlocked(cs, b))
  {
    if b in DirtyBlocks(bs) {
      var k := PinnedBuffer(bs, disk, contents, b);
      assert k != i && Holds(cs[k], ROOTDEV, b);
    } else {
      var k := if i == 0 then 1 else 0;
      assert Recyclable(bs[k]) && Recyclable(cs[k]);
    }
  }

  lemma TookBoth(bs: seq<Buf>, cs: seq<Buf>, ds: seq<Buf>, disk: Disk, contents: Disk, i: nat, a: nat, j: nat, b: nat)
    requires Consistent(bs, disk, contents) && Took(bs, cs, contents, i, a) && Took(cs, ds, contents, j, b) && a != b
    ensures TookTwo(bs, ds, contents, i, a, j, b)
  {
    assert j != i;
    if b in DirtyBlocks(bs) {
      var k := PinnedBuffer(bs, disk, contents, b);
      assert k != i && Holds(cs[k], ROOTDEV, b);
    }
  }

  lemma TookSwap(bs: seq<Buf>, cs: seq<Buf>, contents: Disk, i: nat, a: nat, j: nat, b: nat)
    requires TookTwo(bs, cs, contents, i, a, j, b) && b in DirtyBlocks(bs) && a !in DirtyBlocks(bs)
    ensures TookTwo(bs, cs, contents, j, b, i, a)
  {
    hide DirtyBlocks;
    assert Holds(bs[j], ROOTDEV, b);
  }

  // ---- Releasing ----

  function Freed(b: Buf): Buf
    requires b.refcnt > 0
  {
    b.(locked := false, refcnt := b.refcnt - 1)
  }

  /** The state after the data of buffer i, block a, was written to block b
      through buffer j and both were released. */
  ghost predicate Copied(bs: seq<Buf>, cs: seq<Buf>, contents: Disk, i: nat, a: nat, j: nat, b: nat)
  {
    && PicksTwo(bs, contents, i, a, j, b)
    && cs == bs[i := Freed(Read(bs[i], a, contents))]
               [j := Freed(Read(bs[j], b, contents).(data := contents[a], dirty := false))]
  }

  lemma CopiedSpares(bs: seq<Buf>, cs: seq<Buf>, contents: Disk, i: nat, a: nat, j: nat, b: nat)
    requires Copied(bs, cs, contents, i, a, j, b)
    ensures SparedAll(bs, cs)
    ensures b !in DirtyBlocks(bs) ==> SamePins(bs, cs)
    ensures b in DirtyBlocks(bs) && Cached(bs, ROOTDEV, a) ==> SamePlaces(bs, cs)
  {
    hide DirtyBlocks;
    DirtyOne(bs, j);
    forall k | 0 <= k < |bs| ensures Spared(bs[k], cs[k]) {
      if k != i && k != j {
        assert cs[k] == bs[k];
      }
    }
  }

  lemma DirtyOne(bs: seq<Buf>, j: nat)
    requires j < |bs|
    ensures bs[j].dirty ==> bs[j].blockno in DirtyBlocks(bs)
  {
  }

  /** The state after buffer i, block a, was changed, written and released. */
  ghost predicate Stored(bs: seq<Buf>, cs: seq<Buf>, contents: Disk, i: nat, a: nat, data: Block)
  {
    && Picks(bs, contents, i, a)
    && cs == bs[i := Freed(Read(bs[i], a, contents).(data := data, dirty := false))]
  }

  lemma StoredSpares(bs: seq<Buf>, cs: seq<Buf>, contents: Disk, i: nat, a: nat, data: Block)
    requires Stored(bs, cs, contents, i, a, data) && a !in DirtyBlocks(bs)
    ensures SparedAll(bs, cs) && SamePins(bs, cs)
  {
    hide DirtyBlocks;
    DirtyOne(bs, i);
    forall k | 0 <= k < |bs| ensures Spared(bs[k], cs[k]) {
      if k != i {
        assert cs[k] == bs[k];
      }
    }
  }

  lemma ReleasedSpares(bs: seq<Buf>, cs: seq<Buf>, contents: Disk, i: nat, a: nat)
    requires Picks(bs, contents, i, a)
    requires cs == bs[i := Freed(Read(bs[i], a, contents))]
    ensures SparedAll(bs, cs)
  {
    forall k | 0 <= k < |bs| ensures Spared(bs[k], cs[k]) {
      if k != i {
        assert cs[k] == bs[k];
      }
    }
  }
}
