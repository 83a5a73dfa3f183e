/** The log of src/log.c, running on the buffer cache. */
module RedoLog {
  import opened Blocks
  import opened Common
  import opened LogSpec
  import opened Ring
  import opened BufferCache
  import opened Holders
  import opened GroupCommit

  function Elements(bs: seq<nat>): set<nat> { set i | 0 <= i < |bs| :: bs[i] }

  /** How the locked part of `end_op` ends. */
  datatype EndResult = EndPanic | OthersRemain | MustCommit

  /** How `end_op` ends; NoRoom is the panic of `bget`. */
  datatype FinishResult = StillOpen | Committed | NoRoom

  /** `bget` finds a buffer for the header and the first n blocks of the log. */
  predicate LogReady(bs: seq<Buf>, l: Layout, n: nat)
  {
    forall b :: l.start <= b <= l.start + n ==> Ready(bs, b)
  }

  /** Nobody has one of these blocks, the header or a block of the log locked. */
  predicate LogUnlocked(bs: seq<Buf>, l: Layout, lh: seq<nat>)
  {
    && (forall b :: l.start <= b <= l.start + |lh| ==> Unlocked(bs, b))
    && forall b :: b in lh ==> Unlocked(bs, b)
  }

  class Log {
    const cache: Cache
    const l: Layout
    var outstanding: nat
    var committing: bool
    var n: nat                  // log.lh.n
    const block: array<nat>     // log.lh.block
    ghost const d0: Disk        // what recovery makes of the disk at boot
    ghost var st: State         // the state of the commit protocol

    ghost predicate Valid()
      reads this`n, block, cache, cache.disk, cache.bufs, cache.next, cache.prev
    {
      && cache.Valid() && LayoutOk(l, |cache.contents|)
      && block.Length == LOGSIZE && n <= LOGSIZE
      && block != cache.next && block != cache.prev
    }

    ghost function Lh(): seq<nat>
      reads this`n, block
      requires n <= block.Length
    {
      block[..n]
    }

    ghost function Pinned(): set<nat>
      reads cache.bufs
    {
      DirtyBlocks(cache.bufs[..])
    }

    /** Between commits: the pinned blocks are exactly the logged ones, and
        the cache differs from the disk in no other block. */
    ghost predicate Open()
      reads this`n, block, cache, cache.disk, cache.bufs, cache.next, cache.prev
    {
      && Valid() && Pinned() == Elements(Lh())
      && OpenView(l, cache.disk.blocks, cache.contents, Lh())
    }

    /** The log is in state st of the commit protocol. */
    ghost predicate Tracks()
      reads this, block, cache, cache.disk
    {
      && n <= block.Length
      && Matches(l, d0, st, cache.disk.blocks, cache.contents, Lh(), outstanding, committing)
    }

    /** Before `initlog` runs `recover_from_log`. */
    constructor (cache: Cache, l: Layout)
      requires cache.Valid() && LayoutOk(l, |cache.contents|)
      ensures this.cache == cache && this.l == l && Valid() && fresh(block)
      ensures outstanding == 0 && !committing && n == 0
      ensures st == Boot(cache.disk.blocks)
      ensures DiskOk(l, cache.disk.blocks) ==> d0 == LogSpec.Recover(l, cache.disk.blocks)
    {
      this.cache, this.l := cache, l;
      outstanding, committing, n := 0, false, 0;
      block := new nat[LOGSIZE](i => 0);
      st := Boot(cache.disk.blocks);
      d0 := if DiskOk(l, cache.disk.blocks) then LogSpec.Recover(l, cache.disk.blocks) else cache.disk.blocks;
    }

    // ---- Copying blocks ----

    /** `bread` of two blocks, one after the other. */
    method ReadPair(a: nat, b: nat) returns (ok: bool, i: nat, j: nat)
      requires cache.Valid() && a < |cache.contents| && b < |cache.contents| && a != b
      requires Unlocked(cache.bufs[..], a) && Unlocked(cache.bufs[..], b)
      requires b in Pinned() || AllFree(cache.bufs[..])
      modifies cache.bufs
      ensures cache.Valid() && Pinned() == old(Pinned())
      ensures ok <==> Ready(old(cache.bufs[..]), a)
      ensures !ok ==> cache.bufs[..] == old(cache.bufs[..])
      ensures ok ==> TookTwo(old(cache.bufs[..]), cache.bufs[..], cache.contents, i, a, j, b)
    {
      hide DirtyBlocks, Unlocked, Ready, Took, TookTwo, AllFree;
      ghost var bs := cache.bufs[..];
      var r := cache.Bread(ROOTDEV, a);
      if r.NoBuffers? {
        return false, 0, 0;
      }
      i := r.b;
      ghost var cs := cache.bufs[..];
      SecondReady(bs, cs, cache.disk.blocks, cache.contents, i, a, b);
      r := cache.Bread(ROOTDEV, b);
      j := r.b;
      TookBoth(bs, cs, cache.bufs[..], cache.disk.blocks, cache.contents, i, a, j, b);
      return true, i, j;
    }

    /** The rest of a round of `write_log` or `install_trans`: the data of
        buffer i goes to buffer j and to its block, and both are released. */
    method CopyBuffer(i: nat, j: nat, ghost a: nat, ghost b: nat, ghost bs: seq<Buf>)
      requires cache.Valid() && TookTwo(bs, cache.bufs[..], cache.contents, i, a, j, b)
      modifies cache, cache.bufs, cache.next, cache.prev, cache.disk
      ensures cache.Valid()
      ensures cache.contents == old(cache.contents)[b := old(cache.contents)[a]]
      ensures Pinned() == old(Pinned()) - {b}
      ensures cache.disk.writes == old(cache.disk.writes) + [Write(b, old(cache.contents)[a])]
      ensures cache.disk.initial == old(cache.disk.initial)
      ensures Copied(bs, cache.bufs[..], old(cache.contents), i, a, j, b)
    {
      hide DirtyBlocks, Cache.Valid, Cache.Linked, Cached;
      cache.Facts();
      cache.Edit(j, cache.bufs[i].data);
      cache.Bwrite(j);
      ReleasePair(i, j);
    }

    method ReleasePair(i: nat, j: nat)
      requires cache.Valid() && cache.bufs.Length == NBUF && i < NBUF && j < NBUF && i != j
      requires cache.bufs[i].locked && cache.bufs[i].valid && cache.bufs[i].blockno < |cache.contents|
      requires cache.bufs[j].locked && cache.bufs[j].valid && cache.bufs[j].blockno < |cache.contents|
      requires cache.bufs[i].data == cache.contents[cache.bufs[i].blockno]
      requires cache.bufs[j].data == cache.contents[cache.bufs[j].blockno]
      modifies cache`order, cache`stamp, cache`clock, cache.bufs, cache.next, cache.prev
      ensures cache.Valid() && Pinned() == old(Pinned())
      ensures old(cache.bufs[i]).refcnt > 0 && old(cache.bufs[j]).refcnt > 0
      ensures cache.bufs[..] == old(cache.bufs[..])[i := Freed(old(cache.bufs[i]))][j := Freed(old(cache.bufs[j]))]
    {
      hide DirtyBlocks, Cache.Valid, Cache.Linked, MovedFront;
      cache.Brelse(i);
      cache.Brelse(j);
    }

    /** One round of `write_log`: the pinned block `src` is copied to the log
        block `dst` on disk; false is a panic. */
    method CopyOut(src: nat, dst: nat) returns (ok: bool)
      requires cache.Valid() && src < |cache.contents| && dst < |cache.contents| && src != dst
      requires Unlocked(cache.bufs[..], src) && Unlocked(cache.bufs[..], dst)
      requires src in Pinned() && dst !in Pinned()
      modifies cache, cache.bufs, cache.next, cache.prev, cache.disk
      ensures cache.Valid() && Pinned() == old(Pinned()) && cache.disk.initial == old(cache.disk.initial)
      ensures ok <==> Ready(old(cache.bufs[..]), dst)
      ensures !ok ==> cache.contents == old(cache.contents) && cache.disk.writes == old(cache.disk.writes)
      ensures ok ==>
                && cache.contents == old(cache.contents)[dst := old(cache.contents)[src]]
                && cache.disk.writes == old(cache.disk.writes) + [Write(dst, old(cache.contents)[src])]
      ensures SparedAll(old(cache.bufs[..]), cache.bufs[..]) && SamePins(old(cache.bufs[..]), cache.bufs[..])
    {
      hide DirtyBlocks, Unlocked, Ready, AllFree, Cache.Valid, SparedAll, SamePins;
      ghost var bs := cache.bufs[..];
      SparedSelf(bs);
      var to, from;
      ok, to, from := ReadPair(dst, src);
      if ok {
        TookSwap(bs, cache.bufs[..], cache.contents, to, dst, from, src);
        ghost var view := cache.contents;
        CopyBuffer(from, to, src, dst, bs);
        CopiedSpares(bs, cache.bufs[..], view, from, src, to, dst);
      }
    }

    /** One round of `install_trans`: the log block `src` is copied to its home
        `dst` on disk, which unpins it; false is a panic. */
    method CopyHome(src: nat, dst: nat) returns (ok: bool)
      requires cache.Valid() && src < |cache.contents| && dst < |cache.contents| && src != dst
      requires Unlocked(cache.bufs[..], src) && Unlocked(cache.bufs[..], dst)
      requires dst in Pinned() || AllFree(cache.bufs[..])
      modifies cache, cache.bufs, cache.next, cache.prev, cache.disk
      ensures cache.Valid() && cache.disk.initial == old(cache.disk.initial)
      ensures ok <==> Ready(old(cache.bufs[..]), src)
      ensures ok ==>
                && cache.contents == old(cache.contents)[dst := old(cache.contents)[src]]
                && Pinned() == old(Pinned()) - {dst}
                && cache.disk.writes == old(cache.disk.writes) + [Write(dst, old(cache.contents)[src])]
                && SparedAll(old(cache.bufs[..]), cache.bufs[..])
                && (dst in old(Pinned()) && Cached(old(cache.bufs[..]), ROOTDEV, src) ==>
                      SamePlaces(old(cache.bufs[..]), cache.bufs[..]))
      ensures !ok ==>
                && cache.contents == old(cache.contents) && cache.bufs[..] == old(cache.bufs[..])
                && cache.disk.writes == old(cache.disk.writes)
    {
      hide DirtyBlocks, Unlocked, Ready, AllFree, Cache.Valid, SparedAll, SamePins, SamePlaces, TookTwo, Copied;
      ghost var bs, view := cache.bufs[..], cache.contents;
      var lbuf, dbuf;
      ok, lbuf, dbuf := ReadPair(src, dst);
      if ok {
        CopyBuffer(lbuf, dbuf, src, dst, bs);
        CopiedSpares(bs, cache.bufs[..], view, lbuf, src, dbuf, dst);
      }
    }

    // ---- The four parts of a commit ----

    /** `write_log`; false is a panic after some of its writes. */
    method WriteLog() returns (ok: bool)
      requires Open() && LogUnlocked(cache.bufs[..], l, Lh())
      modifies cache, cache.bufs, cache.next, cache.prev, cache.disk
      ensures Valid() && Pinned() == old(Pinned()) && Lh() == old(Lh()) && |cache.contents| == |old(cache.contents)|
      ensures ok <==> forall b :: l.start < b <= l.start + n ==> Ready(old(cache.bufs[..]), b)
      ensures exists k :: 0 <= k <= n && (ok ==> k == n)
                          && BodyProgress(l, old(cache.contents), Lh(), k, cache.contents,
                                          old(cache.disk.writes), cache.disk.writes)
      ensures SparedAll(old(cache.bufs[..]), cache.bufs[..]) && SamePins(old(cache.bufs[..]), cache.bufs[..])
      ensures cache.disk.initial == old(cache.disk.initial)
    {
      hide Cache.Valid, BodyProgress, Elements, DirtyBlocks, Ready, Unlocked, SparedAll, SamePins;
      ghost var view, lh, w0, bs := cache.contents, Lh(), cache.disk.writes, cache.bufs[..];
      BodyProgressStart(l, view, lh, w0);
      SparedSelf(bs);
      var tail := 0;
      while tail < n
        invariant tail <= n && Valid() && Pinned() == Elements(lh) && Lh() == lh
        invariant SparedAll(bs, cache.bufs[..]) && SamePins(bs, cache.bufs[..])
        invariant forall b :: l.start < b <= l.start + tail ==> Ready(bs, b)
        invariant BodyProgress(l, view, lh, tail, cache.contents, w0, cache.disk.writes)
        invariant |cache.contents| == |view|
        invariant cache.disk.initial == old(cache.disk.initial)
      {
        ghost var cs := cache.bufs[..];
        BodyProgressStep(l, view, lh, tail, cache.contents, w0, cache.disk.writes);
        SparedKeeps(bs, cs);
        SameReady(bs, cs, l.start + tail + 1);
        ok := CopyOut(block[tail], l.start + tail + 1);
        SparedTrans(bs, cs, cache.bufs[..]);
        if !ok {
          return false;
        }
        tail := tail + 1;
      }
      return true;
    }

    /** `write_head`; false is a panic. */
    method WriteHead() returns (ok: bool)
      requires Valid() && Unlocked(cache.bufs[..], l.start) && Encodable(Lh()) && l.start !in Pinned()
      modifies cache, cache.bufs, cache.next, cache.prev, cache.disk
      ensures Valid() && Pinned() == old(Pinned()) && Lh() == old(Lh())
      ensures ok <==> Ready(old(cache.bufs[..]), l.start)
      ensures ok ==>
                && cache.contents == old(cache.contents)[l.start := EncodeHeader(old(cache.contents)[l.start], Lh())]
                && cache.disk.writes == old(cache.disk.writes) + [Write(l.start, cache.contents[l.start])]
      ensures !ok ==> cache.contents == old(cache.contents) && cache.disk.writes == old(cache.disk.writes)
      ensures SparedAll(old(cache.bufs[..]), cache.bufs[..]) && SamePins(old(cache.bufs[..]), cache.bufs[..])
      ensures cache.disk.initial == old(cache.disk.initial)
    {
      hide DirtyBlocks, Unlocked, Ready, SparedAll, SamePins, EncodeHeader, Encodable;
      ghost var bs := cache.bufs[..];
      SparedSelf(bs);
      var r := cache.Bread(ROOTDEV, l.start);
      if r.NoBuffers? {
        return false;
      }
      var hb := EncodeEntries(cache.bufs[r.b].data);
      StoreOne(r.b, hb, l.start, bs);
      return true;
    }

    /** Changing, writing and releasing a buffer just read. */
    method StoreOne(i: nat, data: Block, ghost a: nat, ghost bs: seq<Buf>)
      requires cache.Valid() && Took(bs, cache.bufs[..], cache.contents, i, a)
      requires a !in DirtyBlocks(bs) && DirtyBlocks(bs) == Pinned()
      modifies cache, cache.bufs, cache.next, cache.prev, cache.disk
      ensures cache.Valid() && Pinned() == old(Pinned())
      ensures cache.contents == old(cache.contents)[a := data]
      ensures cache.disk.writes == old(cache.disk.writes) + [Write(a, data)]
      ensures cache.disk.initial == old(cache.disk.initial)
      ensures SparedAll(bs, cache.bufs[..]) && SamePins(bs, cache.bufs[..])
    {
      hide DirtyBlocks, SparedAll, SamePins, Cache.Valid, Cache.Linked, Cached, MovedFront;
      cache.Facts();
      ghost var view, cs := cache.contents, cache.bufs[..];
      cache.Edit(i, data);
      assert cache.bufs[i] == cs[i].(data := data);
      cache.Bwrite(i);
      assert cache.bufs[i] == cs[i].(data := data, dirty := false) && cache.contents[a] == data;
      cache.Brelse(i);
      assert cache.bufs[..] == cs[i := Freed(cs[i].(data := data, dirty := false))];
      StoredSpares(bs, cache.bufs[..], view, i, a, data);
    }

    /** The loop of `write_head`. */
    method EncodeEntries(data: Block) returns (hb: Block)
      requires n <= block.Length && Encodable(Lh())
      ensures hb == EncodeHeader(data, Lh())
    {
      hb := PutWord(data, 0, n);
      var i := 0;
      assert Lh()[..0] == [];
      while i < n
        invariant i <= n && hb == PutWords(PutWord(data, 0, n), 1, Lh()[..i])
      {
        assert Lh()[..i + 1][..i] == Lh()[..i];
        hb := PutWord(hb, i + 1, block[i]);
        i := i + 1;
      }
      assert Lh()[..n] == Lh();
    }

    /** `install_trans`: during a commit every destination is pinned, during
        recovery nothing is in use. False is a panic after some of its writes,
        which cannot happen if there were buffers for the blocks of the log. */
    method InstallTrans(ghost pinned: bool) returns (ok: bool)
      requires Valid() && HomeList(l, |cache.contents|, Lh()) && LogUnlocked(cache.bufs[..], l, Lh())
      requires Pinned() == StillPinned(pinned, Lh(), 0) && (pinned || AllFree(cache.bufs[..]))
      modifies cache, cache.bufs, cache.next, cache.prev, cache.disk
      ensures Valid() && Lh() == old(Lh()) && |cache.contents| == |old(cache.contents)|
      ensures LogReady(old(cache.bufs[..]), l, n) ==> ok && LogReady(cache.bufs[..], l, old(n))
      ensures ok ==> Pinned() == {}
      ensures exists k :: 0 <= k <= n && (ok ==> k == n)
                          && HomeProgress(l, old(cache.contents), Lh(), k, cache.contents,
                                          old(cache.disk.writes), cache.disk.writes)
      ensures SparedAll(old(cache.bufs[..]), cache.bufs[..])
      ensures cache.disk.initial == old(cache.disk.initial)
    {
      hide Cache.Valid, HomeProgress, StillPinned, DirtyBlocks, Ready, Unlocked, SparedAll, AllFree;
      ghost var view, lh, w0, bs := cache.contents, Lh(), cache.disk.writes, cache.bufs[..];
      HomeProgressStart(l, view, lh, w0);
      SparedSelf(bs);
      var tail := 0;
      while tail < n
        invariant tail <= n && Valid() && Lh() == lh
        invariant Pinned() == StillPinned(pinned, lh, tail)
        invariant SparedAll(bs, cache.bufs[..])
        invariant LogReady(bs, l, n) ==> LogReady(cache.bufs[..], l, n)
        invariant HomeProgress(l, view, lh, tail, cache.contents, w0, cache.disk.writes)
        invariant |cache.contents| == |view|
        invariant cache.disk.initial == old(cache.disk.initial)
      {
        ghost var cs := cache.bufs[..];
        StillPinnedStep(pinned, lh, tail);
        HomeProgressStep(l, view, lh, tail, cache.contents, w0, cache.disk.writes);
        SparedKeeps(bs, cs);
        ok := CopyHome(l.start + tail + 1, block[tail]);
        if !ok {
          return false;
        }
        SparedTrans(bs, cs, cache.bufs[..]);
        StillReady(cs, cache.bufs[..], l, n, tail, lh[tail]);
        tail := tail + 1;
      }
      NonePinned(pinned, lh);
      return true;
    }

    // ---- Commit and recovery ----

    /** `commit`. It fails, with the panic of `bget`, exactly when there is
        something to commit and no buffer for the header or for one of the
        log blocks. Its disk writes are those of the specification, and a
        crash or a panic after any number of them recovers to exactly the old
        or exactly the new contents. */
    method Commit() returns (ok: bool)
      requires Open() && LogUnlocked(cache.bufs[..], l, Lh())
      modifies this`n, cache, cache.bufs, cache.next, cache.prev, cache.disk
      ensures ok <==> old(n) == 0 || LogReady(old(cache.bufs[..]), l, old(n))
      ensures ok ==>
                && Open() && n == 0
                && cache.disk.writes == old(cache.disk.writes) + CommitWrites(l, old(cache.contents), old(Lh()))
                && cache.contents == cache.disk.blocks && SameHomes(l, cache.contents, old(cache.contents))
      ensures cache.disk.blocks == Replay(cache.disk.initial, cache.disk.writes)
      ensures !ok ==>
                && Valid() && Lh() == old(Lh())
                && exists k :: 0 <= k <= old(n)
                               && WroteSome(cache.disk.writes, old(cache.disk.writes),
                                            CommitWrites(l, old(cache.contents), old(Lh())), k)
      ensures SparedAll(old(cache.bufs[..]), cache.bufs[..]) && cache.disk.initial == old(cache.disk.initial)
      ensures forall k :: 0 <= k <= |CommitWrites(l, old(cache.contents), old(Lh()))| ==>
                var e := CommitCut(l, old(cache.disk.blocks), old(cache.contents), old(Lh()), k);
                && DiskOk(l, e)
                && SameHomes(l, Recover(l, e), if k <= old(n) then old(cache.disk.blocks) else old(cache.contents))
    {
      hide Cache.Valid, DirtyBlocks, CommitWrites, Elements, HeaderOf, SparedAll, WroteSome, LogReady, LogUnlocked;
      cache.Facts();
      ghost var view, lh, d, w0 := cache.contents, Lh(), cache.disk.blocks, cache.disk.writes;
      AllCuts(l, d, view, lh);
      SparedSelf(cache.bufs[..]);
      ok := true;
      if n > 0 {
        ok := RunCommit();
      } else {
        CommitNothing(l, view, lh);
      }
      cache.Facts();
      if ok {
        CommittedOpen(w0, d, view, lh);
      }
    }

    /** A commit that has something to write. */
    method RunCommit() returns (ok: bool)
      requires Open() && LogUnlocked(cache.bufs[..], l, Lh()) && n > 0
      modifies this`n, cache, cache.bufs, cache.next, cache.prev, cache.disk
      ensures Valid() && |cache.contents| == |old(cache.contents)| && cache.disk.initial == old(cache.disk.initial)
      ensures ok <==> LogReady(old(cache.bufs[..]), l, old(n))
      ensures ok ==>
                && n == 0 && Pinned() == {}
                && cache.disk.writes == old(cache.disk.writes) + CommitWrites(l, old(cache.contents), old(Lh()))
      ensures !ok ==>
                && Lh() == old(Lh())
                && exists k :: 0 <= k <= old(n)
                               && WroteSome(cache.disk.writes, old(cache.disk.writes),
                                            CommitWrites(l, old(cache.contents), old(Lh())), k)
      ensures SparedAll(old(cache.bufs[..]), cache.bufs[..])
    {
      hide Cache.Valid, BodyProgress, HomeProgress, StillPinned, DirtyBlocks, CommitWrites, Elements, EncodeHeader;
      hide SparedAll, SamePins, WroteSome, Ready, Unlocked;
      ghost var view, lh, w0, bs := cache.contents, Lh(), cache.disk.writes, cache.bufs[..];
      PinFacts(l, |view|, lh);
      ok := WriteLog();
      ghost var c1, w1, bs1 := cache.contents, cache.disk.writes, cache.bufs[..];
      ghost var k :| 0 <= k <= n && (ok ==> k == n) && BodyProgress(l, view, lh, k, c1, w0, w1);
      BodyCut(l, view, lh, k, c1, w0, w1);
      if !ok {
        return false;
      }
      StillOthers(bs, bs1, l, lh);
      ok := WriteHead();
      ghost var c2, w2, bs2 := cache.contents, cache.disk.writes, cache.bufs[..];
      SparedTrans(bs, bs1, bs2);
      if !ok {
        return false;
      }
      StillOthers(bs, bs2, l, lh);
      ok := InstallTrans(true);
      ghost var c3, w3, bs3 := cache.contents, cache.disk.writes, cache.bufs[..];
      ghost var h :| 0 <= h <= n && (ok ==> h == n) && HomeProgress(l, c2, lh, h, c3, w2, w3);
      SparedTrans(bs, bs2, bs3);
      StillUnlocked(bs, bs3, l, lh);
      n := 0;
      ok := WriteHead();
      SparedTrans(bs, bs3, cache.bufs[..]);
      CommitGlue(l, view, lh, w0, c1, w1, c2, w2, c3, w3);
    }

    /** `read_head`, at boot. */
    method ReadHead()
      requires Valid() && AllFree(cache.bufs[..]) && Word(cache.contents[l.start], 0) <= LOGSIZE
      modifies this`n, block, cache`order, cache`stamp, cache`clock, cache.bufs, cache.next, cache.prev
      ensures Valid() && AllFree(cache.bufs[..]) && Lh() == HeaderOf(cache.contents[l.start])
    {
      hide DirtyBlocks, Cache.Valid, Cache.Linked, Cached, MovedFront, AllFree, LogReady, LogUnlocked, SparedAll;
      cache.Facts();
      ghost var bs := cache.bufs[..];
      FreeFacts([]);
      var r := cache.Bread(ROOTDEV, l.start);
      var data := cache.bufs[r.b].data;
      cache.Brelse(r.b);
      ReleasedSpares(bs, cache.bufs[..], cache.contents, r.b, l.start);
      SparedKeeps(bs, cache.bufs[..]);
      DecodeEntries(data);
    }

    /** The loop of `read_head`. */
    method DecodeEntries(data: Block)
      requires block.Length == LOGSIZE && Word(data, 0) <= LOGSIZE
      modifies this`n, block
      ensures n <= LOGSIZE && Lh() == HeaderOf(data)
    {
      hide Word;
      n := Word(data, 0);
      var i := 0;
      while i < n
        invariant i <= n == Word(data, 0)
        invariant forall j :: 0 <= j < i ==> block[j] == Word(data, j + 1)
      {
        block[i] := Word(data, i + 1);
        i := i + 1;
      }
    }

    /** `recover_from_log`, at boot: in the protocol, all writes of the
        recovery and its end. */
    method RecoverFromLog()
      requires Valid() && AllFree(cache.bufs[..]) && DiskOk(l, cache.disk.blocks) && outstanding == 0 && !committing
      requires st == Boot(cache.disk.blocks) && d0 == LogSpec.Recover(l, cache.disk.blocks)
      modifies this`n, this`st, block, cache, cache.bufs, cache.next, cache.prev, cache.disk
      ensures Open() && Tracks() && AllFree(cache.bufs[..]) && n == 0 && cache.disk.initial == old(cache.disk.initial)
      ensures cache.disk.writes == old(cache.disk.writes) + RecoverWrites(l, old(cache.disk.blocks))
      ensures cache.disk.blocks == LogSpec.Recover(l, old(cache.disk.blocks))
      ensures cache.contents == cache.disk.blocks
      ensures CanAdvance(l, old(st), |RecoverWrites(l, old(cache.disk.blocks))|)
      ensures st == DoFinish(Advanced(l, old(st), |RecoverWrites(l, old(cache.disk.blocks))|))
    {
      hide Cache.Valid, DirtyBlocks, RecoverWrites, AllFree, LogReady, LogUnlocked, OpenView, Matches;
      FreeFacts([]);
      ghost var d, w0 := cache.disk.blocks, cache.disk.writes;
      RunRecovery();
      RecoveredOpen(w0, d);
      BootMatches(l, d0, d);
      st := DoFinish(Advanced(l, st, |RecoverWrites(l, d)|));
    }

    /** The writes of a recovery. */
    method RunRecovery()
      requires Valid() && AllFree(cache.bufs[..]) && DiskOk(l, cache.disk.blocks)
      modifies this`n, block, cache, cache.bufs, cache.next, cache.prev, cache.disk
      ensures Valid() && AllFree(cache.bufs[..]) && Pinned() == {} && n == 0
      ensures cache.disk.initial == old(cache.disk.initial) && |cache.contents| == |old(cache.contents)|
      ensures cache.disk.writes == old(cache.disk.writes) + RecoverWrites(l, old(cache.disk.blocks))
    {
      hide Cache.Valid, HomeProgress, DirtyBlocks, HeaderOf, StillPinned, RecoverWrites, AllFree, LogReady, LogUnlocked;
      hide EncodeHeader, SparedAll, SamePins;
      ghost var d, w0 := cache.disk.blocks, cache.disk.writes;
      FreeFacts([]);
      NotPinned(HeaderOf(d[l.start]));
      ReadHead();
      ghost var bs := cache.bufs[..];
      FreeFacts(Lh());
      var ok := InstallTrans(false);
      ghost var c1, w1, cs := cache.contents, cache.disk.writes, cache.bufs[..];
      ghost var k :| 0 <= k <= n && (ok ==> k == n) && HomeProgress(l, d, HeaderOf(d[l.start]), k, c1, w0, w1);
      SparedKeeps(bs, cs);
      FreeFacts([]);
      n := 0;
      ok := WriteHead();
      SparedKeeps(cs, cache.bufs[..]);
      RecoverGlue(l, d, HeaderOf(d[l.start]), w0, c1, w1);
    }

    /** At boot nothing is pinned and every block can be read. */
    lemma FreeFacts(lh: seq<nat>)
      requires Valid() && AllFree(cache.bufs[..])
      ensures Pinned() == {} && cache.contents == cache.disk.blocks == Replay(cache.disk.initial, cache.disk.writes)
      ensures LogReady(cache.bufs[..], l, |lh|) && LogUnlocked(cache.bufs[..], l, lh)
      ensures Unlocked(cache.bufs[..], l.start) && Ready(cache.bufs[..], l.start)
    {
      var bs := cache.bufs[..];
      assert Recyclable(bs[0]);
      forall i | 0 <= i < |bs| ensures !bs[i].dirty && !bs[i].locked {
        assert Recyclable(bs[i]) && BufOk(bs[i], cache.contents);
      }
    }

    lemma RecoveredOpen(w0: seq<Write>, d: Disk)
      requires Valid() && n == 0 && Pinned() == {} && |cache.contents| == |d|
      requires DiskOk(l, d) && d == Replay(cache.disk.initial, w0)
      requires cache.disk.writes == w0 + RecoverWrites(l, d)
      ensures Open() && cache.disk.blocks == LogSpec.Recover(l, d) && cache.contents == cache.disk.blocks
    {
      hide RecoverWrites, HeaderOf, DirtyBlocks;
      ReplayConcat(cache.disk.initial, w0, RecoverWrites(l, d));
      StandsForRecovered(l, d);
      RecoverSound(l, d, LogSpec.Recover(l, d));
      assert cache.contents == cache.disk.blocks;
      assert Elements([]) == {};
    }

    /** With its writes done a commit leaves the log open and empty. */
    lemma CommittedOpen(w0: seq<Write>, d: Disk, view: Disk, lh: seq<nat>)
      requires Valid() && n == 0 && Pinned() == {} && |cache.contents| == |view|
      requires OpenView(l, d, view, lh) && d == Replay(cache.disk.initial, w0)
      requires cache.disk.writes == w0 + CommitWrites(l, view, lh)
      ensures Open() && SameHomes(l, cache.contents, view) && SameHomes(l, cache.disk.blocks, view)
      ensures cache.contents == cache.disk.blocks == Replay(d, CommitWrites(l, view, lh))
    {
      hide CommitWrites, HeaderOf, DirtyBlocks;
      var ws := CommitWrites(l, view, lh);
      ReplayConcat(cache.disk.initial, w0, ws);
      assert ws[..|ws|] == ws;
      CrashAtomic(l, d, view, lh, |ws|);
      assert cache.contents == cache.disk.blocks;
      assert Elements([]) == {};
    }

    // ---- The steps of an operation ----

    lemma OpenFacts()
      requires Open()
      ensures Valid() && n <= block.Length == LOGSIZE && cache.bufs.Length == NBUF
      ensures LayoutOk(l, |cache.contents|) && HomeList(l, |cache.contents|, Lh())
      ensures cache.disk.blocks == Replay(cache.disk.initial, cache.disk.writes)
    {
    }

    /** The critical section of `begin_op` for a new operation: its step in the
        protocol, or none and the caller sleeps. */
    method BeginOp(ghost op: Op) returns (admitted: bool)
      requires Tracks() && op !in st.used
      modifies this`outstanding, this`st
      ensures Tracks() && (admitted <==> CanBegin(old(st), op))
      ensures admitted <==> !committing && n + (old(outstanding) + 1) * MAXOPBLOCKS <= LOGSIZE
      ensures st == (if admitted then DoBegin(old(st), op) else old(st))
      ensures outstanding == old(outstanding) + if admitted then 1 else 0
    {
      hide Inv, Overlay;
      if committing {
        return false;
      } else if n + (outstanding + 1) * MAXOPBLOCKS > LOGSIZE {
        return false;
      } else {
        BeginMatches(l, d0, st, op, cache.disk.blocks, cache.contents, Lh(), outstanding);
        outstanding := outstanding + 1;
        st := DoBegin(st, op);
        return true;
      }
    }

    /** The first critical section of `end_op` of an outstanding operation: its
        step in the protocol. The panic cannot happen. */
    method EndOp(ghost op: Op) returns (r: EndResult)
      requires Tracks() && op in st.ops
      modifies this`outstanding, this`committing, this`st
      ensures Tracks() && st == DoEnd(old(st), op) && outstanding == old(outstanding) - 1
      ensures r != EndPanic && (r == MustCommit <==> st.phase.Committing?)
      ensures r == MustCommit <==> outstanding == 0
      ensures committing == (r == MustCommit)
    {
      hide Inv, Matches;
      EndMatches(l, d0, st, op, cache.disk.blocks, cache.contents, Lh(), outstanding, committing);
      outstanding := outstanding - 1;
      if committing {
        return EndPanic;
      }
      st := DoEnd(st, op);
      if outstanding == 0 {
        committing := true;
        return MustCommit;
      }
      return OthersRemain;
    }

    /** `end_op`: the last operation out commits the group. In the protocol,
        the end of the operation and, if it is the last one, all writes of
        the commit and its end; or, if `commit` panics, some of the writes
        before the header is written. */
    method FinishOp(ghost op: Op) returns (r: FinishResult)
      requires Open() && Tracks() && op in st.ops && LogUnlocked(cache.bufs[..], l, Lh())
      modifies this`outstanding, this`committing, this`n, this`st
      modifies cache, cache.bufs, cache.next, cache.prev, cache.disk
      ensures outstanding == old(outstanding) - 1
      ensures r == StillOpen <==> old(outstanding) > 1
      ensures r == NoRoom <==> old(outstanding) == 1 && old(n) > 0 && !LogReady(old(cache.bufs[..]), l, old(n))
      ensures r == StillOpen ==>
                Tracks() && st == DoEnd(old(st), op) && unchanged(cache, cache.bufs, cache.next, cache.prev, cache.disk)
      ensures r == Committed ==>
                var s := DoEnd(old(st), op);
                && Open() && Tracks() && SameHomes(l, cache.disk.blocks, old(cache.contents))
                && WritesDefined(l, s) && CanAdvance(l, s, |Writes(l, s)|)
                && st == DoFinish(Advanced(l, s, |Writes(l, s)|))
      ensures r == NoRoom ==>
                var s := DoEnd(old(st), op);
                st.disk == cache.disk.blocks && exists k :: 0 <= k <= old(n) && Stopped(l, s, st, k)
    {
      hide Log.Open, Log.Valid, Cache.Valid, DirtyBlocks, CommitWrites, Elements, OpenView, LogReady, LogUnlocked, Inv;
      hide Matches, HomeList, LayoutOk, SameHomes, WroteSome, SparedAll, CommitCut, Replay, Recover;
      OpenFacts();
      ghost var view, lh, w0, d := cache.contents, Lh(), cache.disk.writes, cache.disk.blocks;
      var e := EndOp(op);
      if e == OthersRemain {
        return StillOpen;
      }
      var ok := Commit();
      if !ok {
        ghost var k :| 0 <= k <= old(n) && WroteSome(cache.disk.writes, w0, CommitWrites(l, view, lh), k);
        PartMatches(l, d0, st, d, view, lh, cache.disk.initial, w0, cache.disk.writes, k);
        ghost var s := st;
        st := Advanced(l, s, k);
        assert Stopped(l, s, st, k);
        return NoRoom;
      }
      committing := false;
      CommitMatches(l, d0, st, d, view, lh, cache.disk.initial, w0, cache.disk.blocks);
      st := DoFinish(Advanced(l, st, |Writes(l, st)|));
      return Committed;
    }

    /** `log_write` of a buffer that the caller, operation op, holds; true is a
        panic. Logging a home block is the operation's step in the protocol. */
    method LogWrite(b: nat, ghost op: Op) returns (panicked: bool)
      requires Open() && Tracks() && b < NBUF && cache.bufs[b].locked && cache.bufs[b].valid
      requires outstanding > 0 ==> op in st.ops
      modifies this`n, this`st, block, cache`contents, cache.bufs
      ensures panicked <==> TooBig(l, old(Lh())) || outstanding < 1
      ensures panicked ==> unchanged(this, block, cache, cache.bufs)
      ensures Valid()
      ensures !panicked ==>
                var x := old(cache.bufs[b]).blockno;
                && Lh() == (if x in old(Lh()) then old(Lh()) else old(Lh()) + [x])
                && x < |old(cache.contents)|
                && cache.contents == old(cache.contents)[x := old(cache.bufs[b]).data]
                && Pinned() == old(Pinned()) + {x}
      ensures !panicked && !InLog(l, old(cache.bufs[b]).blockno) ==>
                && Open() && Tracks() && op in old(st).ops
                && st == DoLogWrite(old(st), op, old(cache.bufs[b]).blockno, old(cache.bufs[b]).data)
    {
      hide Log.Open, Log.Valid, Inv, DirtyBlocks, Elements, Cache.Valid, OpenView, Matches, HomeList, Replay;
      OpenFacts();
      if n >= LOGSIZE || n + 1 >= l.size {
        return true;
      }
      if outstanding < 1 {
        return true;
      }
      ghost var x, data, lh, view := cache.bufs[b].blockno, cache.bufs[b].data, Lh(), cache.contents;
      Record(b);
      if !InLog(l, x) {
        LogWriteMatches(l, d0, st, op, cache.disk.blocks, view, lh, outstanding, committing, x, data);
        st := DoLogWrite(st, op, x, data);
      }
      return false;
    }

    /** The rest of `log_write`: the block joins the list and is pinned. */
    method Record(b: nat)
      requires Open() && b < NBUF && n < LOGSIZE && n + 1 < l.size && cache.bufs[b].locked && cache.bufs[b].valid
      modifies this`n, block, cache`contents, cache.bufs
      ensures var x := old(cache.bufs[b]).blockno;
              && Valid() && n <= block.Length && Lh() == (if x in old(Lh()) then old(Lh()) else old(Lh()) + [x])
              && x < |old(cache.contents)|
              && cache.contents == old(cache.contents)[x := old(cache.bufs[b]).data]
              && Pinned() == old(Pinned()) + {x}
      ensures !InLog(l, old(cache.bufs[b]).blockno) ==> Open()
    {
      hide DirtyBlocks, Elements, Cache.Valid, OpenView;
      cache.Facts();
      var x := cache.bufs[b].blockno;
      ghost var lh, view := Lh(), cache.contents;
      Absorb(x);
      cache.Pin(b);
      if !InLog(l, x) {
        StillOpenView(l, cache.disk.blocks, view, lh, x, cache.bufs[b].data);
      }
    }

    /** The loop of `log_write`: the block joins the list unless it is there. */
    method Absorb(x: nat)
      requires block.Length == LOGSIZE && n < LOGSIZE
      modifies this`n, block
      ensures n <= LOGSIZE
      ensures Lh() == if x in old(Lh()) then old(Lh()) else old(Lh()) + [x]
    {
      var i := 0;
      while i < n
        invariant i <= n && x !in block[..i]
      {
        if block[i] == x {
          break;
        }
        i := i + 1;
      }
      ghost var lh := Lh();
      block[i] := x;
      if i == n {
        n := n + 1;
        assert Lh() == lh + [x];
      } else {
        assert lh[i] == x && Lh() == lh;
      }
    }
  }

  // ---- Steps of the protocol ----

  /** State s of the protocol as the log sees it. */
  ghost predicate Matches(l: Layout, d0: Disk, s: State, disk: Disk, contents: Disk, lh: seq<nat>,
                          outstanding: nat, committing: bool)
  {
    && Inv(l, d0, s) && !s.phase.Recovering? && s.disk == disk && s.lh == lh
    && Overlay(s.disk, s.dirty) == contents && |s.ops| == outstanding
    && (committing <==> s.phase.Committing?) && (committing ==> s.phase == Committing(disk, 0))
  }

  lemma BeginMatches(l: Layout, d0: Disk, s: State, op: Op, disk: Disk, contents: Disk, lh: seq<nat>, outstanding: nat)
    requires Matches(l, d0, s, disk, contents, lh, outstanding, false) && CanBegin(s, op)
    ensures Matches(l, d0, DoBegin(s, op), disk, contents, lh, outstanding + 1, false)
  {
    hide Inv;
    BeginInv(l, d0, s, op);
    UnusedOp(l, d0, s, op);
    assert s.ops[op := {}].Keys == s.ops.Keys + {op};
  }

  lemma EndMatches(l: Layout, d0: Disk, s: State, op: Op, disk: Disk, contents: Disk, lh: seq<nat>,
                   outstanding: nat, committing: bool)
    requires Matches(l, d0, s, disk, contents, lh, outstanding, committing) && op in s.ops
    ensures !committing && outstanding > 0 && (DoEnd(s, op).phase.Committing? <==> outstanding == 1)
    ensures Matches(l, d0, DoEnd(s, op), disk, contents, lh, outstanding - 1, outstanding == 1)
  {
    hide Inv;
    RunningOps(l, d0, s, op);
    EndInv(l, d0, s, op);
    var rest := s.ops - {op};
    assert rest.Keys == s.ops.Keys - {op};
    assert |rest| == |s.ops| - 1;
  }

  lemma UnusedOp(l: Layout, d0: Disk, s: State, op: Op)
    requires Inv(l, d0, s) && op !in s.used
    ensures op !in s.ops
  {
    hide DiskInv, Listed;
  }

  lemma RunningOps(l: Layout, d0: Disk, s: State, op: Op)
    requires Inv(l, d0, s) && op in s.ops
    ensures s.phase.Running? && s.ops != map[]
  {
  }

  lemma LogWriteMatches(l: Layout, d0: Disk, s: State, op: Op, disk: Disk, contents: Disk, lh: seq<nat>,
                        outstanding: nat, committing: bool, x: nat, data: Block)
    requires Matches(l, d0, s, disk, contents, lh, outstanding, committing) && op in s.ops
    requires LayoutOk(l, |contents|) && x < |contents| && !InLog(l, x) && !TooBig(l, lh)
    ensures Matches(l, d0, DoLogWrite(s, op, x, data), disk, contents[x := data],
                    if x in lh then lh else lh + [x], outstanding, committing)
  {
    hide Inv;
    RunningOps(l, d0, s, op);
    LogWriteInv(l, |s.ops[op] + {x}|, d0, s, op, x, data);
    var t := DoLogWrite(s, op, x, data);
    assert t.ops.Keys == s.ops.Keys;
    assert Overlay(t.disk, t.dirty) == contents[x := data];
  }

  /** All writes of a recovery, and its end. */
  lemma BootMatches(l: Layout, d0: Disk, d: Disk)
    requires DiskOk(l, d) && d0 == Recover(l, d)
    ensures CanAdvance(l, Boot(d), |RecoverWrites(l, d)|)
    ensures Matches(l, d0, DoFinish(Advanced(l, Boot(d), |RecoverWrites(l, d)|)), d0, d0, [], 0, false)
  {
    hide RecoverWrites, Replay, DiskOk;
    var s, ws := Boot(d), RecoverWrites(l, d);
    BootInv(l, d);
    AdvancedInv(l, d0, s, |ws|);
    AdvancedWrites(l, s, |ws|);
    FinishInv(l, d0, Advanced(l, s, |ws|));
    assert ws[0..|ws|] == ws;
    assert Overlay(d0, map[]) == d0;
  }

  /** All writes of a commit, and its end. */
  lemma CommitMatches(l: Layout, d0: Disk, s: State, d: Disk, view: Disk, lh: seq<nat>,
                      initial: Disk, w0: seq<Write>, now: Disk)
    requires Matches(l, d0, s, d, view, lh, 0, true) && d == Replay(initial, w0)
    requires LayoutOk(l, |view|) && HomeList(l, |view|, lh) && now == Replay(initial, w0 + CommitWrites(l, view, lh))
    ensures WritesDefined(l, s) && CanAdvance(l, s, |Writes(l, s)|)
    ensures Matches(l, d0, DoFinish(Advanced(l, s, |Writes(l, s)|)), now, now, [], 0, false)
  {
    hide CommitWrites, Replay, Inv;
    var ws := CommitWrites(l, view, lh);
    assert Writes(l, s) == ws;
    AdvancedInv(l, d0, s, |ws|);
    AdvancedWrites(l, s, |ws|);
    FinishInv(l, d0, Advanced(l, s, |ws|));
    assert ws[0..|ws|] == ws;
    ReplayConcat(initial, w0, ws);
    assert Overlay(now, map[]) == now;
  }

  /** The commit of state s has stopped in state t after k writes. */
  ghost predicate Stopped(l: Layout, s: State, t: State, k: nat)
  {
    CanAdvance(l, s, k) && t == Advanced(l, s, k)
  }

  /** Some writes of a commit. */
  lemma PartMatches(l: Layout, d0: Disk, s: State, d: Disk, view: Disk, lh: seq<nat>,
                    initial: Disk, w0: seq<Write>, ws: seq<Write>, k: nat)
    requires Matches(l, d0, s, d, view, lh, 0, true) && d == Replay(initial, w0)
    requires LayoutOk(l, |view|) && HomeList(l, |view|, lh) && WroteSome(ws, w0, CommitWrites(l, view, lh), k)
    ensures CanAdvance(l, s, k) && Advanced(l, s, k).disk == Replay(initial, ws)
  {
    hide CommitWrites, Replay, Inv;
    var all := CommitWrites(l, view, lh);
    assert Writes(l, s) == all;
    assert all[0..k] == all[..k];
    ReplayConcat(initial, w0, all[..k]);
  }

  // ---- The buffers of others ----

  lemma StillUnlocked(bs: seq<Buf>, cs: seq<Buf>, l: Layout, lh: seq<nat>)
    requires SparedAll(bs, cs) && LogUnlocked(bs, l, lh)
    ensures LogUnlocked(cs, l, lh) && Unlocked(cs, l.start)
  {
    hide SparedAll, Unlocked;
    SparedKeeps(bs, cs);
  }

  lemma StillOthers(bs: seq<Buf>, cs: seq<Buf>, l: Layout, lh: seq<nat>)
    requires SparedAll(bs, cs) && SamePins(bs, cs) && LogUnlocked(bs, l, lh)
    ensures LogUnlocked(cs, l, lh) && Unlocked(cs, l.start)
    ensures Ready(cs, l.start) <==> Ready(bs, l.start)
    ensures LogReady(cs, l, |lh|) <==> LogReady(bs, l, |lh|)
  {
    hide SparedAll, SamePins, Unlocked, Ready;
    StillUnlocked(bs, cs, l, lh);
    forall b ensures Ready(cs, b) <==> Ready(bs, b) {
      SameReady(bs, cs, b);
    }
  }

  /** Installing a block takes no buffer away from the log. */
  lemma StillReady(bs: seq<Buf>, cs: seq<Buf>, l: Layout, n: nat, tail: nat, home: nat)
    requires SparedAll(bs, cs) && tail < n && (home in DirtyBlocks(bs) || AllFree(bs))
    requires home in DirtyBlocks(bs) && Cached(bs, ROOTDEV, l.start + tail + 1) ==> SamePlaces(bs, cs)
    ensures LogReady(bs, l, n) ==> LogReady(cs, l, n)
  {
    hide SparedAll, SamePlaces, DirtyBlocks;
    SparedKeeps(bs, cs);
    if LogReady(bs, l, n) && !Room(bs) {
      assert Ready(bs, l.start + tail + 1);
      assert !AllFree(bs);
      forall b | l.start <= b <= l.start + n ensures Ready(cs, b) {
        assert Ready(bs, b);
        PlacesCached(bs, cs, b);
      }
    }
  }

  /** ws is w0 and the first k of these writes. */
  ghost predicate WroteSome(ws: seq<Write>, w0: seq<Write>, all: seq<Write>, k: nat)
  {
    k <= |all| && ws == w0 + all[..k]
  }

  lemma BodyCut(l: Layout, view: Disk, lh: seq<nat>, k: nat, c1: Disk, w0: seq<Write>, w1: seq<Write>)
    requires BodyProgress(l, view, lh, k, c1, w0, w1) && lh != []
    ensures WroteSome(w1, w0, CommitWrites(l, view, lh), k)
  {
    hide EncodeHeader, BodyFilled;
    assert CommitWrites(l, view, lh)[..k] == LogBodyWrites(l, view, lh)[..k];
  }

  /** Logging a home block keeps the transaction open. */
  lemma StillOpenView(l: Layout, d: Disk, view: Disk, lh: seq<nat>, x: nat, data: Block)
    requires OpenView(l, d, view, lh) && x < |view| && !InLog(l, x) && |lh| < LOGSIZE && |lh| + 1 < l.size
    ensures var lh' := if x in lh then lh else lh + [x];
            OpenView(l, d, view[x := data], lh') && Elements(lh') == Elements(lh) + {x}
  {
    hide HeaderOf, Elements, Word;
    ListedOnce(lh, x);
    if x !in lh {
      ListGrows(l, |d|, lh, x);
    }
  }

  lemma ListedOnce(lh: seq<nat>, x: nat)
    ensures var lh' := if x in lh then lh else lh + [x];
            Elements(lh') == Elements(lh) + {x} && forall b :: b in lh' <==> b in lh || b == x
  {
    var lh' := if x in lh then lh else lh + [x];
    if x !in lh {
      assert lh'[|lh|] == x && forall i :: 0 <= i < |lh| ==> lh'[i] == lh[i];
    }
    assert forall b :: b in Elements(lh') <==> b in lh';
    assert forall b :: b in Elements(lh) <==> b in lh;
  }

  lemma ListGrows(l: Layout, size: nat, lh: seq<nat>, x: nat)
    requires HomeList(l, size, lh) && x !in lh && x < size <= UINT && !InLog(l, x)
    requires |lh| < LOGSIZE && |lh| + 1 < l.size
    ensures HomeList(l, size, lh + [x])
  {
  }

  lemma NotPinned(lh: seq<nat>)
    ensures StillPinned(false, lh, 0) == {}
  {
  }

  lemma RecoverGlue(l: Layout, d0: Disk, lh: seq<nat>, w0: seq<Write>, c1: Disk, w1: seq<Write>)
    requires DiskOk(l, d0) && lh == HeaderOf(d0[l.start]) && HomeProgress(l, d0, lh, |lh|, c1, w0, w1)
    ensures w1 + [Write(l.start, EncodeHeader(c1[l.start], []))] == w0 + RecoverWrites(l, d0)
  {
    hide EncodeHeader;
    var home := InstallWrites(lh, LogBody(l, d0, |lh|));
    assert home[..|lh|] == home;
    assert c1[l.start] == d0[l.start] by { assert InLog(l, l.start); }
  }

  lemma AllCuts(l: Layout, d: Disk, view: Disk, lh: seq<nat>)
    requires OpenView(l, d, view, lh)
    ensures forall k :: 0 <= k <= |CommitWrites(l, view, lh)| ==>
              var e := CommitCut(l, d, view, lh, k);
              DiskOk(l, e) && SameHomes(l, Recover(l, e), if k <= |lh| then d else view)
  {
    hide CommitWrites, SameHomes, CommitCut, HeaderOf;
    forall k | 0 <= k <= |CommitWrites(l, view, lh)|
      ensures var e := CommitCut(l, d, view, lh, k);
              DiskOk(l, e) && SameHomes(l, Recover(l, e), if k <= |lh| then d else view)
    {
      CrashAtomic(l, d, view, lh, k);
    }
  }

  lemma CommitNothing(l: Layout, view: Disk, lh: seq<nat>)
    requires LayoutOk(l, |view|) && HomeList(l, |view|, lh) && lh == []
    ensures CommitWrites(l, view, lh) == [] && Elements(lh) == {}
  {
  }

  lemma PinFacts(l: Layout, diskSize: nat, lh: seq<nat>)
    requires HomeList(l, diskSize, lh) && 1 <= l.size
    ensures l.start !in Elements(lh) && Encodable(lh)
    ensures StillPinned(true, lh, 0) == Elements(lh)
  {
    assert InLog(l, l.start);
    assert lh[0..] == lh;
    if lh == [] { assert Elements(lh) == {}; }
  }

  /** The four parts of commit put together. */
  lemma CommitGlue(l: Layout, view: Disk, lh: seq<nat>, w0: seq<Write>, c1: Disk, w1: seq<Write>,
                   c2: Disk, w2: seq<Write>, c3: Disk, w3: seq<Write>)
    requires lh != [] && BodyProgress(l, view, lh, |lh|, c1, w0, w1) && |c1| == |view|
    requires c2 == c1[l.start := EncodeHeader(c1[l.start], lh)]
    requires w2 == w1 + [Write(l.start, c2[l.start])]
    requires HomeProgress(l, c2, lh, |lh|, c3, w2, w3)
    ensures w3 + [Write(l.start, EncodeHeader(c3[l.start], []))] == w0 + CommitWrites(l, view, lh)
  {
    hide EncodeHeader;
    var body, home := LogBodyWrites(l, view, lh), InstallWrites(lh, LogBody(l, c2, |lh|));
    assert body[..|lh|] == body && home[..|lh|] == home;
    assert c1[l.start] == view[l.start];
    assert c3[l.start] == c2[l.start] by { assert InLog(l, l.start); }
    assert LogBody(l, c2, |lh|) == Pick(view, lh);
  }

  /** The home blocks still pinned when k of them have been installed. */
  ghost function StillPinned(pinned: bool, lh: seq<nat>, k: nat): set<nat>
    requires k <= |lh|
  {
    if pinned && k < |lh| then Elements(lh[k..]) else {}
  }

  lemma NonePinned(pinned: bool, lh: seq<nat>)
    ensures StillPinned(pinned, lh, |lh|) == {}
  {
  }

  lemma StillPinnedStep(pinned: bool, lh: seq<nat>, k: nat)
    requires k < |lh| && Distinct(lh)
    ensures pinned ==> lh[k] in StillPinned(pinned, lh, k)
    ensures StillPinned(pinned, lh, k + 1) == StillPinned(pinned, lh, k) - {lh[k]}
  {
    ElementsNext(lh, k);
    if k + 1 == |lh| { assert Elements(lh[k + 1..]) == {}; }
  }

  /** `write_log` has copied the first k logged blocks. */
  ghost predicate BodyProgress(l: Layout, view: Disk, lh: seq<nat>, k: nat, contents: Disk,
                               w0: seq<Write>, ws: seq<Write>)
  {
    && LayoutOk(l, |view|) && HomeList(l, |view|, lh) && k <= |lh|
    && BodyFilled(l, view, view, lh, k, contents)
    && ws == w0 + LogBodyWrites(l, view, lh)[..k]
  }

  lemma BodyProgressStart(l: Layout, view: Disk, lh: seq<nat>, w0: seq<Write>)
    requires LayoutOk(l, |view|) && HomeList(l, |view|, lh)
    ensures BodyProgress(l, view, lh, 0, view, w0, w0)
  {
    assert LogBodyWrites(l, view, lh)[..0] == [];
  }

  lemma BodyProgressStep(l: Layout, view: Disk, lh: seq<nat>, k: nat, contents: Disk, w0: seq<Write>, ws: seq<Write>)
    requires BodyProgress(l, view, lh, k, contents, w0, ws) && k < |lh|
    ensures lh[k] in Elements(lh) && lh[k] < |contents|
    ensures l.start + k + 1 < |contents| && l.start + k + 1 !in Elements(lh)
    ensures var x := contents[lh[k]];
            BodyProgress(l, view, lh, k + 1, contents[l.start + k + 1 := x], w0, ws + [Write(l.start + k + 1, x)])
  {
    var all := LogBodyWrites(l, view, lh);
    assert InLog(l, l.start + k + 1);
    BodyStep(l, view, view, lh, k, contents);
    assert all[..k + 1] == all[..k] + [all[k]];
  }

  /** `install_trans` has copied the first k logged blocks home. */
  ghost predicate HomeProgress(l: Layout, view: Disk, lh: seq<nat>, k: nat, contents: Disk,
                               w0: seq<Write>, ws: seq<Write>)
  {
    && LayoutOk(l, |view|) && HomeList(l, |view|, lh) && k <= |lh|
    && SameLog(l, view, contents)
    && ws == w0 + InstallWrites(lh, LogBody(l, view, |lh|))[..k]
  }

  lemma HomeProgressStart(l: Layout, view: Disk, lh: seq<nat>, w0: seq<Write>)
    requires LayoutOk(l, |view|) && HomeList(l, |view|, lh)
    ensures HomeProgress(l, view, lh, 0, view, w0, w0)
  {
    assert InstallWrites(lh, LogBody(l, view, |lh|))[..0] == [];
  }

  lemma HomeProgressStep(l: Layout, view: Disk, lh: seq<nat>, k: nat, contents: Disk, w0: seq<Write>, ws: seq<Write>)
    requires HomeProgress(l, view, lh, k, contents, w0, ws) && k < |lh|
    ensures lh[k] < |contents| && l.start + k + 1 < |contents| && l.start + k + 1 != lh[k]
    ensures var x := contents[l.start + k + 1];
            HomeProgress(l, view, lh, k + 1, contents[lh[k] := x], w0, ws + [Write(lh[k], x)])
  {
    var all := InstallWrites(lh, LogBody(l, view, |lh|));
    assert InLog(l, l.start + k + 1);
    assert all[..k + 1] == all[..k] + [all[k]];
  }

  lemma ElementsNext(bs: seq<nat>, k: nat)
    requires k < |bs| && Distinct(bs)
    ensures bs[k] in Elements(bs[k..])
    ensures Elements(bs[k + 1..]) == Elements(bs[k..]) - {bs[k]}
  {
    assert bs[k..][0] == bs[k];
    forall x ensures x in Elements(bs[k + 1..]) <==> x in Elements(bs[k..]) && x != bs[k] {
      if x in Elements(bs[k + 1..]) {
        var i :| 0 <= i < |bs[k + 1..]| && bs[k + 1..][i] == x;
        assert bs[k..][i + 1] == x && x == bs[k + 1 + i];
      }
      if x in Elements(bs[k..]) && x != bs[k] {
        var i :| 0 <= i < |bs[k..]| && bs[k..][i] == x;
        assert i != 0 && bs[k + 1..][i - 1] == x;
      }
    }
  }
}
