/** The user-level allocator of src/umalloc.c: a circular, address-ordered free
    list with coalescing. Addresses count headers (units of 8 bytes). */
module Umalloc {
  import opened Common
  import opened FreeListSpec

  const HEADER: nat := 8
  const SPACE: nat := UINT / HEADER     // units in the address space
  const CORE: nat := 4096               // least number of units asked of sbrk

  /** `nunits` of `malloc`, in 32-bit arithmetic. */
  function Nunits(nbytes: nat): (n: nat)
    requires nbytes < UINT
    ensures 1 <= n <= SPACE
  {
    (nbytes + HEADER - 1) % UINT / HEADER + 1
  }

  /** The block holds what was asked for exactly when the rounding up did not
      wrap around, and then it is the smallest that does; otherwise it is a bare
      header. */
  lemma EnoughBytes(nbytes: nat)
    requires nbytes < UINT
    ensures (Nunits(nbytes) - 1) * HEADER >= nbytes <==> nbytes + HEADER - 1 < UINT
    ensures nbytes + HEADER - 1 < UINT ==> (Nunits(nbytes) - 1) * HEADER < nbytes + HEADER
    ensures nbytes + HEADER - 1 >= UINT ==> Nunits(nbytes) == 1
  {
  }

  function Asked(nunits: nat): nat { if nunits < CORE then CORE else nunits }

  /** Steps from position i to position f of a ring of n. */
  function Dist(n: nat, i: nat, f: nat): nat
    requires i < n && f < n
  {
    if i <= f then f - i else n - i + f
  }

  lemma DistSucc(n: nat, i: nat, f: nat)
    requires i < n && f < n && i != f
    ensures Dist(n, Succ(n, i), f) == Dist(n, i, f) - 1
    ensures forall x :: 0 <= x < n && x != i ==> Dist(n, x, f) != Dist(n, i, f)
  {
  }

  class Heap {
    const base: nat
    var freep: nat              // 0 is the null pointer
    var ptr: map<nat, nat>      // s.ptr of the header at each address
    var size: map<nat, nat>     // s.size of the header at each address
    ghost var order: seq<nat>   // the ring, from base up
    ghost var blocks: map<nat, nat>
    ghost var arena: set<nat>   // units obtained from sbrk

    constructor (base: nat)
      requires base > 0
      ensures Valid() && this.base == base && arena == {} && Live() == map[]
    {
      this.base := base;
      freep := 0;
      ptr, size := map[], map[];
      order, blocks, arena := [base], map[], {};
    }

    ghost predicate Sized()
      reads this
    {
      base in size && size[base] == 0 && forall a :: a in blocks ==> a in size && size[a] == blocks[a]
    }

    ghost predicate Threaded()
      reads this
    {
      freep in order && FreeList(base, order, blocks) && Linked(ptr, order) && Sized()
    }

    ghost predicate Valid()
      reads this
    {
      base > 0 && Tiles(blocks, arena)
      && if freep == 0 then blocks == map[] && order == [base] else Threaded()
    }

    /** The blocks in use, with their sizes. */
    ghost function Live(): map<nat, nat>
      reads this
    {
      LiveOf(order, blocks)
    }

    /** Some free block has n units. */
    ghost predicate Room(n: nat)
      reads this
    {
      Fits(order, blocks, n)
    }

    /** The search loop of `free`. */
    method Locate(bp: nat) returns (p: nat, ghost k: nat)
      requires Threaded() && bp in blocks && bp !in order
      ensures Between(order, k, bp) && p == order[k]
      ensures p in order && p < bp && forall x :: x in order ==> x <= p || bp < x
    {
      hide FreeList;
      ListFacts(base, order, blocks);
      k := FindPlace(order, bp, |order|);
      p := freep;
      ghost var j :| 0 <= j < |order| && order[j] == freep;
      assert LinkAt(ptr, order, j);
      while !(bp > p && bp < ptr[p])
        invariant 0 <= j < |order| && p == order[j] && LinkAt(ptr, order, j)
        decreases Dist(|order|, j, k)
      {
        if p >= ptr[p] && (bp > p || bp < ptr[p]) {
          break;
        }
        DistSucc(|order|, j, k);
        p := ptr[p];
        j := Succ(|order|, j);
        assert LinkAt(ptr, order, j);
      }
    }

    /** Every link but the one at position k is in place. */
    ghost predicate LinkedBut(k: nat)
      reads this
    {
      forall j :: 0 <= j < |order| && j != k ==> LinkAt(ptr, order, j)
    }

    /** The first half of the splice in `free`: bp is joined with, or linked
        to, the block above it. */
    method JoinUpper(bp: nat, p: nat, ghost k: nat)
      requires FreeList(base, order, blocks) && Linked(ptr, order) && Sized() && Apart(blocks)
      requires Between(order, k, bp) && p == order[k] && bp in blocks
      modifies this`ptr, this`size, this`order, this`blocks
      ensures var s := Insert(old(order), k, bp);
              order == JoinList(s, old(blocks), k + 1) && blocks == JoinBlocks(s, old(blocks), k + 1)
      ensures LinkedBut(k) && Sized() && k + 1 < |order| && order[k] == p && order[k + 1] == bp
      ensures p in ptr && bp in blocks && blocks[bp] >= old(blocks)[bp]
    {
      hide FreeList, JoinList, JoinBlocks, Insert, Drop, Apart;
      ListFacts(base, order, blocks);
      ghost var s := Insert(order, k, bp);
      assert LinkAt(ptr, order, k);
      if bp + size[bp] == ptr[p] {
        assert LinkAt(ptr, order, k + 1);
        size := size[bp := size[bp] + size[ptr[p]]];
        ptr := ptr[bp := ptr[ptr[p]]];
        UpperLinks(old(ptr), ptr, old(order), k, bp);
        UpperJoined(old(order), old(blocks), k, bp);
      } else {
        ptr := ptr[bp := ptr[p]];
        InsertLinks(old(ptr), ptr, old(order), k, bp);
        UpperLinked(old(order), old(blocks), k, bp);
      }
      order, blocks := JoinList(s, old(blocks), k + 1), JoinBlocks(s, old(blocks), k + 1);
    }

    /** The second half: the result is joined with, or linked from, the block
        below it. */
    method JoinLower(bp: nat, p: nat, ghost k: nat)
      requires ListOk(base, order, blocks) && LinkedBut(k) && Sized() && Apart(blocks)
      requires k + 1 < |order| && p == order[k] && bp == order[k + 1] && p in ptr
      modifies this`ptr, this`size, this`order, this`blocks
      ensures order == JoinList(old(order), old(blocks), k) && blocks == JoinBlocks(old(order), old(blocks), k)
      ensures Linked(ptr, order) && Sized() && Room(old(blocks)[bp]) && p in order
    {
      assert LinkAt(ptr, order, k + 1);
      if p + size[p] == bp {
        size := size[p := size[p] + size[bp]];
        ptr := ptr[p := ptr[bp]];
        DropLinks(old(ptr), ptr, old(order), k);
        order, blocks := JoinList(order, blocks, k), JoinBlocks(order, blocks, k);
        assert order[k] == p;
      } else {
        ptr := ptr[p := bp];
        LastLink(old(ptr), order, k);
        assert order[k + 1] in blocks;
      }
    }

    /** `free`: the block is no longer live; nothing else changes hands. */
    method Free(ap: nat)
      requires Valid() && ap > 0 && ap - 1 in Live()
      modifies this
      ensures Valid() && freep != 0 && arena == old(arena) && Live() == old(Live()) - {ap - 1}
      ensures Room(old(blocks[ap - 1]))
    {
      hide FreeList, ListOk, JoinList, JoinBlocks, Insert, LiveOf, Clear, Apart;
      var bp := ap - 1;
      var p;
      ghost var k;
      LiveFacts(order, blocks, bp);
      p, k := Locate(bp);
      InsertOk(base, order, blocks, k, bp);
      InsertLive(order, blocks, k, bp);
      JoinAt(base, Insert(order, k, bp), blocks, arena, k + 1);
      JoinLive(base, Insert(order, k, bp), blocks, k + 1);
      JoinUpper(bp, p, k);
      JoinAt(base, order, blocks, arena, k);
      JoinLive(base, order, blocks, k);
      JoinLower(bp, p, k);
      ListDone(base, order, blocks);
      freep := p;
    }

    /** What sbrk promises of the area it adds for a request of nu units: it
        lies above all earlier ones, inside the address space. */
    ghost predicate Granted(core: nat, nu: nat)
      reads this
    {
      base < core && core + (if nu < 4096 then 4096 else nu) <= SPACE && forall u :: u in arena ==> u < core
    }

    /** The blocks account for every unit obtained from sbrk, and no unit is in
        two of them. */
    lemma Separation()
      requires Valid()
      ensures Total(blocks) == |arena|
      ensures forall a, b :: a in blocks && b in blocks && a != b ==> Span(a, blocks[a]) !! Span(b, blocks[b])
    {
      TotalIsArena(blocks, arena);
      hide Span, Total;
      forall a, b | a in blocks && b in blocks && a != b ensures Span(a, blocks[a]) !! Span(b, blocks[b]) {
        assert a < b || b < a;
      }
    }

    /** `morecore`: sbrk gives the area at `core`, or fails. */
    method Morecore(nu: nat, core: Option<nat>) returns (p: nat)
      requires Valid() && freep != 0 && nu > 0 && (core.Some? ==> Granted(core.value, nu))
      modifies this
      ensures Valid() && freep != 0 && freep in order && Live() == old(Live())
      ensures core.None? ==> p == 0 && unchanged(this)
      ensures core.Some? ==> p == freep && arena == old(arena) + Span(core.value, if nu < 4096 then 4096 else nu)
      ensures core.Some? ==> Room(if nu < 4096 then 4096 else nu)
    {
      hide Span, FreeList, Tiles, LiveOf, Linked;
      if core.None? {
        return 0;
      }
      var n := Asked(nu);
      var hp := core.value;
      AddTiles(blocks, arena, hp, n);
      AddList(base, order, blocks, hp, n);
      size := size[hp := n];
      blocks, arena := blocks[hp := n], arena + Span(hp, n);
      Free(hp + 1);
      return freep;
    }

    /** No free block that the search has passed has n units. */
    ghost predicate Passed(n: nat, j: nat, f: nat)
      requires j < |order| && f < |order|
      reads this
    {
      forall i :: 0 <= i < |order| && Dist(|order|, i, f) > Dist(|order|, j, f) ==> TooSmall(order, size, i, n)
    }

    /** `malloc` takes the whole block p out of the list. */
    method TakeWhole(p: nat, prevp: nat, ghost j: nat)
      requires Valid() && freep != 0 && 1 <= j < |order| && p == order[j] && prevp == order[j - 1]
      modifies this`ptr, this`order, this`freep
      ensures Valid() && freep == prevp != 0
      ensures p in blocks && p !in old(Live()) && Live() == old(Live())[p := blocks[p]]
      ensures forall m: nat :: old(Room(m)) && m > blocks[p] ==> Room(m)
    {
      hide LiveOf, Tiles, FreeList, Linked, Drop;
      TakeFacts(base, order, blocks, arena, j);
      TakeOk(base, order, blocks, j - 1);
      LinkFacts(ptr, order, j);
      ptr := ptr[prevp := ptr[p]];
      LinkFacts(old(ptr), order, j - 1);
      DropLinks(old(ptr), ptr, order, j - 1);
      DropMembers(order, j - 1);
      order := Drop(order, j - 1);
      freep := prevp;
      forall m: nat | old(Room(m)) && m > blocks[p] ensures Room(m) {
        FitsDrop(old(order), blocks, j, m);
      }
    }

    /** `malloc` takes the last n units of block p. */
    method TakeTail(p: nat, prevp: nat, n: nat, ghost j: nat) returns (q: nat)
      requires Valid() && freep != 0 && 1 <= j < |order| && p == order[j] && prevp == order[j - 1]
      requires p in blocks && 0 < n < blocks[p]
      modifies this`size, this`blocks, this`freep
      ensures Valid() && freep == prevp != 0
      ensures q !in old(Live()) && Live() == old(Live())[q := n] && q == p + old(blocks)[p] - n
      ensures forall m: nat :: old(Room(m)) && m > n ==> Room(m - n)
    {
      hide LiveOf, Tiles, FreeList, Linked;
      TakeFacts(base, order, blocks, arena, j);
      CutOk(base, order, blocks, arena, j, n);
      blocks := Split(blocks, p, n);
      size := size[p := size[p] - n];
      q := p + size[p];
      size := size[q := n];
      freep := prevp;
    }

    /** The cursor of `malloc`: p follows prevp in the ring, at position j. */
    ghost predicate Cursor(p: nat, prevp: nat, j: nat, f: nat)
      reads this
    {
      && Valid() && freep != 0 && j < |order| && f < |order| && order[f] == freep && order[j] == p
      && exists i :: 0 <= i < |order| && order[i] == prevp && Succ(|order|, i) == j
    }

    /** Moves the cursor of `malloc` on. */
    method Advance(p: nat, ghost j: nat, ghost f: nat) returns (next: nat, ghost jj: nat)
      requires Valid() && freep != 0 && j < |order| && f < |order| && order[f] == freep && order[j] == p
      ensures jj == Succ(|order|, j) && Cursor(next, p, jj, f)
    {
      LinkFacts(ptr, order, j);
      next := ptr[p];
      jj := Succ(|order|, j);
    }

    /** Sets up the ring on the first call of `malloc`. */
    method Start() returns (prevp: nat)
      requires Valid()
      modifies this`freep, this`ptr, this`size
      ensures Valid() && freep != 0 && prevp == freep && freep in order && (old(freep) != 0 ==> freep == old(freep))
      ensures old(freep) == 0 ==> forall n: nat :: !old(Room(n))
    {
      prevp := freep;
      if prevp == 0 {
        ptr := ptr[base := base];
        prevp := base;
        freep := base;
        size := size[base := 0];
        assert LinkAt(ptr, order, 0);
      }
    }

    /** `malloc`: nunits units that no live block overlaps, or 0 if no free
        block has as many and sbrk fails. sbrk is called at most once, and
        only when no free block is large enough. */
    method Malloc(nbytes: nat, core: Option<nat>) returns (r: nat)
      requires Valid() && nbytes < UINT && (core.Some? ==> Granted(core.value, Nunits(nbytes)))
      modifies this
      ensures Valid() && freep != 0
      ensures r == 0 <==> core.None? && !old(Room(Nunits(nbytes)))
      ensures r == 0 ==> Live() == old(Live()) && arena == old(arena)
      ensures r != 0 ==> r - 1 !in old(Live()) && Live() == old(Live())[r - 1 := Nunits(nbytes)]
      ensures if old(Room(Nunits(nbytes))) || core.None? then arena == old(arena)
              else var n := Nunits(nbytes); arena == old(arena) + Span(core.value, if n < 4096 then 4096 else n)
      ensures var n := Nunits(nbytes); !old(Room(n)) && core.Some? && n < 4096 ==> Room(4096 - n)
      ensures old(Room(Nunits(nbytes))) ==> NextFit(old(order), old(blocks), old(freep), Nunits(nbytes), r - 1)
    {
      hide NextFit, FreeList, Tiles, LiveOf, Dist, Sorted, Span, Linked, Passed, Cursor, Valid, Fits, Nunits;
      var nunits := Nunits(nbytes);
      var prevp := Start();
      ghost var f: nat :| f < |order| && order[f] == freep;
      ghost var j: nat, grown := f, false;
      var p;
      p, j := Advance(prevp, j, f);
      PassedStart(nunits, f);
      while true
        invariant Cursor(p, prevp, j, f) && j < |order| && f < |order| && order[f] == freep && freep != 0
        invariant Passed(nunits, j, f) && Live() == old(Live())
        invariant grown ==> core.Some? && !old(Room(nunits)) && Room(if nunits < 4096 then 4096 else nunits)
                            && arena == old(arena) + Span(core.value, if nunits < 4096 then 4096 else nunits)
        invariant !grown ==> arena == old(arena) && blocks == old(blocks) && order == old(order)
        invariant !grown && old(Room(nunits)) ==> freep == old(freep)
        decreases !grown, Dist(|order|, j, f)
      {
        CursorFacts(p, prevp, j, f);
        if size[p] >= nunits {
          FoundFacts(p, prevp, j, f, nunits);
          NextFitNow(nunits, j, f);
          if size[p] == nunits {
            TakeWhole(p, prevp, j);
            if grown && nunits < 4096 {
              RoomLess(4096, 4096 - nunits);
            }
            return p + 1;
          }
          r := TakeTail(p, prevp, nunits, j);
          return r + 1;
        }
        if p == freep {
          if grown {
            RoomLess(if nunits < 4096 then 4096 else nunits, nunits);
          }
          NoneFits(nunits, j, f);
          p := Morecore(nunits, core);
          if p == 0 {
            return 0;
          }
          f :| 0 <= f < |order| && order[f] == freep;
          j, grown := f, true;
          PassedStart(nunits, f);
        } else {
          PassedStep(nunits, j, f);
        }
        prevp := p;
        p, j := Advance(prevp, j, f);
      }
    }

    lemma PassedStart(n: nat, f: nat)
      requires f < |order|
      ensures Passed(n, Succ(|order|, f), f)
    {
    }

    lemma PassedStep(n: nat, j: nat, f: nat)
      requires j < |order| && f < |order| && Passed(n, j, f) && j != f && TooSmall(order, size, j, n)
      ensures Passed(n, Succ(|order|, j), f) && Dist(|order|, Succ(|order|, j), f) < Dist(|order|, j, f)
    {
      DistSucc(|order|, j, f);
    }

    lemma NextFitNow(n: nat, j: nat, f: nat)
      requires Valid() && freep != 0 && f < |order| && order[f] == freep && 1 <= j < |order| && Passed(n, j, f)
      requires order[j] in blocks && blocks[order[j]] >= n
      ensures NextFit(order, blocks, freep, n, order[j] + blocks[order[j]] - n)
    {
      hide FreeList, Tiles, Linked, Dist;
      forall i | 0 <= i < |order| && Dist(|order|, i, f) > Dist(|order|, j, f) && order[i] in blocks
        ensures blocks[order[i]] < n
      {
        assert TooSmall(order, size, i, n);
      }
    }

    lemma RoomLess(m: nat, n: nat)
      requires Room(m) && n <= m
      ensures Room(n)
    {
      var j :| 1 <= j < |order| && order[j] in blocks && blocks[order[j]] >= m;
    }

    lemma CursorFacts(p: nat, prevp: nat, j: nat, f: nat)
      requires Cursor(p, prevp, j, f)
      ensures p in size && Valid() && order[j] == p && (p == freep <==> j == f)
    {
      ListFacts(base, order, blocks);
    }

    lemma FoundFacts(p: nat, prevp: nat, j: nat, f: nat, n: nat)
      requires Cursor(p, prevp, j, f) && p in size && size[p] >= n > 0
      ensures 1 <= j < |order| && order[j - 1] == prevp && p in blocks && blocks[p] == size[p]
      ensures Room(n)
    {
      ListFacts(base, order, blocks);
    }

    lemma NoneFits(n: nat, j: nat, f: nat)
      requires Valid() && freep != 0 && j < |order| && j == f && Passed(n, j, f) && TooSmall(order, size, j, n)
      ensures !Room(n)
    {
      forall i | 1 <= i < |order| && order[i] in blocks ensures blocks[order[i]] < n {
        assert i != j ==> Dist(|order|, i, f) > 0;
        assert TooSmall(order, size, i, n);
      }
    }
  }

  ghost predicate Fits(order: seq<nat>, blocks: map<nat, nat>, n: nat)
  {
    exists j :: 1 <= j < |order| && order[j] in blocks && blocks[order[j]] >= n
  }

  /** Address a is the start of the last n units of the first free block after
      freep, in ring order and freep itself last, that has n units. */
  ghost predicate NextFit(order: seq<nat>, blocks: map<nat, nat>, freep: nat, n: nat, a: int)
  {
    exists j, f ::
      && 0 <= f < |order| && order[f] == freep && 1 <= j < |order| && order[j] in blocks
      && blocks[order[j]] >= n && a == order[j] + blocks[order[j]] - n
      && forall i :: 0 <= i < |order| && Dist(|order|, i, f) > Dist(|order|, j, f) && order[i] in blocks ==>
           blocks[order[i]] < n
  }

  lemma FitsDrop(order: seq<nat>, blocks: map<nat, nat>, j: nat, m: nat)
    requires 1 <= j < |order| && order[j] in blocks && Fits(order, blocks, m) && m > blocks[order[j]]
    ensures Fits(Drop(order, j - 1), blocks, m)
  {
    var i :| 1 <= i < |order| && order[i] in blocks && blocks[order[i]] >= m;
    var k := if i < j then i else i - 1;
    assert Drop(order, j - 1)[k] == order[i];
  }

  predicate TooSmall(order: seq<nat>, size: map<nat, nat>, i: nat, n: nat)
  {
    i < |order| && order[i] in size ==> size[order[i]] < n
  }

  /** A new block, not in the list yet, leaves the list as it was. */
  lemma AddList(base: nat, order: seq<nat>, blocks: map<nat, nat>, a: nat, n: nat)
    requires FreeList(base, order, blocks) && a !in blocks && base < a
    ensures FreeList(base, order, blocks[a := n]) && a !in order
    ensures LiveOf(order, blocks[a := n]) == LiveOf(order, blocks)[a := n] && a !in LiveOf(order, blocks)
  {
    var m := blocks[a := n];
    forall j | 0 <= j < |order| ensures Clear(order, m, j) {
      assert Clear(order, blocks, j);
    }
  }

  lemma LinkFacts(ptr: map<nat, nat>, order: seq<nat>, j: nat)
    requires Linked(ptr, order) && j < |order|
    ensures LinkAt(ptr, order, j)
    ensures forall i :: 0 <= i < |order| && i != j ==> LinkAt(ptr, order, i)
  {
  }

  lemma TakeFacts(base: nat, order: seq<nat>, blocks: map<nat, nat>, arena: set<nat>, j: nat)
    requires FreeList(base, order, blocks) && Tiles(blocks, arena) && 1 <= j < |order|
    ensures Apart(blocks) && order[j] in blocks && Sorted(order) && base < order[j] && base <= order[j - 1]
    ensures order[j] !in LiveOf(order, blocks)
    ensures forall a :: a in LiveOf(order, blocks) ==> a in blocks
  {
  }

  lemma LiveFacts(order: seq<nat>, blocks: map<nat, nat>, a: nat)
    requires a in LiveOf(order, blocks)
    ensures a in blocks && a !in order
  {
  }

  lemma InsertLinks(before: map<nat, nat>, now: map<nat, nat>, order: seq<nat>, k: nat, bp: nat)
    requires Linked(before, order) && k < |order| && bp !in order
    requires order[k] in before && now == before[bp := before[order[k]]]
    ensures var s := Insert(order, k, bp); forall j :: 0 <= j < |s| && j != k ==> LinkAt(now, s, j)
  {
    var s := Insert(order, k, bp);
    assert LinkAt(before, order, k);
    forall j | 0 <= j < |s| && j != k ensures LinkAt(now, s, j) {
      if j != k + 1 {
        assert LinkAt(before, order, if j < k then j else j - 1);
      }
    }
  }

  lemma UpperLinks(before: map<nat, nat>, now: map<nat, nat>, order: seq<nat>, k: nat, bp: nat)
    requires Linked(before, order) && k + 1 < |order| && bp !in order && Sorted(order)
    requires order[k + 1] in before && now == before[bp := before[order[k + 1]]]
    ensures var s := Drop(Insert(order, k, bp), k + 1); forall j :: 0 <= j < |s| && j != k ==> LinkAt(now, s, j)
  {
    var s := Drop(Insert(order, k, bp), k + 1);
    assert s == order[k + 1 := bp];
    assert LinkAt(before, order, k + 1);
    forall j | 0 <= j < |s| && j != k ensures LinkAt(now, s, j) {
      assert LinkAt(before, order, j);
    }
  }

  lemma DropLinks(before: map<nat, nat>, now: map<nat, nat>, order: seq<nat>, k: nat)
    requires Sorted(order) && k + 1 < |order|
    requires forall j :: 0 <= j < |order| && j != k ==> LinkAt(before, order, j)
    requires order[k + 1] in before && now == before[order[k] := before[order[k + 1]]]
    ensures Linked(now, Drop(order, k))
  {
    var s := Drop(order, k);
    assert LinkAt(before, order, k + 1);
    forall j | 0 <= j < |s| ensures LinkAt(now, s, j) {
      if j != k {
        assert LinkAt(before, order, if j < k then j else j + 1);
      }
    }
  }

  lemma LastLink(before: map<nat, nat>, order: seq<nat>, k: nat)
    requires Sorted(order) && k + 1 < |order|
    requires forall j :: 0 <= j < |order| && j != k ==> LinkAt(before, order, j)
    ensures Linked(before[order[k] := order[k + 1]], order)
  {
    var now := before[order[k] := order[k + 1]];
    forall j | 0 <= j < |order| ensures LinkAt(now, order, j) {
      if j != k {
        assert LinkAt(before, order, j);
      }
    }
  }

  lemma UpperJoined(order: seq<nat>, blocks: map<nat, nat>, k: nat, bp: nat)
    requires bp in blocks && k + 1 < |order| && bp + blocks[bp] == order[k + 1] && order[k + 1] in blocks
    ensures var s := Insert(order, k, bp);
            && Touches(s, blocks, k + 1)
            && JoinList(s, blocks, k + 1) == Drop(s, k + 1) && |Drop(s, k + 1)| == |order|
            && Drop(s, k + 1)[k] == order[k] && Drop(s, k + 1)[k + 1] == bp
            && JoinBlocks(s, blocks, k + 1) == Merged(blocks, bp, order[k + 1])
  {
    var s := Insert(order, k, bp);
    assert s[k + 1] == bp && s[k + 2] == order[k + 1];
  }

  lemma UpperLinked(order: seq<nat>, blocks: map<nat, nat>, k: nat, bp: nat)
    requires bp in blocks && k < |order| && (k + 1 < |order| ==> bp + blocks[bp] != order[k + 1])
    ensures var s := Insert(order, k, bp);
            && JoinList(s, blocks, k + 1) == s && JoinBlocks(s, blocks, k + 1) == blocks
            && |s| == |order| + 1 && s[k] == order[k] && s[k + 1] == bp
  {
    var s := Insert(order, k, bp);
    assert s[k + 1] == bp;
    assert k + 1 < |order| ==> s[k + 2] == order[k + 1];
  }

  lemma ListFacts(base: nat, order: seq<nat>, blocks: map<nat, nat>)
    requires FreeList(base, order, blocks)
    ensures |order| >= 1 && order[0] == base && Sorted(order) && forall a :: a in blocks ==> base < a
    ensures forall j :: 1 <= j < |order| ==> order[j] in blocks
  {
  }

  lemma ListDone(base: nat, order: seq<nat>, blocks: map<nat, nat>)
    requires ListOk(base, order, blocks) && forall j :: 0 <= j < |order| ==> Clear(order, blocks, j)
    ensures FreeList(base, order, blocks)
  {
  }
}
