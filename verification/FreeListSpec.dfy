/** Blocks of memory and the address-ordered free list, on values. Addresses
    count headers (units of 8 bytes). */
module FreeListSpec {
  import opened Common

  // ---- Blocks tile the memory obtained from sbrk ----

  predicate InBlock(blocks: map<nat, nat>, a: nat, u: nat) { a in blocks && a <= u < a + blocks[a] }

  ghost predicate Held(blocks: map<nat, nat>, u: nat)
  {
    exists a :: InBlock(blocks, a, u)
  }

  ghost predicate Apart(blocks: map<nat, nat>)
  {
    && (forall a :: a in blocks ==> blocks[a] > 0)
    && (forall a, b :: a in blocks && b in blocks && a < b ==> a + blocks[a] <= b)
  }

  /** Every unit of the arena is in exactly one block. */
  ghost predicate Tiles(blocks: map<nat, nat>, arena: set<nat>)
  {
    Apart(blocks) && forall u: nat :: u in arena <==> Held(blocks, u)
  }

  /** Blocks a and b, side by side, become one. */
  ghost function Merged(blocks: map<nat, nat>, a: nat, b: nat): map<nat, nat>
    requires a in blocks && b in blocks
  {
    (blocks - {b})[a := blocks[a] + blocks[b]]
  }

  lemma MergeTiles(blocks: map<nat, nat>, arena: set<nat>, a: nat, b: nat)
    requires Tiles(blocks, arena) && a in blocks && b in blocks && a + blocks[a] == b
    ensures Tiles(Merged(blocks, a, b), arena)
  {
    var m := Merged(blocks, a, b);
    MergeApart(blocks, a, b);
    hide Apart;
    forall u: nat ensures Held(m, u) <==> Held(blocks, u) {
      if c: nat :| InBlock(blocks, c, u) {
        assert InBlock(m, if c == b then a else c, u);
      }
      if c: nat :| InBlock(m, c, u) {
        assert InBlock(blocks, if c == a && u >= b then b else c, u);
      }
    }
  }

  lemma MergeApart(blocks: map<nat, nat>, a: nat, b: nat)
    requires Apart(blocks) && a in blocks && b in blocks && a + blocks[a] == b
    ensures Apart(Merged(blocks, a, b))
  {
    var m := Merged(blocks, a, b);
    forall c, d | c in m && d in m && c < d ensures c + m[c] <= d {
      if c == a { assert b < d; }
    }
  }

  /** The last n units of block a become a block of their own. */
  ghost function Split(blocks: map<nat, nat>, a: nat, n: nat): map<nat, nat>
    requires a in blocks && n < blocks[a]
  {
    blocks[a := blocks[a] - n][a + blocks[a] - n := n]
  }

  lemma SplitTiles(blocks: map<nat, nat>, arena: set<nat>, a: nat, n: nat)
    requires Tiles(blocks, arena) && a in blocks && 0 < n < blocks[a]
    ensures Tiles(Split(blocks, a, n), arena) && a + blocks[a] - n !in blocks
  {
    var m, t := Split(blocks, a, n), a + blocks[a] - n;
    SplitApart(blocks, a, n);
    hide Apart;
    forall u: nat ensures Held(m, u) <==> Held(blocks, u) {
      if c: nat :| InBlock(blocks, c, u) {
        assert InBlock(m, if c == a && u >= t then t else c, u);
      }
      if c: nat :| InBlock(m, c, u) {
        assert InBlock(blocks, if c == t then a else c, u);
      }
    }
  }

  lemma SplitApart(blocks: map<nat, nat>, a: nat, n: nat)
    requires Apart(blocks) && a in blocks && 0 < n < blocks[a]
    ensures Apart(Split(blocks, a, n)) && a + blocks[a] - n !in blocks
  {
    var m, t := Split(blocks, a, n), a + blocks[a] - n;
    assert forall c :: c in m && c != a && c != t ==> c in blocks && m[c] == blocks[c] && (c < a || t < c);
    forall c, d | c in m && d in m && c < d ensures c + m[c] <= d {
      if c == t { assert a < d; }
    }
  }

  lemma AddApart(blocks: map<nat, nat>, arena: set<nat>, a: nat, n: nat)
    requires Tiles(blocks, arena) && n > 0 && forall u :: u in arena ==> u < a
    ensures Apart(blocks[a := n])
    ensures forall b :: b in blocks ==> b + blocks[b] <= a
  {
    forall b | b in blocks ensures b + blocks[b] <= a {
      assert InBlock(blocks, b, b + blocks[b] - 1);
      assert Held(blocks, b + blocks[b] - 1);
    }
  }

  lemma AddTiles(blocks: map<nat, nat>, arena: set<nat>, a: nat, n: nat)
    requires Tiles(blocks, arena) && n > 0 && forall u :: u in arena ==> u < a
    ensures Tiles(blocks[a := n], arena + Span(a, n)) && a !in blocks
  {
    hide Span, Apart;
    AddApart(blocks, arena, a, n);
    var m := blocks[a := n];
    forall u: nat ensures Held(m, u) <==> Held(blocks, u) || a <= u < a + n {
      if c: nat :| InBlock(blocks, c, u) {
        assert InBlock(m, c, u);
      }
      if a <= u < a + n {
        assert InBlock(m, a, u);
      }
      if c: nat :| InBlock(m, c, u) {
        assert c == a || InBlock(blocks, c, u);
      }
    }
    assert a !in blocks by { Fresh(blocks, arena, a); }
  }

  lemma Fresh(blocks: map<nat, nat>, arena: set<nat>, a: nat)
    requires Tiles(blocks, arena) && a !in arena
    ensures a !in blocks
  {
    if a in blocks {
      assert InBlock(blocks, a, a);
    }
  }

  /** The sizes of all blocks, added up. */
  ghost function Total(blocks: map<nat, nat>): nat
    decreases |blocks|
  {
    if blocks == map[] then 0
    else
      var a :| a in blocks;
      assert |blocks - {a}| < |blocks| by { Smaller(blocks, a); }
      blocks[a] + Total(blocks - {a})
  }

  lemma Smaller(blocks: map<nat, nat>, a: nat)
    requires a in blocks
    ensures |blocks - {a}| < |blocks|
  {
    assert blocks.Keys == (blocks - {a}).Keys + {a};
  }

  /** Conservation: the blocks add up to the memory obtained. */
  lemma {:induction false} TotalIsArena(blocks: map<nat, nat>, arena: set<nat>)
    requires Tiles(blocks, arena)
    ensures Total(blocks) == |arena|
    decreases |blocks|
  {
    if blocks == map[] {
      assert forall u: nat :: !Held(blocks, u);
      assert arena == {};
    } else {
      hide Span, Tiles;
      var a :| a in blocks && Total(blocks) == blocks[a] + Total(blocks - {a});
      hide Total;
      Smaller(blocks, a);
      RemoveTiles(blocks, arena, a);
      TotalIsArena(blocks - {a}, arena - Span(a, blocks[a]));
      WithoutSpan(arena, Span(a, blocks[a]));
    }
  }

  lemma WithoutSpan(arena: set<nat>, part: set<nat>)
    requires part <= arena
    ensures |arena| == |arena - part| + |part|
  {
    assert arena == (arena - part) + part;
  }

  lemma RemoveTiles(blocks: map<nat, nat>, arena: set<nat>, a: nat)
    requires Tiles(blocks, arena) && a in blocks
    ensures Tiles(blocks - {a}, arena - Span(a, blocks[a])) && Span(a, blocks[a]) <= arena
  {
    hide Span;
    var m := blocks - {a};
    assert Apart(m);
    forall u: nat, c: nat | a <= u < a + blocks[a] ensures !InBlock(m, c, u) {
    }
    hide Apart;
    forall u: nat ensures Held(blocks, u) <==> Held(m, u) || a <= u < a + blocks[a] {
      if c: nat :| InBlock(blocks, c, u) {
        assert c == a || InBlock(m, c, u);
      }
      if c: nat :| InBlock(m, c, u) {
        assert InBlock(blocks, c, u);
      }
      if a <= u < a + blocks[a] {
        assert InBlock(blocks, a, u);
      }
    }
  }

  // ---- The free list ----

  ghost predicate Sorted(s: seq<nat>) { forall i, j :: 0 <= i < j < |s| ==> s[i] < s[j] }

  /** `base` and then blocks in address order. */
  ghost predicate ListOk(base: nat, order: seq<nat>, blocks: map<nat, nat>)
  {
    && |order| >= 1 && order[0] == base && Sorted(order)
    && (forall a :: a in blocks ==> base < a)
    && (forall j :: 1 <= j < |order| ==> order[j] in blocks)
  }

  /** The j-th block of the list ends short of the next. */
  ghost predicate Clear(order: seq<nat>, blocks: map<nat, nat>, j: nat)
  {
    1 <= j && j + 1 < |order| && order[j] in blocks ==> order[j] + blocks[order[j]] < order[j + 1]
  }

  /** The free list: address order, no two blocks touch. */
  ghost predicate FreeList(base: nat, order: seq<nat>, blocks: map<nat, nat>)
  {
    ListOk(base, order, blocks) && forall j :: 0 <= j < |order| ==> Clear(order, blocks, j)
  }

  predicate Touches(order: seq<nat>, blocks: map<nat, nat>, j: nat)
  {
    1 <= j && j + 1 < |order| && order[j] in blocks && order[j] + blocks[order[j]] == order[j + 1]
  }

  function Succ(n: nat, j: nat): nat
    requires j < n
  {
    if j + 1 < n then j + 1 else 0
  }

  ghost predicate LinkAt(ptr: map<nat, nat>, order: seq<nat>, j: nat)
    requires j < |order|
  {
    order[j] in ptr && ptr[order[j]] == order[Succ(|order|, j)]
  }

  /** The headers form one ring in the order of the list. */
  ghost predicate Linked(ptr: map<nat, nat>, order: seq<nat>)
  {
    forall j :: 0 <= j < |order| ==> LinkAt(ptr, order, j)
  }

  /** bp belongs between positions k and k + 1. */
  ghost predicate Between(order: seq<nat>, k: nat, bp: nat)
  {
    k < |order| && order[k] < bp && (k + 1 < |order| ==> bp < order[k + 1])
  }

  lemma {:induction false} FindPlace(order: seq<nat>, bp: nat, n: nat) returns (k: nat)
    requires Sorted(order) && 0 < n <= |order| && order[0] < bp && bp !in order
    requires n < |order| ==> bp < order[n]
    ensures Between(order, k, bp)
    decreases n
  {
    if order[n - 1] < bp {
      k := n - 1;
    } else {
      assert order[n - 1] != bp;
      k := FindPlace(order, bp, n - 1);
    }
  }

  ghost function Insert(order: seq<nat>, k: nat, bp: nat): (s: seq<nat>)
    requires k < |order|
    ensures |s| == |order| + 1
  {
    order[..k + 1] + [bp] + order[k + 1..]
  }

  lemma InsertOk(base: nat, order: seq<nat>, blocks: map<nat, nat>, k: nat, bp: nat)
    requires FreeList(base, order, blocks) && Between(order, k, bp) && bp in blocks
    ensures ListOk(base, Insert(order, k, bp), blocks)
    ensures forall j :: 0 <= j < |order| + 1 && j != k && j != k + 1 ==> Clear(Insert(order, k, bp), blocks, j)
  {
    var s := Insert(order, k, bp);
    forall j | 0 <= j < |s| && j != k && j != k + 1 ensures Clear(s, blocks, j) {
      assert Clear(order, blocks, if j < k then j else j - 1);
    }
  }

  ghost function Drop(order: seq<nat>, j: nat): (s: seq<nat>)
    requires j + 1 < |order|
    ensures |s| == |order| - 1
  {
    order[..j + 1] + order[j + 2..]
  }

  /** Two list blocks that touch are made one. */
  lemma DropOk(base: nat, order: seq<nat>, blocks: map<nat, nat>, j: nat)
    requires ListOk(base, order, blocks) && Touches(order, blocks, j)
    ensures ListOk(base, Drop(order, j), Merged(blocks, order[j], order[j + 1]))
    ensures forall i :: 0 <= i < j && Clear(order, blocks, i) ==>
              Clear(Drop(order, j), Merged(blocks, order[j], order[j + 1]), i)
    ensures forall i :: j < i < |order| && Clear(order, blocks, i) ==>
              Clear(Drop(order, j), Merged(blocks, order[j], order[j + 1]), i - 1)
  {
    var s, m := Drop(order, j), Merged(blocks, order[j], order[j + 1]);
    forall i | 0 <= i < |s| ensures s[i] == order[if i <= j then i else i + 1] {
    }
  }

  /** The list and the blocks once those at j and j + 1 are joined if they touch. */
  ghost function JoinList(order: seq<nat>, blocks: map<nat, nat>, j: nat): seq<nat>
  {
    if Touches(order, blocks, j) then Drop(order, j) else order
  }

  ghost function JoinBlocks(order: seq<nat>, blocks: map<nat, nat>, j: nat): map<nat, nat>
  {
    if Touches(order, blocks, j) && order[j + 1] in blocks then Merged(blocks, order[j], order[j + 1]) else blocks
  }

  /** Joining the blocks at positions j and j + 1 if they touch leaves at most
      the gap at j - 1 in doubt. */
  lemma JoinAt(base: nat, order: seq<nat>, blocks: map<nat, nat>, arena: set<nat>, j: nat)
    requires ListOk(base, order, blocks) && Tiles(blocks, arena) && j < |order|
    requires forall i :: 0 <= i < |order| && i != j && i + 1 != j ==> Clear(order, blocks, i)
    ensures var s, m := JoinList(order, blocks, j), JoinBlocks(order, blocks, j);
            && ListOk(base, s, m) && Tiles(m, arena)
            && forall i :: 0 <= i < |s| && (i + 1 == j ==> Clear(order, blocks, i)) ==> Clear(s, m, i)
  {
    hide Held, Merged, Drop;
    if Touches(order, blocks, j) {
      MergeTiles(blocks, arena, order[j], order[j + 1]);
      DropOk(base, order, blocks, j);
      var s, m := Drop(order, j), Merged(blocks, order[j], order[j + 1]);
      hide Clear;
      forall i | 0 <= i < |s| && (i + 1 == j ==> Clear(order, blocks, i)) ensures Clear(s, m, i) {
        assert Clear(order, blocks, if i >= j then i + 1 else i);
      }
    }
  }

  /** The blocks that are not in the free list. */
  ghost function LiveOf(order: seq<nat>, blocks: map<nat, nat>): map<nat, nat>
  {
    map a | a in blocks && a !in order :: blocks[a]
  }

  lemma InsertLive(order: seq<nat>, blocks: map<nat, nat>, k: nat, bp: nat)
    requires k < |order|
    ensures LiveOf(Insert(order, k, bp), blocks) == LiveOf(order, blocks) - {bp}
  {
    var s := Insert(order, k, bp);
    forall a ensures a in s <==> a in order || a == bp {
      if a in order {
        var i :| 0 <= i < |order| && order[i] == a;
        assert s[if i <= k then i else i + 1] == a;
      }
      if a == bp { assert s[k + 1] == a; }
    }
  }

  lemma DropMembers(order: seq<nat>, j: nat)
    requires Sorted(order) && j + 1 < |order|
    ensures forall a :: a in Drop(order, j) <==> a in order && a != order[j + 1]
  {
    var s := Drop(order, j);
    forall a ensures a in s <==> a in order && a != order[j + 1] {
      if a in order && a != order[j + 1] {
        var i :| 0 <= i < |order| && order[i] == a;
        assert s[if i <= j then i else i - 1] == a;
      }
    }
  }

  lemma JoinLive(base: nat, order: seq<nat>, blocks: map<nat, nat>, j: nat)
    requires ListOk(base, order, blocks)
    ensures LiveOf(JoinList(order, blocks, j), JoinBlocks(order, blocks, j)) == LiveOf(order, blocks)
    ensures forall a :: a in JoinList(order, blocks, j) ==> a in order
  {
    hide Drop;
    if Touches(order, blocks, j) {
      DropMembers(order, j);
    }
  }

  /** Taking the block at position j + 1 out of the list. */
  lemma TakeOk(base: nat, order: seq<nat>, blocks: map<nat, nat>, j: nat)
    requires FreeList(base, order, blocks) && j + 1 < |order| && Apart(blocks)
    ensures FreeList(base, Drop(order, j), blocks)
    ensures LiveOf(Drop(order, j), blocks) == LiveOf(order, blocks)[order[j + 1] := blocks[order[j + 1]]]
  {
    var s := Drop(order, j);
    forall i | 0 <= i < |s| ensures Clear(s, blocks, i) {
      assert Clear(order, blocks, if i <= j then i else i + 1);
    }
    DropMembers(order, j);
  }

  /** Cutting n units off the end of the free block at position j. */
  lemma CutOk(base: nat, order: seq<nat>, blocks: map<nat, nat>, arena: set<nat>, j: nat, n: nat)
    requires FreeList(base, order, blocks) && Tiles(blocks, arena) && 1 <= j < |order| && 0 < n < blocks[order[j]]
    ensures var m, t := Split(blocks, order[j], n), order[j] + blocks[order[j]] - n;
            && FreeList(base, order, m) && Tiles(m, arena) && t !in order
            && LiveOf(order, m) == LiveOf(order, blocks)[t := n] && t !in blocks
  {
    hide Held;
    SplitTiles(blocks, arena, order[j], n);
    var m, t := Split(blocks, order[j], n), order[j] + blocks[order[j]] - n;
    forall i | 0 <= i < |order| ensures Clear(order, m, i) {
      assert Clear(order, blocks, i);
    }
    assert t !in order;
  }
}
