/** Circular doubly linked lists with a sentinel, over nodes named by their
    index in a static table: the buffer cache's MRU list and the run queues. */
module Ring {

  ghost predicate Nodes(size: nat, head: nat, order: seq<nat>)
  {
    && head < size
    && (forall i :: 0 <= i < |order| ==> order[i] < size && order[i] != head)
    && (forall i, j :: 0 <= i < j < |order| ==> order[i] != order[j])
  }

  /** The node after the k-th one, the sentinel being before the first and
      after the last. */
  function After(head: nat, order: seq<nat>, k: int): nat
    requires -1 <= k < |order|
  {
    if k + 1 < |order| then order[k + 1] else head
  }

  function Before(head: nat, order: seq<nat>, k: int): nat
    requires 0 <= k <= |order|
  {
    if k > 0 then order[k - 1] else head
  }

  ghost predicate LinkedAt(next: seq<nat>, prev: seq<nat>, head: nat, order: seq<nat>, k: nat)
    requires |next| == |prev| && Nodes(|next|, head, order) && k < |order|
  {
    next[order[k]] == After(head, order, k) && prev[order[k]] == Before(head, order, k)
  }

  /** `next` and `prev` link exactly the nodes of `order`, in that order. */
  ghost predicate IsRing(next: seq<nat>, prev: seq<nat>, head: nat, order: seq<nat>)
  {
    && |next| == |prev| && Nodes(|next|, head, order)
    && next[head] == After(head, order, -1) && prev[head] == Before(head, order, |order|)
    && forall k :: 0 <= k < |order| ==> LinkedAt(next, prev, head, order, k)
  }

  /** The neighbours of the k-th node. */
  lemma RingAt(next: seq<nat>, prev: seq<nat>, head: nat, order: seq<nat>, k: nat)
    requires IsRing(next, prev, head, order) && k < |order|
    ensures next[order[k]] == After(head, order, k) && prev[order[k]] == Before(head, order, k)
  {
    assert LinkedAt(next, prev, head, order, k);
  }

  /** A ring depends only on the links of its own nodes. */
  lemma RingFrame(next: seq<nat>, prev: seq<nat>, next': seq<nat>, prev': seq<nat>, head: nat, order: seq<nat>)
    requires IsRing(next, prev, head, order)
    requires |next'| == |next| && |prev'| == |prev|
    requires next'[head] == next[head] && prev'[head] == prev[head]
    requires forall k :: 0 <= k < |order| ==> next'[order[k]] == next[order[k]] && prev'[order[k]] == prev[order[k]]
    ensures IsRing(next', prev', head, order)
  {
    forall k | 0 <= k < |order| ensures LinkedAt(next', prev', head, order, k) {
      RingAt(next, prev, head, order, k);
    }
  }

  function Without(order: seq<nat>, k: nat): (r: seq<nat>)
    requires k < |order|
    ensures |r| == |order| - 1
    ensures forall i :: 0 <= i < |r| ==> r[i] == if i < k then order[i] else order[i + 1]
  {
    order[..k] + order[k + 1..]
  }

  lemma WithoutNodes(size: nat, head: nat, order: seq<nat>, k: nat)
    requires Nodes(size, head, order) && k < |order|
    ensures Nodes(size, head, Without(order, k)) && |Without(order, k)| == |order| - 1
    ensures forall i :: 0 <= i < |order| - 1 ==> Without(order, k)[i] == if i < k then order[i] else order[i + 1]
  {
  }

  /** Who is next to the i-th remaining node once the k-th is gone. */
  lemma WithoutNeighbours(head: nat, order: seq<nat>, k: nat, i: nat)
    requires k < |order| && i < |order| - 1
    ensures var r, j := Without(order, k), if i < k then i else i + 1;
            && r[i] == order[j]
            && After(head, r, i) == After(head, order, if j == k - 1 then k else j)
            && Before(head, r, i) == Before(head, order, if j == k + 1 then k else j)
  {
  }

  /** The links of the i-th remaining node once the k-th is taken out. */
  lemma UnlinkAt(next: seq<nat>, prev: seq<nat>, head: nat, order: seq<nat>, k: nat, i: nat)
    requires IsRing(next, prev, head, order) && k < |order| && i < |order| - 1
    ensures var b, r := order[k], Without(order, k);
            && next[b] < |next| && prev[b] < |next| && Nodes(|next|, head, r)
            && LinkedAt(next[prev[b] := next[b]], prev[next[b] := prev[b]], head, r, i)
  {
    var j := if i < k then i else i + 1;
    RingAt(next, prev, head, order, k);
    RingAt(next, prev, head, order, j);
    WithoutNodes(|next|, head, order, k);
    WithoutNeighbours(head, order, k, i);
    assert order[j] == Before(head, order, k) <==> j == k - 1;
    assert order[j] == After(head, order, k) <==> j == k + 1;
    hide Without, IsRing, After, Before;
  }

  /** `b->next->prev = b->prev; b->prev->next = b->next;` takes b out. */
  lemma Unlink(next: seq<nat>, prev: seq<nat>, head: nat, order: seq<nat>, k: nat)
    requires IsRing(next, prev, head, order) && k < |order|
    ensures var b := order[k];
            && next[b] < |next| && prev[b] < |next|
            && IsRing(next[prev[b] := next[b]], prev[next[b] := prev[b]], head, Without(order, k))
  {
    var b, r := order[k], Without(order, k);
    WithoutNodes(|next|, head, order, k);
    RingAt(next, prev, head, order, k);
    var next', prev' := next[prev[b] := next[b]], prev[next[b] := prev[b]];
    assert next'[head] == After(head, r, -1) && prev'[head] == Before(head, r, |r|);
    hide Without, LinkedAt, After, Before;
    forall i | 0 <= i < |r| ensures LinkedAt(next', prev', head, r, i) {
      UnlinkAt(next, prev, head, order, k, i);
    }
  }

  /** Splicing b in after the sentinel. */
  lemma PushFront(next: seq<nat>, prev: seq<nat>, head: nat, order: seq<nat>, b: nat)
    requires IsRing(next, prev, head, order)
    requires b < |next| && b != head && b !in order
    ensures next[head] < |next|
    ensures IsRing(next[b := next[head]][head := b], prev[b := head][next[head] := b], head, [b] + order)
  {
    var r := [b] + order;
    var next', prev' := next[b := next[head]][head := b], prev[b := head][next[head] := b];
    assert Nodes(|next|, head, r);
    forall i | 0 <= i < |r| ensures LinkedAt(next', prev', head, r, i) {
      if i > 0 { RingAt(next, prev, head, order, i - 1); }
    }
  }

  /** Splicing b in before the sentinel. */
  lemma PushBack(next: seq<nat>, prev: seq<nat>, head: nat, order: seq<nat>, b: nat)
    requires IsRing(next, prev, head, order)
    requires b < |next| && b != head && b !in order
    ensures prev[head] < |next|
    ensures IsRing(next[b := head][prev[head] := b], prev[b := prev[head]][head := b], head, order + [b])
  {
    var r := order + [b];
    var next', prev' := next[b := head][prev[head] := b], prev[b := prev[head]][head := b];
    assert Nodes(|next|, head, r);
    forall i | 0 <= i < |r| ensures LinkedAt(next', prev', head, r, i) {
      if i < |order| { RingAt(next, prev, head, order, i); }
    }
  }

  /** n distinct numbers below n are all of them. */
  lemma {:induction false} AllPresent(order: seq<nat>, n: nat, x: nat)
    requires |order| == n && x < n
    requires forall i :: 0 <= i < n ==> order[i] < n
    requires forall i, j :: 0 <= i < j < n ==> order[i] != order[j]
    ensures x in order
    decreases n
  {
    var last := order[n - 1];
    if last != x {
      // rename n-1 to last in the other n-1 positions and drop the last one
      var r := seq(n - 1, i requires 0 <= i < n - 1 => if order[i] == n - 1 then last else order[i]);
      var y := if x == n - 1 then last else x;
      AllPresent(r, n - 1, y);
      var i :| 0 <= i < n - 1 && r[i] == y;
      assert order[i] == x;
    }
  }
}
