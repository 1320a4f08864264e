/** The priority queue of build_tree: a heap of tree nodes in heap[1..heapLen], least frequent node first. */
module Heap {
  const SMALLEST: nat := 1

  /** The order of nodes: by frequency, then by depth. */
  predicate Smaller(f: seq<nat>, d: seq<nat>, n: nat, m: nat) {
    n < |f| && m < |f| && n < |d| && m < |d| && (f[n] < f[m] || (f[n] == f[m] && d[n] <= d[m]))
  }

  ghost predicate Nodes(h: seq<nat>, len: nat, f: seq<nat>, d: seq<nat>) {
    len < |h| && forall i | 1 <= i <= len :: h[i] < |f| && h[i] < |d|
  }

  ghost predicate Edge(h: seq<nat>, f: seq<nat>, d: seq<nat>, i: nat)
    requires 2 <= i < |h|
  {
    Smaller(f, d, h[i / 2], h[i])
  }

  /** Fathers from position from on are not greater than their sons. */
  ghost predicate Ordered(h: seq<nat>, len: nat, f: seq<nat>, d: seq<nat>, from: nat)
    requires len < |h|
  {
    forall i: nat | 2 <= i <= len && i / 2 >= from :: Edge(h, f, d, i)
  }

  /** The nodes in the heap. */
  function Content(h: seq<nat>, len: nat): multiset<nat>
    requires len < |h|
  {
    multiset(h[1..len + 1])
  }

  lemma {:induction false} RootSmallest(h: seq<nat>, len: nat, f: seq<nat>, d: seq<nat>, i: nat)
    requires Nodes(h, len, f, d) && Ordered(h, len, f, d, 1) && 1 <= i <= len
    ensures Smaller(f, d, h[1], h[i])
    decreases i
  {
    if i > 1 {
      assert Edge(h, f, d, i);
      RootSmallest(h, len, f, d, i / 2);
    }
  }

  /** The root comes before every other node: it is not more frequent, and among equals not deeper. */
  lemma RootLeast(h: seq<nat>, len: nat, f: seq<nat>, d: seq<nat>)
    requires Nodes(h, len, f, d) && Ordered(h, len, f, d, 1) && 1 <= len
    ensures h[1] in Content(h, len)
    ensures forall x: nat | x in Content(h, len) :: Smaller(f, d, h[1], x)
  {
    assert h[1..len + 1][0] == h[1];
    forall x: nat | x in Content(h, len)
      ensures Smaller(f, d, h[1], x)
    {
      var j :| 0 <= j < len && h[1..len + 1][j] == x;
      RootSmallest(h, len, f, d, j + 1);
    }
  }

  lemma SwapContent(h: seq<nat>, len: nat, i: nat, j: nat)
    requires len < |h| && 1 <= i <= len && 1 <= j <= len
    ensures Content(h[i := h[j]][j := h[i]], len) == Content(h, len)
  {
    var s := h[1..len + 1];
    assert h[i := h[j]][j := h[i]][1..len + 1] == s[i - 1 := s[j - 1]][j - 1 := s[i - 1]];
  }

  /** Removing the last node of the heap after copying it over position 1. */
  lemma RemoveContent(h: seq<nat>, len: nat)
    requires 2 <= len < |h|
    ensures Content(h[1 := h[len]], len - 1) == Content(h, len) - multiset{h[1]}
  {
    var g := h[1 := h[len]];
    var mid := h[2..len];
    assert g[1..len] == [h[len]] + mid;
    assert h[1..len + 1] == [h[1]] + mid + [h[len]];
  }

  lemma ReplaceContent(h: seq<nat>, len: nat, node: nat)
    requires 1 <= len < |h|
    ensures Content(h[1 := node], len) == Content(h, len) - multiset{h[1]} + multiset{node}
  {
    assert h[1..len + 1] == [h[1]] + h[2..len + 1];
    assert h[1 := node][1..len + 1] == [node] + h[2..len + 1];
  }

  lemma AddContent(h: seq<nat>, len: nat, node: nat)
    requires len + 1 < |h|
    ensures Content(h[len + 1 := node], len + 1) == Content(h, len) + multiset{node}
  {
    assert h[len + 1 := node][1..len + 2] == h[1..len + 1] + [node];
  }

  lemma ContentNodes(h: seq<nat>, g: seq<nat>, len: nat, f: seq<nat>, d: seq<nat>)
    requires Nodes(h, len, f, d) && len < |g| && Content(h, len) == Content(g, len)
    ensures Nodes(g, len, f, d)
  {
    forall i | 1 <= i <= len
      ensures g[i] < |f| && g[i] < |d|
    {
      assert g[1..len + 1][i - 1] == g[i];
      assert g[i] in Content(h, len);
      var j :| 0 <= j < len && h[1..len + 1][j] == g[i];
      assert h[j + 1] == g[i];
    }
  }

  /** The heap with a hole at position k, filled with the node that is moving down. */
  ghost predicate Sifting(g: seq<nat>, len: nat, f: seq<nat>, d: seq<nat>, from: nat, k: nat)
    requires len < |g|
  {
    && from <= k <= len
    && (forall i: nat | 2 <= i <= len && i / 2 >= from && i / 2 != k :: Edge(g, f, d, i))
    && (k > from ==> k / 2 >= from && forall i: nat | 2 <= i <= len && i / 2 == k :: Smaller(f, d, g[k / 2], g[i]))
  }

  lemma SiftDown(g: seq<nat>, len: nat, f: seq<nat>, d: seq<nat>, from: nat, k: nat, j: nat)
    requires Nodes(g, len, f, d) && 1 <= from && Sifting(g, len, f, d, from, k) && j <= len && j / 2 == k
    requires !Smaller(f, d, g[k], g[j])
    requires forall i: nat | 2 <= i <= len && i / 2 == k :: Smaller(f, d, g[j], g[i])
    ensures Sifting(g[k := g[j]][j := g[k]], len, f, d, from, j)
  {
    var g' := g[k := g[j]][j := g[k]];
    forall i: nat | 2 <= i <= len && i / 2 >= from && i / 2 != j
      ensures Edge(g', f, d, i)
    {
      if i / 2 != k {
        assert Edge(g, f, d, i);
      }
    }
    forall i: nat | 2 <= i <= len && i / 2 == j
      ensures Smaller(f, d, g'[k], g'[i])
    {
      assert Edge(g, f, d, i);
    }
  }

  lemma SiftEnd(g: seq<nat>, len: nat, f: seq<nat>, d: seq<nat>, from: nat, k: nat)
    requires len < |g| && Sifting(g, len, f, d, from, k)
    requires forall i: nat | 2 <= i <= len && i / 2 == k :: Smaller(f, d, g[k], g[i])
    ensures Ordered(g, len, f, d, from)
  {
    forall i: nat | 2 <= i <= len && i / 2 >= from
      ensures Edge(g, f, d, i)
    {
    }
  }

  /** pqdownheap: moves the node at position k0 down until the heap is ordered from k0 on. */
  method PqDownHeap(heap: array<nat>, heapLen: nat, f: array<nat>, d: array<nat>, k0: nat)
    requires heap != f && heap != d && 1 <= k0 <= heapLen < heap.Length && Nodes(heap[..], heapLen, f[..], d[..])
    requires Ordered(heap[..], heapLen, f[..], d[..], k0 + 1)
    modifies heap
    ensures Nodes(heap[..], heapLen, f[..], d[..]) && Ordered(heap[..], heapLen, f[..], d[..], k0)
    ensures Content(heap[..], heapLen) == old(Content(heap[..], heapLen))
    ensures forall i: nat | i < heap.Length && (i == 0 || i > heapLen) :: heap[i] == old(heap[i])
  {
    hide Content;
    ghost var fs, ds := f[..], d[..];
    var v := heap[k0];
    var k, j := k0, 2 * k0;
    ghost var g := heap[..];
    while j <= heapLen
      invariant k0 <= k <= heapLen && j == 2 * k && f[..] == fs && d[..] == ds
      invariant |g| == heap.Length && heap[..][k := v] == g
      invariant Nodes(g, heapLen, fs, ds) && Sifting(g, heapLen, fs, ds, k0, k)
      invariant Content(g, heapLen) == old(Content(heap[..], heapLen))
      invariant forall i: nat | i < heap.Length && (i == 0 || i > heapLen) :: heap[i] == old(heap[i])
      decreases heapLen - k
    {
      if j < heapLen && Smaller(f[..], d[..], heap[j + 1], heap[j]) {
        j := j + 1;
      }
      assert forall i: nat | 2 <= i <= heapLen && i / 2 == k :: i == 2 * k || i == 2 * k + 1;
      assert forall i: nat | 2 <= i <= heapLen && i / 2 == k :: Smaller(fs, ds, g[j], g[i]);
      if Smaller(f[..], d[..], v, heap[j]) {
        break;
      }
      SiftDown(g, heapLen, fs, ds, k0, k, j);
      SwapContent(g, heapLen, k, j);
      ghost var g' := g[k := g[j]][j := g[k]];
      ContentNodes(g, g', heapLen, fs, ds);
      heap[k] := heap[j];
      g := g';
      k := j;
      j := 2 * j;
    }
    assert forall i: nat | 2 <= i <= heapLen && i / 2 == k :: Smaller(fs, ds, g[k], g[i]);
    SiftEnd(g, heapLen, fs, ds, k0, k);
    heap[k] := v;
    assert heap[..] == g;
  }
}
