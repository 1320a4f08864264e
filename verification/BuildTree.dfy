/** build_tree of trees.c: the Huffman tree of a frequency table, its code lengths and its codes. */
module BuildTree {
  import opened Bits
  import opened Canonical
  import opened GenCodes
  import opened Sums
  import opened Huffman
  import opened HuffTail
  import opened GenBitlen
  import opened BitLengths
  import opened Heap

  // ---- the heap as a set of nodes

  /** The heap holds exactly the nodes of a, least frequent first. */
  ghost predicate Heaped(h: seq<nat>, len: nat, f: seq<nat>, d: seq<nat>, a: set<nat>) {
    Nodes(h, len, f, d) && Ordered(h, len, f, d, 1) && Content(h, len) == multiset(a)
  }

  lemma SameHeap(h: seq<nat>, g: seq<nat>, len: nat, f: seq<nat>, d: seq<nat>, from: nat)
    requires len < |h| && len < |g| && forall i | 1 <= i <= len :: h[i] == g[i]
    ensures Content(h, len) == Content(g, len)
    ensures Nodes(h, len, f, d) <==> Nodes(g, len, f, d)
    ensures from >= 1 && Ordered(h, len, f, d, from) ==> Ordered(g, len, f, d, from)
  {
    assert h[1..len + 1] == g[1..len + 1];
    if from >= 1 && Ordered(h, len, f, d, from) {
      forall i: nat | 2 <= i <= len && i / 2 >= from
        ensures Edge(g, f, d, i)
      {
        assert Edge(h, f, d, i);
      }
    }
  }

  /** Replacing the root leaves the order below it. */
  lemma RootReplaced(h: seq<nat>, len: nat, len': nat, f: seq<nat>, d: seq<nat>, x: nat)
    requires Nodes(h, len, f, d) && Ordered(h, len, f, d, 1) && 1 <= len' <= len && x < |f| && x < |d|
    ensures Nodes(h[1 := x], len', f, d) && Ordered(h[1 := x], len', f, d, 2)
  {
    forall i: nat | 2 <= i <= len' && i / 2 >= 2
      ensures Edge(h[1 := x], f, d, i)
    {
      assert Edge(h, f, d, i);
    }
  }

  /** pqremove: takes out a least frequent node. */
  method PqRemove(heap: array<nat>, heapLen: nat, fc: array<nat>, depth: array<nat>, ghost a: set<nat>) returns (top: nat, len: nat)
    requires heap != fc && heap != depth && 2 <= heapLen < heap.Length && Heaped(heap[..], heapLen, fc[..], depth[..], a)
    modifies heap
    ensures len == heapLen - 1 && Heaped(heap[..], len, fc[..], depth[..], a - {top})
    ensures top in a && top < fc.Length && top < depth.Length && forall x: nat | x in a :: Smaller(fc[..], depth[..], top, x)
    ensures forall i: nat | heapLen <= i < heap.Length :: heap[i] == old(heap[i])
  {
    hide Content, Ordered;
    ghost var h, f, d := heap[..], fc[..], depth[..];
    RootLeast(h, heapLen, f, d);
    assert forall x: nat | x in a :: x in Content(h, heapLen);
    top := heap[SMALLEST];
    RootReplaced(h, heapLen, heapLen - 1, f, d, h[heapLen]);
    RemoveContent(h, heapLen);
    assert multiset(a) - multiset{top} == multiset(a - {top});
    heap[SMALLEST] := heap[heapLen];
    len := heapLen - 1;
    assert heap[..] == h[1 := h[heapLen]];
    PqDownHeap(heap, len, fc, depth, SMALLEST);
  }

  /** Puts a new node in place of the root. */
  method PqReplace(heap: array<nat>, heapLen: nat, fc: array<nat>, depth: array<nat>, node: nat, ghost a: set<nat>)
    requires heap != fc && heap != depth && 1 <= heapLen < heap.Length && node < fc.Length && node < depth.Length
    requires Heaped(heap[..], heapLen, fc[..], depth[..], a) && node !in a
    modifies heap
    ensures Heaped(heap[..], heapLen, fc[..], depth[..], a - {old(heap[1])} + {node})
    ensures forall i: nat | heapLen < i < heap.Length :: heap[i] == old(heap[i])
  {
    hide Content, Ordered;
    ghost var h, f, d := heap[..], fc[..], depth[..];
    RootReplaced(h, heapLen, heapLen, f, d, node);
    ReplaceContent(h, heapLen, node);
    RootLeast(h, heapLen, f, d);
    assert multiset(a) - multiset{h[1]} + multiset{node} == multiset(a - {h[1]} + {node});
    heap[SMALLEST] := node;
    assert heap[..] == h[1 := node];
    PqDownHeap(heap, heapLen, fc, depth, SMALLEST);
  }

  /** Frequencies and depths of nodes outside the heap do not matter to it. */
  lemma HeapedFrame(h: seq<nat>, len: nat, f: seq<nat>, d: seq<nat>, f': seq<nat>, d': seq<nat>, a: set<nat>)
    requires Heaped(h, len, f, d, a) && |f'| == |f| && |d'| == |d|
    requires forall x: nat | x in a && x < |f| && x < |d| :: f'[x] == f[x] && d'[x] == d[x]
    ensures Heaped(h, len, f', d', a)
  {
    forall i | 1 <= i <= len
      ensures h[i] in a
    {
      assert h[1..len + 1][i - 1] == h[i];
      assert h[i] in Content(h, len);
    }
    forall i: nat | 2 <= i <= len && i / 2 >= 1
      ensures Edge(h, f', d', i)
    {
      assert Edge(h, f, d, i);
    }
  }

  // ---- extending a trace

  function Extended(t: Trace, n: nat, m: nat): Trace {
    Trace(t.leaves, t.e, t.ms + [Pair(n, m)], t.f + [F(t, n) + F(t, m)])
  }

  lemma {:induction false} ExtendedActive(t: Trace, n: nat, m: nat, i: nat)
    requires i <= |t.ms|
    ensures Active(Extended(t, n, m), i) == Active(t, i)
    ensures Out(Extended(t, n, m).ms, i) == Out(t.ms, i)
  {
    if i > 0 {
      ExtendedActive(t, n, m, i - 1);
    }
  }

  /** The active nodes with their frequencies: positive, and with an unchanged sum. */
  ghost predicate Weighted(t: Trace, total: nat) {
    && ValidTrace(t) && Greedy(t) && |t.f| == Size(t)
    && (forall x: nat | x in Active(t, |t.ms|) :: F(t, x) >= 1)
    && Sum(Active(t, |t.ms|), FreqW(t), Size(t)) == total
  }

  ghost function FreqW(t: Trace): nat -> int { (x: nat) => F(t, x) }

  lemma ExtendedF(t: Trace, n: nat, m: nat, x: nat)
    requires |t.f| == Size(t)
    ensures F(Extended(t, n, m), x) == if x < Size(t) then F(t, x) else if x == Size(t) then F(t, n) + F(t, m) else 0
  {
  }

  lemma {:induction false} ExtendedHeight(t: Trace, n: nat, m: nat, x: nat)
    requires x < Size(t)
    ensures Height(Extended(t, n, m), x) == Height(t, x)
    decreases x
  {
    hide OneUp;
    if t.e <= x && t.ms[x - t.e].n < x && t.ms[x - t.e].m < x {
      ExtendedHeight(t, n, m, t.ms[x - t.e].n);
      ExtendedHeight(t, n, m, t.ms[x - t.e].m);
    }
  }

  lemma NewHeight(t: Trace, n: nat, m: nat)
    requires n < Size(t) && m < Size(t)
    ensures Height(Extended(t, n, m), Size(t)) == OneUp(Height(t, n), Height(t, m))
  {
    hide OneUp;
    ExtendedHeight(t, n, m, n);
    ExtendedHeight(t, n, m, m);
  }

  lemma ExtendedBefore(t: Trace, n: nat, m: nat, x: nat, y: nat)
    requires |t.f| == Size(t) && x < Size(t) && y < Size(t)
    ensures Precedes(Extended(t, n, m), x, y) <==> Precedes(t, x, y)
  {
    hide F, Height;
    ExtendedF(t, n, m, x);
    ExtendedF(t, n, m, y);
    ExtendedHeight(t, n, m, x);
    ExtendedHeight(t, n, m, y);
  }

  lemma ExtendedOk(t: Trace, n: nat, m: nat, i: nat)
    requires |t.f| == Size(t) && ValidTrace(t) && Greedy(t) && i < |t.ms|
    ensures MergeOk(Extended(t, n, m), i) && LeastTwo(Extended(t, n, m), i)
  {
    hide F, Active, Precedes;
    var u := Extended(t, n, m);
    ExtendedActive(t, n, m, i);
    ActiveBound(t, i);
    assert MergeOk(t, i) && LeastTwo(t, i) && u.ms[i] == t.ms[i];
    forall x: nat | x < Size(t)
      ensures F(u, x) == F(t, x)
    {
      ExtendedF(t, n, m, x);
    }
    ExtendedBefore(t, n, m, t.ms[i].n, t.ms[i].m);
    forall x: nat | x in Active(t, i) && x != t.ms[i].n ensures Precedes(u, t.ms[i].m, x) {
      ExtendedBefore(t, n, m, t.ms[i].m, x);
    }
  }

  lemma ExtendedTrace(t: Trace, n: nat, m: nat)
    requires |t.f| == Size(t) && ValidTrace(t) && Greedy(t)
    requires n in Active(t, |t.ms|) && m in Active(t, |t.ms|) && n != m && Precedes(t, n, m)
    requires forall x: nat | x in Active(t, |t.ms|) && x != n :: Precedes(t, m, x)
    ensures ValidTrace(Extended(t, n, m)) && Greedy(Extended(t, n, m))
  {
    hide F, Active, Precedes;
    var u, k := Extended(t, n, m), |t.ms|;
    ExtendedActive(t, n, m, k);
    ActiveBound(t, k);
    ExtendedBefore(t, n, m, n, m);
    forall x: nat | x in Active(t, k) && x != n ensures Precedes(u, m, x) {
      ExtendedBefore(t, n, m, m, x);
    }
    forall x: nat | x <= Size(t)
      ensures F(u, x) == if x < Size(t) then F(t, x) else F(t, n) + F(t, m)
    {
      ExtendedF(t, n, m, x);
    }
    assert u.ms[k] == Pair(n, m);
    assert MergeOk(u, k) && LeastTwo(u, k);
    forall i: nat | i < k
      ensures MergeOk(u, i) && LeastTwo(u, i)
    {
      ExtendedOk(t, n, m, i);
    }
  }

  lemma ExtendedAt(t: Trace, n: nat, m: nat)
    ensures Active(Extended(t, n, m), |t.ms| + 1) == Active(t, |t.ms|) - {n} - {m} + {Size(t)}
    ensures Out(Extended(t, n, m).ms, |t.ms| + 1) == [m, n] + Out(t.ms, |t.ms|)
  {
    ExtendedActive(t, n, m, |t.ms|);
  }

  lemma TraceNext(t: Trace, total: nat, n: nat, m: nat)
    requires Weighted(t, total)
    requires n in Active(t, |t.ms|) && m in Active(t, |t.ms|) && n != m && Precedes(t, n, m)
    requires forall x: nat | x in Active(t, |t.ms|) && x != n :: Precedes(t, m, x)
    ensures Weighted(Extended(t, n, m), total)
    ensures Active(Extended(t, n, m), |t.ms| + 1) == Active(t, |t.ms|) - {n} - {m} + {Size(t)}
    ensures forall x: nat | x in Active(t, |t.ms|) :: x < Size(t)
    ensures forall x: nat | x < Size(t) :: F(Extended(t, n, m), x) == F(t, x)
    ensures F(Extended(t, n, m), Size(t)) == F(t, n) + F(t, m)
    ensures Out(Extended(t, n, m).ms, |t.ms| + 1) == [m, n] + Out(t.ms, |t.ms|)
  {
    hide F, Sum, ValidTrace, Greedy, Active, Out, Precedes;
    var u, k := Extended(t, n, m), |t.ms|;
    ExtendedActive(t, n, m, k);
    ActiveBound(t, k);
    forall x: nat | x <= Size(t)
      ensures F(u, x) == if x < Size(t) then F(t, x) else F(t, n) + F(t, m)
    {
      ExtendedF(t, n, m, x);
    }
    ExtendedTrace(t, n, m);
    ExtendedAt(t, n, m);
    assert u.ms[k] == Pair(n, m);
    MergeSum(u, k, FreqW(u));
    SumExt(Active(t, k), FreqW(t), FreqW(u), Size(t));
    SumBeyond(Active(t, k), FreqW(u), Size(t), Size(u));
  }

  /** With another root left, the frequency of the new node is below the total. */
  lemma SumBelow(t: Trace, total: nat, n: nat, m: nat, z: nat)
    requires Weighted(t, total) && n in Active(t, |t.ms|) && m in Active(t, |t.ms|) && z in Active(t, |t.ms|)
    requires n != m && z != n && z != m
    ensures F(t, n) + F(t, m) < total
  {
    hide F, Sum, ValidTrace, Greedy, Active;
    var a, k := Active(t, |t.ms|), Size(t);
    ActiveBound(t, |t.ms|);
    SumTwo(a, n, m, FreqW(t), k);
    SumRemove(a - {n} - {m}, z, FreqW(t), k);
    SumNonneg(a - {n} - {m} - {z}, FreqW(t), k);
  }

  // ---- merging

  /** Sizes of the arrays: room for all nodes, and for the heap and the list of nodes taken out of it. */
  ghost predicate Sized(e: nat, count: nat, h: seq<nat>, f: seq<nat>, depth: seq<nat>, dl: seq<nat>) {
    2 <= count <= e <= 286 && |h| == HEAP_SIZE && |f| >= 2 * e && |depth| >= 2 * e && |dl| >= 2 * e
  }

  /** The heap in the lower part of the array, the nodes taken out in the upper part. */
  ghost predicate Merging(t: Trace, total: nat, count: nat, h: seq<nat>, heapLen: nat, heapMax: nat,
                          f: seq<nat>, depth: seq<nat>, dl: seq<nat>)
  {
    && Sized(t.e, count, h, f, depth, dl) && Weighted(t, total) && (count >= 3 ==> total <= 65536)
    && 1 <= heapLen && |t.ms| + heapLen == count && heapMax == HEAP_SIZE - 2 * |t.ms|
    && h[heapMax..] == Out(t.ms, |t.ms|) && HasDads(t, dl)
    && Heaped(h, heapLen, f, depth, Active(t, |t.ms|))
    && (forall x: nat | x in t.leaves :: f[x] == F(t, x))
    && (heapLen >= 2 ==> forall x: nat | x in Active(t, |t.ms|) :: x < |f| && f[x] == F(t, x))
    && (forall x: nat | x in Active(t, |t.ms|) :: x < |depth| && depth[x] == Height(t, x))
  }

  lemma MergingBounds(t: Trace, total: nat, count: nat, h: seq<nat>, heapLen: nat, heapMax: nat,
                      f: seq<nat>, depth: seq<nat>, dl: seq<nat>)
    requires Merging(t, total, count, h, heapLen, heapMax, f, depth, dl) && heapLen >= 2
    ensures heapLen + 1 < heapMax && heapMax <= HEAP_SIZE && Size(t) < 2 * t.e
    ensures Size(t) !in Active(t, |t.ms|) && Sized(t.e, count, h, f, depth, dl)
    ensures Heaped(h, heapLen, f, depth, Active(t, |t.ms|)) && heapLen < |h|
    ensures forall x: nat | x in Active(t, |t.ms|) :: x < |f| && x < |dl| && f[x] == F(t, x)
    ensures forall x: nat | x in Active(t, |t.ms|) :: x < |depth| && depth[x] == Height(t, x)
  {
    hide F, Height, Heaped, HasDads, Greedy, Out;
    ActiveBound(t, |t.ms|);
  }

  lemma SmallerIs(t: Trace, f: seq<nat>, depth: seq<nat>, x: nat, y: nat)
    requires Smaller(f, depth, x, y) && f[x] == F(t, x) && f[y] == F(t, y) && depth[x] == Height(t, x) && depth[y] == Height(t, y)
    ensures Precedes(t, x, y)
  {
    hide F, Height;
  }

  /** Two nodes n and m are out of the heap, their father has taken the place of m. */
  lemma MergingNext(t: Trace, total: nat, count: nat, h: seq<nat>, heapLen: nat, heapMax: nat,
                    f: seq<nat>, depth: seq<nat>, dl: seq<nat>, n: nat, m: nat,
                    h': seq<nat>, f': seq<nat>, depth': seq<nat>, dl': seq<nat>)
    requires Merging(t, total, count, h, heapLen, heapMax, f, depth, dl) && heapLen >= 2
    requires n in Active(t, |t.ms|) && m in Active(t, |t.ms|) && n != m && n < |f| && m < |f| && n < |dl| && m < |dl|
    requires n < |depth| && m < |depth| && Size(t) < |depth| && depth' == depth[Size(t) := OneUp(depth[n], depth[m])]
    requires forall x: nat | x in Active(t, |t.ms|) :: Smaller(f, depth, n, x)
    requires forall x: nat | x in Active(t, |t.ms|) && x != n :: Smaller(f, depth, m, x)
    requires Size(t) < |f| && f' == f[Size(t) := (f[n] + f[m]) % 65536] && dl' == dl[n := Size(t)][m := Size(t)]
    requires |h'| == |h| && heapMax >= 2 && h'[heapMax - 2..] == [m, n] + h[heapMax..]
    requires Heaped(h', heapLen - 1, f', depth', Active(t, |t.ms|) - {n} - {m} + {Size(t)})
    ensures Merging(Extended(t, n, m), total, count, h', heapLen - 1, heapMax - 2, f', depth', dl')
  {
    hide Heaped, ValidTrace, Greedy, F, Active, Sum, HasDads, Weighted, Height, Precedes, Smaller, OneUp;
    var u, k := Extended(t, n, m), |t.ms|;
    assert u.leaves == t.leaves && u.e == t.e && |u.ms| == k + 1;
    SmallerIs(t, f, depth, n, m);
    forall x: nat | x in Active(t, k) && x != n ensures Precedes(t, m, x) {
      SmallerIs(t, f, depth, m, x);
    }
    TraceNext(t, total, n, m);
    ActiveBoundOf(t, total);
    NextDads(t, total, dl, n, m);
    assert u.ms[..k] == t.ms;
    NewHeight(t, n, m);
    forall x: nat | x in Active(u, k + 1) ensures x < |depth'| && depth'[x] == Height(u, x) {
      if x != Size(t) {
        ExtendedHeight(t, n, m, x);
      }
    }
    forall x: nat | heapLen - 1 >= 2 && x in Active(u, k + 1)
      ensures x < |f'| && f'[x] == F(u, x)
    {
      if x == Size(t) {
        var z := ThirdNode(h', heapLen - 1, f', depth', Active(u, k + 1), x);
        SumBelow(t, total, n, m, z);
      }
    }
  }

  lemma ActiveBoundOf(t: Trace, total: nat)
    requires Weighted(t, total)
    ensures forall x: nat | x in Active(t, |t.ms|) :: x < Size(t)
    ensures forall x: nat | x in t.leaves :: x < t.e
    ensures ValidTrace(t)
  {
    ActiveBound(t, |t.ms|);
  }

  lemma NextDads(t: Trace, total: nat, dl: seq<nat>, n: nat, m: nat)
    requires Weighted(t, total) && HasDads(t, dl) && n in Active(t, |t.ms|) && m in Active(t, |t.ms|) && n < |dl| && m < |dl|
    ensures HasDads(Extended(t, n, m), dl[n := Size(t)][m := Size(t)])
  {
    hide Active, ValidTrace, Sum;
    var u, dl' := Extended(t, n, m), dl[n := Size(t)][m := Size(t)];
    forall i: nat | i < |u.ms|
      ensures HasDad(u, dl', i)
    {
      if i < |t.ms| {
        assert HasDad(t, dl, i);
        MergedGone(t, i, |t.ms|);
        assert u.ms[i] == t.ms[i];
      }
    }
  }

  /** A heap of two nodes has a node besides x. */
  lemma ThirdNode(h: seq<nat>, len: nat, f: seq<nat>, d: seq<nat>, a: set<nat>, x: nat) returns (z: nat)
    requires Heaped(h, len, f, d, a) && len >= 2 && x in a
    ensures z in a && z != x
  {
    var s := h[1..len + 1];
    assert s[0] in Content(h, len) && s[1] in Content(h, len);
    assert s == [s[0]] + [s[1]] + s[2..];
    assert multiset(s)[s[0]] == 1;
    z := if s[0] == x then s[1] else s[0];
  }

  lemma MergingLeaves(t: Trace, total: nat, count: nat, h: seq<nat>, heapLen: nat, heapMax: nat,
                      f: seq<nat>, depth: seq<nat>, dl: seq<nat>)
    requires Merging(t, total, count, h, heapLen, heapMax, f, depth, dl)
    ensures forall x: nat | x in Active(t, |t.ms|) :: x < Size(t) && (x < t.e ==> x in t.leaves)
    ensures h[heapMax..] == Out(t.ms, |t.ms|)
  {
    hide F, Heaped, HasDads, Greedy, Out;
    ActiveBound(t, |t.ms|);
  }

  lemma HeapedRoot(h: seq<nat>, len: nat, f: seq<nat>, d: seq<nat>, a: set<nat>)
    requires Heaped(h, len, f, d, a) && len >= 1
    ensures len < |h| && h[1] in a && h[1] < |f| && h[1] < |d| && forall x: nat | x in a :: Smaller(f, d, h[1], x)
  {
    RootLeast(h, len, f, d);
    assert forall x: nat | x in a :: x in Content(h, len);
  }

  lemma HeapedAbove(h: seq<nat>, g: seq<nat>, len: nat, f: seq<nat>, d: seq<nat>, a: set<nat>)
    requires Heaped(h, len, f, d, a) && len < |g| && forall i | 1 <= i <= len :: g[i] == h[i]
    ensures Heaped(g, len, f, d, a)
  {
    SameHeap(h, g, len, f, d, 1);
  }

  /** Moves two least frequent nodes from the heap to the list; m stays at the root for now. */
  method TakeTwo(heap: array<nat>, heapLen0: nat, heapMax0: nat, fc: array<nat>, depth: array<nat>, ghost a: set<nat>)
    returns (n: nat, m: nat, heapLen: nat, heapMax: nat)
    requires heap != fc && heap != depth && 2 <= heapLen0 && heapLen0 + 1 < heapMax0 <= heap.Length
    requires Heaped(heap[..], heapLen0, fc[..], depth[..], a)
    modifies heap
    ensures heapLen == heapLen0 - 1 && heapMax == heapMax0 - 2 && heap[1] == m && Heaped(heap[..], heapLen, fc[..], depth[..], a - {n})
    ensures heap[heapMax..] == [m, n] + old(heap[heapMax0..])
    ensures n in a && m in a && n != m && n < fc.Length && m < fc.Length && n < depth.Length && m < depth.Length
    ensures forall x: nat | x in a :: Smaller(fc[..], depth[..], n, x)
    ensures forall x: nat | x in a && x != n :: Smaller(fc[..], depth[..], m, x)
  {
    hide Heaped;
    ghost var tail := heap[heapMax0..];
    heapMax := heapMax0;
    n, heapLen := PqRemove(heap, heapLen0, fc, depth, a);
    ghost var h1 := heap[..];
    HeapedRoot(h1, heapLen, fc[..], depth[..], a - {n});
    m := heap[SMALLEST];
    heapMax := heapMax - 1;
    heap[heapMax] := n;
    heapMax := heapMax - 1;
    heap[heapMax] := m;
    assert heap[heapMax..] == [m, n] + tail;
    HeapedAbove(h1, heap[..], heapLen, fc[..], depth[..], a - {n});
  }

  /** One round of the loop of build_tree: joins two least frequent nodes. */
  method MergeTwo(heap: array<nat>, heapLen0: nat, heapMax0: nat, fc: array<nat>, depth: array<nat>, dl: array<nat>, node: nat,
                  ghost t: Trace, ghost total: nat, ghost count: nat)
    returns (heapLen: nat, heapMax: nat, ghost u: Trace)
    requires heap != fc && heap != depth && heap != dl && fc != depth && fc != dl && depth != dl
    requires Merging(t, total, count, heap[..], heapLen0, heapMax0, fc[..], depth[..], dl[..]) && heapLen0 >= 2 && node == Size(t)
    modifies heap, fc, depth, dl
    ensures Merging(u, total, count, heap[..], heapLen, heapMax, fc[..], depth[..], dl[..])
    ensures u.leaves == t.leaves && u.e == t.e && Size(u) == Size(t) + 1 && heapLen == heapLen0 - 1
    ensures forall x: nat | x < t.e :: fc[x] == old(fc[x]) && (x in t.leaves || dl[x] == old(dl[x]))
  {
    hide Merging, Heaped, F, Active, Weighted, HasDads, Out;
    ghost var a: set<nat>, h0: seq<nat>, f0: seq<nat>, d0: seq<nat>, l0: seq<nat> :=
      Active(t, |t.ms|), heap[..], fc[..], depth[..], dl[..];
    MergingBounds(t, total, count, h0, heapLen0, heapMax0, f0, d0, l0);
    MergingLeaves(t, total, count, h0, heapLen0, heapMax0, f0, d0, l0);
    var n, m: nat;
    n, m, heapLen, heapMax := TakeTwo(heap, heapLen0, heapMax0, fc, depth, a);
    fc[node] := (fc[n] + fc[m]) % 65536;
    depth[node] := ((if depth[n] >= depth[m] then depth[n] else depth[m]) + 1) % 256;
    ghost var high := OneUp(d0[n], d0[m]);
    dl[n], dl[m] := node, node;
    ghost var tail := heap[heapMax..];
    HeapedFrame(heap[..], heapLen, f0, d0, fc[..], depth[..], a - {n});
    PqReplace(heap, heapLen, fc, depth, node, a - {n});
    u := Extended(t, n, m);
    assert heap[heapMax..] == tail;
    ghost var sum: nat := (f0[n] + f0[m]) % 65536;
    assert fc[..] == f0[node := sum] && dl[..] == l0[n := node][m := node] && depth[..] == d0[node := high];
    MergingNext(t, total, count, h0, heapLen0, heapMax0, f0, d0, l0, n, m, heap[..], fc[..], depth[..], dl[..]);
  }

  // ---- the leaves

  /** The symbols below k with a frequency. */
  function Used(f: seq<nat>, k: nat): set<nat>
    requires k <= |f|
  {
    set n: nat | n < k && f[n] != 0
  }

  /** max is the greatest member of a, or a is empty. */
  ghost predicate Greatest(a: set<nat>, max: int)
    ensures Greatest(a, max) ==> max >= -1
  {
    (a == {} ==> max == -1) && (a != {} ==> max >= 0 && max in a) && forall x: nat | x in a :: x <= max
  }

  lemma UsedNext(f: seq<nat>, k: nat, max: int)
    requires k < |f| && Greatest(Used(f, k), max) && max < k
    ensures multiset(Used(f, k + 1)) == if f[k] != 0 then multiset(Used(f, k)) + multiset{k} else multiset(Used(f, k))
    ensures |Used(f, k + 1)| == |Used(f, k)| + (if f[k] != 0 then 1 else 0)
    ensures Greatest(Used(f, k + 1), if f[k] != 0 then k else max)
  {
    assert Used(f, k + 1) == if f[k] != 0 then Used(f, k) + {k} else Used(f, k);
  }

  lemma UsedNone(f: seq<nat>, h: seq<nat>)
    requires |h| > 0
    ensures Used(f, 0) == {} && Content(h, 0) == multiset(Used(f, 0)) && Greatest(Used(f, 0), -1)
  {
  }

  /** The first loop of build_tree: the symbols with a frequency, in order. */
  method InitHeap(heap: array<nat>, depth: array<nat>, fc: array<nat>, dl: array<nat>, elems: nat)
    returns (heapLen: nat, maxCode: int)
    requires heap != depth && heap != fc && heap != dl && depth != fc && depth != dl && fc != dl
    requires elems <= fc.Length && elems <= dl.Length && elems <= depth.Length && elems < heap.Length
    modifies heap, depth, dl
    ensures heapLen <= elems && Content(heap[..], heapLen) == multiset(Used(fc[..], elems)) && |Used(fc[..], elems)| == heapLen
    ensures Greatest(Used(fc[..], elems), maxCode) && maxCode < elems
    ensures forall x: nat | x < elems && fc[x] == 0 :: dl[x] == 0
    ensures forall x: nat | x < elems && fc[x] != 0 :: depth[x] == 0
  {
    hide Content, Used, Greatest;
    ghost var f := fc[..];
    heapLen, maxCode := 0, -1;
    UsedNone(f, heap[..]);
    var n: nat := 0;
    while n < elems
      invariant n <= elems && heapLen <= n && fc[..] == f && maxCode < n
      invariant Content(heap[..], heapLen) == multiset(Used(f, n)) && |Used(f, n)| == heapLen
      invariant Greatest(Used(f, n), maxCode)
      invariant forall x: nat | x < n && f[x] == 0 :: dl[x] == 0
      invariant forall x: nat | x < n && f[x] != 0 :: depth[x] == 0
    {
      UsedNext(f, n, maxCode);
      if fc[n] != 0 {
        AddContent(heap[..], heapLen, n);
        ghost var h := heap[..];
        heapLen := heapLen + 1;
        heap[heapLen], maxCode := n, n;
        assert heap[..] == h[heapLen := n];
        depth[n] := 0;
      } else {
        dl[n] := 0;
      }
      n := n + 1;
    }
  }

  /** The symbols that get a code although they are not used, so that there are at least two codes. */
  ghost predicate Forced(f0: seq<nat>, f: seq<nat>, elems: nat, forced: set<nat>) {
    && |f| == |f0| && elems <= |f|
    && (forall x: nat | x < |f| :: f[x] == if x in forced then 1 else f0[x])
    && (forall x: nat | x in forced :: x <= 2 && x < elems && f0[x] == 0)
    && (forced != {} ==> |Used(f, elems)| <= 2)
  }

  lemma ForceOne(f: seq<nat>, f': seq<nat>, elems: nat, node: nat)
    requires node < elems <= |f| && f[node] == 0 && f' == f[node := 1]
    ensures Used(f', elems) == Used(f, elems) + {node}
    ensures multiset(Used(f', elems)) == multiset(Used(f, elems)) + multiset{node}
    ensures |Used(f', elems)| == |Used(f, elems)| + 1
  {
    assert node !in Used(f, elems);
  }

  lemma ForceFree(a: set<nat>, max: int)
    requires |a| < 2 && Greatest(a, max) && max >= -1
    ensures max >= 2 ==> 0 !in a
  {
    if max >= 2 && 0 in a {
      assert {0, max as nat} <= a;
      SubsetSize({0, max as nat}, a);
    }
  }

  lemma SubsetSize(a: set<nat>, b: set<nat>)
    requires a <= b
    ensures |a| <= |b|
  {
    if a != {} {
      var x :| x in a;
      SubsetSize(a - {x}, b - {x});
    }
  }

  function NewMax(max: int): int { if max < 2 then max + 1 else max }
  function NewNode(max: int): int { if max < 2 then max + 1 else 0 }

  lemma ForceStep(f0: seq<nat>, f: seq<nat>, elems: nat, forced: set<nat>, max: int, node: nat)
    requires Forced(f0, f, elems, forced) && 3 <= elems && Greatest(Used(f, elems), max) && max < elems
    requires |Used(f, elems)| < 2 && node == NewNode(max)
    ensures node <= 2 && node < |f| && f[node] == 0 && node !in forced
    ensures Forced(f0, f[node := 1], elems, forced + {node}) && |forced + {node}| == |forced| + 1
    ensures Greatest(Used(f[node := 1], elems), NewMax(max)) && NewMax(max) < elems
    ensures multiset(Used(f[node := 1], elems)) == multiset(Used(f, elems)) + multiset{node}
    ensures |Used(f[node := 1], elems)| == |Used(f, elems)| + 1
  {
    hide Used;
    ForceFree(Used(f, elems), max);
    Unused(f, elems, node);
    ForceOne(f, f[node := 1], elems, node);
  }

  /** The second loop of build_tree: codes for symbols 0, 1 or 2 until there are two codes; the bits they will
      be counted for are taken off in advance. */
  method ForceCodes(heap: array<nat>, depth: array<nat>, fc: array<nat>, d: Desc, heapLen0: nat, maxCode0: int, optLen0: int, staticLen0: int)
    returns (heapLen: nat, maxCode: int, optLen: int, staticLen: int, ghost forced: set<nat>)
    requires heap != depth && heap != fc && depth != fc && GoodDesc(d)
    requires d.elems <= fc.Length && d.elems <= depth.Length && d.elems < heap.Length && heapLen0 <= d.elems
    requires Content(heap[..], heapLen0) == multiset(Used(fc[..], d.elems)) && |Used(fc[..], d.elems)| == heapLen0
    requires Greatest(Used(fc[..], d.elems), maxCode0) && maxCode0 < d.elems
    requires forall x: nat | x < d.elems && fc[x] != 0 :: depth[x] == 0
    modifies heap, depth, fc
    ensures forall x: nat | x < d.elems && fc[x] != 0 :: depth[x] == 0
    ensures 2 <= heapLen <= d.elems && Forced(old(fc[..]), fc[..], d.elems, forced)
    ensures Content(heap[..], heapLen) == multiset(Used(fc[..], d.elems)) && |Used(fc[..], d.elems)| == heapLen
    ensures Greatest(Used(fc[..], d.elems), maxCode) && maxCode < d.elems
    ensures optLen == optLen0 - |forced|
    ensures staticLen == staticLen0 - (if d.stree.Some? then Sum(forced, LenW(StaticLens(d)), 3) else 0)
  {
    hide Content, Used, Greatest, Sum;
    assert Forced(fc[..], fc[..], d.elems, {});
    ghost var f0 := fc[..];
    heapLen, maxCode, optLen, staticLen, forced := heapLen0, maxCode0, optLen0, staticLen0, {};
    SumNone(LenW(StaticLens(d)), 3);
    while heapLen < 2
      invariant heapLen <= d.elems && maxCode < d.elems && Forced(f0, fc[..], d.elems, forced)
      invariant forall x: nat | x < d.elems && fc[x] != 0 :: depth[x] == 0
      invariant Content(heap[..], heapLen) == multiset(Used(fc[..], d.elems)) && |Used(fc[..], d.elems)| == heapLen
      invariant Greatest(Used(fc[..], d.elems), maxCode)
      invariant optLen == optLen0 - |forced|
      invariant staticLen == staticLen0 - (if d.stree.Some? then Sum(forced, LenW(StaticLens(d)), 3) else 0)
    {
      ghost var h, f, was := heap[..], fc[..], maxCode;
      var node: nat := 0;
      if maxCode < 2 {
        maxCode := maxCode + 1;
        node := maxCode;
      }
      ForceStep(f0, f, d.elems, forced, was, node);
      AddContent(h, heapLen, node);
      SumAdd(forced, node, LenW(StaticLens(d)), 3);
      heapLen := heapLen + 1;
      heap[heapLen] := node;
      fc[node] := 1;
      depth[node] := 0;
      assert heap[..] == h[heapLen := node] && fc[..] == f[node := 1];
      optLen := optLen - 1;
      if d.stree.Some? {
        staticLen := staticLen - d.stree.value[node];
      }
      forced := forced + {node};
    }
  }

  lemma Unused(f: seq<nat>, k: nat, n: nat)
    requires n < k <= |f| && n !in Used(f, k)
    ensures f[n] == 0
  {
  }

  ghost function LenW(l: seq<nat>): nat -> int { (x: nat) => LenAt(l, x) }

  // ---- the bit count

  /** The bits that all uses of the symbols below k take, with their extra bits. */
  function TreeCost(d: Desc, f: seq<nat>, l: seq<nat>, k: nat): int
    requires k <= |f|
  {
    if k == 0 then 0 else TreeCost(d, f, l, k - 1) + SymCost(d, f[k - 1], LenAt(l, k - 1), k - 1)
  }

  lemma TimesZero(x: int)
    ensures Times(0, x) == 0 && Times(1, x) == x
  {
  }

  /** Symbols outside a are not used. */
  lemma {:induction false} TreeCostSum(d: Desc, f: seq<nat>, l: seq<nat>, a: set<nat>, maxCode: nat, k: nat)
    requires k <= |f| && k <= maxCode + 1 && forall x: nat | x < k && x !in a :: f[x] == 0
    ensures TreeCost(d, f, l, k) == Sum(a, LeafCostW(d, f, l, maxCode), k)
  {
    hide Times;
    if k > 0 {
      TreeCostSum(d, f, l, a, maxCode, k - 1);
      TimesZero(LenAt(l, k - 1) + XBits(d, k - 1));
    }
  }

  ghost function ForcedW(forced: set<nat>, l: seq<nat>): nat -> int { (x: nat) => if x in forced then LenAt(l, x) else 0 }

  /** A forced symbol is counted once although it is not used. */
  lemma ForcedCost(d: Desc, f0: seq<nat>, f: seq<nat>, l: seq<nat>, forced: set<nat>, a: set<nat>, maxCode: nat, k: nat)
    requires GoodDesc(d) && maxCode < d.elems <= |f0| && d.elems <= |f| && maxCode < k && k >= 3
    requires forall x: nat | x < d.elems :: f[x] == if x in forced then 1 else f0[x]
    requires forall x: nat | x in forced :: x <= 2 && f0[x] == 0
    requires (forall x: nat | x in a :: x <= maxCode) && (forall x: nat | x < d.elems :: x in a <==> f[x] != 0)
    ensures Sum(a, LeafCostW(d, f, l, maxCode), k) == TreeCost(d, f0, l, maxCode + 1) + Sum(forced, LenW(l), 3)
  {
    hide Times, Sum, TreeCost;
    TreeCostSum(d, f0, l, a, maxCode, maxCode + 1);
    SumBeyond(a, LeafCostW(d, f0, l, maxCode), maxCode + 1, k);
    forall x: nat | x in a
      ensures CostAtLeaf(d, f, l, maxCode, x) == CostAtLeaf(d, f0, l, maxCode, x) + (if x in forced then LenAt(l, x) else 0)
    {
      TimesZero(LenAt(l, x) + XBits(d, x));
    }
    SumPlus(a, LeafCostW(d, f0, l, maxCode), ForcedW(forced, l), LeafCostW(d, f, l, maxCode), k);
    assert forced !! (a - forced) && forall x: nat | x in forced :: x in a;
    assert forced + (a - forced) == a;
    SumParts(forced, a - forced, ForcedW(forced, l), k);
    SumZero(a - forced, ForcedW(forced, l), k);
    SumExt(forced, ForcedW(forced, l), LenW(l), k);
    SumBeyond(forced, LenW(l), 3, k);
  }

  lemma {:induction false} SumOnes(a: set<nat>, w: nat -> int, k: nat)
    requires forall x: nat | x in a :: x < k && w(x) == 1
    ensures Sum(a, w, k) == |a|
    decreases |a|
  {
    if a == {} {
      SumNone(w, k);
    } else {
      var x: nat :| x in a;
      SumRemove(a, x, w, k);
      SumOnes(a - {x}, w, k);
    }
  }

  /** A tree of two leaves gives both the length 1. */
  lemma TwoLeaves(t: Trace, l: seq<nat>, max: nat)
    requires Finished(t) && |t.ms| == 1 && Clipped(t, l, max) && |l| == Size(t)
    ensures Over(t, l, max, 0) == 0 && forall x: nat | x in t.leaves :: LenAt(l, x) == 1
  {
    assert ClippedPair(t, l, max, 0) && MergeOk(t, 0);
    assert Active(t, 1) == Active(t, 0) - {t.ms[0].n} - {t.ms[0].m} + {t.e};
    assert Over(t, l, max, 1) == 0;
    var rest := t.leaves - {t.ms[0].n} - {t.ms[0].m};
    assert rest == {};
    forall x: nat | x in t.leaves
      ensures LenAt(l, x) == 1
    {
      assert x !in rest;
    }
  }

  // ---- the least total length

  function WeightedAt(f: seq<nat>, l: seq<nat>, x: nat): int { Times(if x < |f| then f[x] else 0, LenAt(l, x)) }
  ghost function WeightedW(f: seq<nat>, l: seq<nat>): nat -> int { (x: nat) => WeightedAt(f, l, x) }

  ghost function TotalLength(symbols: set<nat>, f: seq<nat>, l: seq<nat>): int { Sum(symbols, WeightedW(f, l), |l|) }

  /** No prefix code for the given symbols has a smaller total length than l. */
  ghost predicate Best(symbols: set<nat>, f: seq<nat>, l: seq<nat>) {
    forall code: seq<seq<bool>> | |code| == |l| && PrefixFree(symbols, code) ::
      TotalLength(symbols, f, l) <= TotalLength(symbols, f, CodeLens(code))
  }

  function PadCode(code: seq<seq<bool>>, k: nat): (r: seq<seq<bool>>)
    requires |code| <= k
    ensures |r| == k && forall x: nat | x < |code| :: r[x] == code[x]
  {
    code + seq(k - |code|, _ => [])
  }

  /** Without overflow the lengths are best. */
  lemma TreeBest(t: Trace, l: seq<nat>, lens: seq<nat>, f: seq<nat>, max: nat)
    requires Finished(t) && Greedy(t) && Clipped(t, l, max) && |l| == Size(t) && Over(t, l, max, 0) == 0 && |lens| <= Size(t)
    requires forall x: nat | x in t.leaves :: x < |lens| && lens[x] == LenAt(l, x) && x < |f| && f[x] == F(t, x)
    ensures Best(t.leaves, f, lens)
  {
    hide Sum, Clipped, Greedy, Over, Times, F;
    forall code: seq<seq<bool>> | |code| == |lens| && PrefixFree(t.leaves, code)
      ensures TotalLength(t.leaves, f, lens) <= TotalLength(t.leaves, f, CodeLens(code))
    {
      assert ValidTrace(t);
      var long := PadCode(code, Size(t));
      Optimal(t, l, max, long);
      SumExt(t.leaves, WeightedW(f, lens), CostW(t, l), Size(t));
      SumExt(t.leaves, WeightedW(f, CodeLens(code)), CostW(t, CodeLens(long)), Size(t));
      SumBeyond(t.leaves, WeightedW(f, lens), |lens|, Size(t));
      SumBeyond(t.leaves, WeightedW(f, CodeLens(code)), |lens|, Size(t));
      assert Active(t, 0) == t.leaves;
    }
  }

  /** Two codes of one bit are best for any frequencies. */
  lemma PairBest(symbols: set<nat>, f: seq<nat>, lens: seq<nat>)
    requires |symbols| == 2 && forall x: nat | x in symbols :: LenAt(lens, x) == 1
    ensures Best(symbols, f, lens)
  {
    hide Sum, Times;
    forall code: seq<seq<bool>> | |code| == |lens| && PrefixFree(symbols, code)
      ensures TotalLength(symbols, f, lens) <= TotalLength(symbols, f, CodeLens(code))
    {
      forall x: nat | x in symbols
        ensures WeightedAt(f, lens, x) <= WeightedAt(f, CodeLens(code), x)
      {
        var y := Other(symbols, x);
        assert !(code[x] <= code[y]);
        TimesMono(if x < |f| then f[x] else 0, 1, |code[x]|);
      }
      SumMono(symbols, WeightedW(f, lens), WeightedW(f, CodeLens(code)), |lens|);
    }
  }

  lemma Other(a: set<nat>, x: nat) returns (y: nat)
    requires |a| == 2 && x in a
    ensures y in a && y != x
  {
    var b := a - {x};
    assert |b| == 1;
    y :| y in b;
  }

  // ---- the whole routine

  /** What build_tree promises about the lengths of the symbols 0..maxCode; f0 holds the frequencies. */
  ghost predicate BuiltLengths(d: Desc, f0: seq<nat>, lens: seq<nat>) {
    && 2 <= |lens| <= d.elems <= |f0|
    && (forall x: nat | x < |lens| :: lens[x] <= d.max && (f0[x] != 0 ==> lens[x] != 0))
    && (forall x: nat | |lens| <= x < d.elems :: f0[x] == 0)
    && ValidLens(lens) && Kraft(lens) == FULL
  }

  /** The symbols that have a code. */
  function CodedSymbols(lens: seq<nat>): set<nat> { set n: nat | n < |lens| && lens[n] != 0 }

  lemma StartMerging(t: Trace, f0: seq<nat>, f: seq<nat>, elems: nat, forced: set<nat>, h: seq<nat>, len: nat, depth: seq<nat>, dl: seq<nat>)
    requires elems <= |f| && t == Trace(Used(f, elems), elems, [], f[..elems]) && Forced(f0, f, elems, forced)
    requires Sized(elems, len, h, f, depth, dl) && |Used(f, elems)| == len
    requires Nodes(h, len, f, depth) && Ordered(h, len, f, depth, 1) && Content(h, len) == multiset(Used(f, elems))
    requires FreqSum(f0, elems) <= 65535 && forall x: nat | x < elems && f[x] != 0 :: depth[x] == 0
    ensures Merging(t, FreqSum(f, elems), len, h, len, HEAP_SIZE, f, depth, dl)
  {
    hide Sum, Content, Nodes, Ordered;
    FreqSumIs(t, f, elems);
    assert Out([], 0) == [] && h[HEAP_SIZE..] == [];
    if len >= 3 {
      assert forced == {};
      FreqSame(f0, f, elems);
    }
  }

  function FreqSum(f: seq<nat>, k: nat): nat
    requires k <= |f|
  {
    if k == 0 then 0 else FreqSum(f, k - 1) + f[k - 1]
  }

  lemma {:induction false} FreqSame(f0: seq<nat>, f: seq<nat>, k: nat)
    requires k <= |f| && |f0| == |f| && forall x: nat | x < k :: f0[x] == f[x]
    ensures FreqSum(f0, k) == FreqSum(f, k)
  {
    if k > 0 {
      FreqSame(f0, f, k - 1);
    }
  }

  lemma {:induction false} FreqSumUsed(a: set<nat>, w: nat -> int, f: seq<nat>, k: nat)
    requires k <= |f| && forall x: nat | x < k :: if x in a then w(x) == f[x] else f[x] == 0
    ensures Sum(a, w, k) == FreqSum(f, k)
  {
    if k > 0 {
      FreqSumUsed(a, w, f, k - 1);
    }
  }

  lemma FreqSumIs(t: Trace, f: seq<nat>, elems: nat)
    requires elems <= |f| && t == Trace(Used(f, elems), elems, [], f[..elems])
    ensures Weighted(t, FreqSum(f, elems)) && Active(t, 0) == Used(f, elems)
  {
    FreqSumUsed(t.leaves, FreqW(t), f, elems);
  }

  /** The loop that orders the heap from the middle down to the root. */
  method BuildHeap(heap: array<nat>, heapLen: nat, fc: array<nat>, depth: array<nat>)
    requires heap != fc && heap != depth && 2 <= heapLen < heap.Length && Nodes(heap[..], heapLen, fc[..], depth[..])
    modifies heap
    ensures Nodes(heap[..], heapLen, fc[..], depth[..]) && Ordered(heap[..], heapLen, fc[..], depth[..], 1)
    ensures Content(heap[..], heapLen) == old(Content(heap[..], heapLen))
  {
    hide Content, Nodes;
    var n := heapLen / 2;
    while n >= 1
      invariant 0 <= n <= heapLen / 2
      invariant Nodes(heap[..], heapLen, fc[..], depth[..]) && Ordered(heap[..], heapLen, fc[..], depth[..], n + 1)
      invariant Content(heap[..], heapLen) == old(Content(heap[..], heapLen))
    {
      PqDownHeap(heap, heapLen, fc, depth, n);
      n := n - 1;
    }
  }

  lemma HeapNodes(h: seq<nat>, len: nat, f: seq<nat>, elems: nat, d: seq<nat>)
    requires len < |h| && elems <= |f| && elems <= |d| && Content(h, len) == multiset(Used(f, elems))
    ensures Nodes(h, len, f, d)
  {
    forall i | 1 <= i <= len
      ensures h[i] < elems
    {
      assert h[1..len + 1][i - 1] == h[i];
      assert h[i] in Content(h, len);
    }
  }

  /** A heap of one node. */
  lemma SingleRoot(h: seq<nat>, f: seq<nat>, d: seq<nat>, a: set<nat>, x: nat)
    requires Heaped(h, 1, f, d, a) && x in a
    ensures a == {x} && |h| > 1 && h[1] == x
  {
    assert h[1..2] == [h[1]];
    forall y: nat | y in a
      ensures y == h[1]
    {
      assert y in multiset(a);
    }
  }

  /** The merged tree, and the list of all nodes once the root has been put in front. */
  lemma EndMerging(t: Trace, total: nat, count: nat, h: seq<nat>, heapMax: nat, f: seq<nat>, depth: seq<nat>, dl: seq<nat>)
    requires Merging(t, total, count, h, 1, heapMax, f, depth, dl)
    ensures Finished(t) && Greedy(t) && HasDads(t, dl) && |t.ms| == count - 1 && 2 <= heapMax < HEAP_SIZE && Size(t) <= 2 * t.e - 1
    ensures |h| == HEAP_SIZE && h[heapMax - 1 := h[1]][heapMax - 1..] == Tail(t)
    ensures Sized(t.e, count, h, f, depth, dl) && forall x: nat | x in t.leaves :: x < t.e && f[x] == F(t, x)
  {
    hide Greedy, HasDads, Sum, F, Heaped, Out, MergeOk;
    var k := |t.ms|;
    assert Size(t) - 1 in Active(t, k);
    SingleRoot(h, f, depth, Active(t, k), Size(t) - 1);
    assert h[heapMax - 1 := h[1]][heapMax - 1..] == [h[1]] + h[heapMax..];
  }

  lemma LeavesBelow(f: seq<nat>, elems: nat, max: int, count: nat)
    requires elems <= |f| && Greatest(Used(f, elems), max) && |Used(f, elems)| == count >= 2
    ensures max >= 1 && max in Used(f, elems) && forall x: nat | x in Used(f, elems) :: x <= max
  {
    var u := Used(f, elems);
    if max <= 0 {
      assert u <= {0};
      SubsetSize(u, {0});
    }
  }

  lemma LeavesUnused(f0: seq<nat>, f: seq<nat>, elems: nat, forced: set<nat>, dl: seq<nat>, max: nat)
    requires Forced(f0, f, elems, forced) && elems <= |dl| && forall x: nat | x < elems && f0[x] == 0 :: dl[x] == 0
    ensures forall x: nat | x < elems && x !in Used(f, elems) :: dl[x] == 0
  {
  }

  /** A tree over exactly the symbols with a code, made by always joining two least frequent nodes. */
  ghost predicate GreedyTree(t: Trace, d: Desc, f0: seq<nat>, lens: seq<nat>) {
    && Finished(t) && Greedy(t) && t.e == d.elems && t.leaves == CodedSymbols(lens)
    && forall x: nat | x in t.leaves :: x < |f0| && F(t, x) == if f0[x] == 0 then 1 else f0[x]
  }

  /** The finished tree with lengths dl and counts c; f is the table with forced symbols, l the depths before a repair. */
  ghost predicate Built(t: Trace, d: Desc, l: seq<nat>, f0: seq<nat>, f: seq<nat>, dl: seq<nat>, c: seq<nat>, forced: set<nat>,
                        maxCode: nat, count: nat)
  {
    && GoodDesc(d) && t.e == d.elems && Finished(t) && Greedy(t) && Clipped(t, l, d.max) && |l| == Size(t) && |t.ms| == count - 1
    && GoodLengths(t, d, maxCode, dl, c) && 1 <= maxCode < d.elems
    && (if Over(t, l, d.max, 0) == 0 then forall x: nat | x in t.leaves :: dl[x] == LenAt(l, x) else Descending(Tail(t), dl, maxCode))
    && d.elems <= |f0| && d.elems <= |f| && t.leaves == Used(f, d.elems) && |t.leaves| == count
    && (forall x: nat | x < d.elems :: f[x] == if x in forced then 1 else f0[x])
    && (forall x: nat | x in forced :: x <= 2 && x < d.elems && f0[x] == 0)
    && (forced != {} ==> count == 2)
    && (forall x: nat | x in t.leaves :: f[x] == F(t, x))
  }

  lemma BuiltPair(t: Trace, d: Desc, l: seq<nat>, f0: seq<nat>, f: seq<nat>, dl: seq<nat>, c: seq<nat>, forced: set<nat>,
                  maxCode: nat, count: nat)
    requires Built(t, d, l, f0, f, dl, c, forced, maxCode, count) && forced != {}
    ensures |t.leaves| == 2 && forall x: nat | x in t.leaves :: x < |dl| && dl[x] == 1
    ensures forall x: nat | x in forced :: x in t.leaves
  {
    hide Finished, Clipped, Greedy, GoodDesc, F, LeafLengths, CountsOf;
    TwoLeaves(t, l, d.max);
  }

  lemma BuiltCost(t: Trace, d: Desc, l: seq<nat>, f0: seq<nat>, f: seq<nat>, dl: seq<nat>, c: seq<nat>, forced: set<nat>,
                  maxCode: nat, count: nat)
    requires Built(t, d, l, f0, f, dl, c, forced, maxCode, count)
    ensures LeafCost(t, d, f, dl, maxCode) == TreeCost(d, f0, dl, maxCode + 1) + |forced|
    ensures LeafCost(t, d, f, StaticLens(d), maxCode) == TreeCost(d, f0, StaticLens(d), maxCode + 1) + Sum(forced, LenW(StaticLens(d)), 3)
  {
    hide Finished, Clipped, Greedy, F, TreeCost, Sum, LeafLengths, CountsOf, Over;
    ForcedCost(d, f0, f, dl, forced, t.leaves, maxCode, Size(t));
    ForcedCost(d, f0, f, StaticLens(d), forced, t.leaves, maxCode, Size(t));
    if forced != {} {
      BuiltPair(t, d, l, f0, f, dl, c, forced, maxCode, count);
    }
    SumOnes(forced, LenW(dl), 3);
  }

  lemma BuiltBest(t: Trace, d: Desc, l: seq<nat>, f0: seq<nat>, f: seq<nat>, dl: seq<nat>, c: seq<nat>, forced: set<nat>,
                  maxCode: nat, count: nat)
    requires Built(t, d, l, f0, f, dl, c, forced, maxCode, count) && Over(t, l, d.max, 0) == 0
    ensures Best(t.leaves, f0, dl[..maxCode + 1])
  {
    hide Finished, Clipped, Greedy, F, Sum, LeafLengths, CountsOf, Over, Best, GoodDesc;
    var lens := dl[..maxCode + 1];
    if forced != {} {
      BuiltPair(t, d, l, f0, f, dl, c, forced, maxCode, count);
      PairBest(t.leaves, f0, lens);
    } else {
      TreeBest(t, l, lens, f0, d.max);
    }
  }

  lemma BuiltDone(t: Trace, d: Desc, l: seq<nat>, f0: seq<nat>, f: seq<nat>, dl: seq<nat>, c: seq<nat>, forced: set<nat>,
                  maxCode: nat, count: nat)
    requires Built(t, d, l, f0, f, dl, c, forced, maxCode, count)
    ensures maxCode < |dl| && BuiltLengths(d, f0, dl[..maxCode + 1]) && GreedyTree(t, d, f0, dl[..maxCode + 1])
    ensures (forall x: nat | x in t.leaves :: x <= maxCode) && (maxCode in t.leaves ==> dl[maxCode] != 0)
    ensures |c| == MAX_BITS + 1 && c[0] == 0 && forall b: nat | 1 <= b <= MAX_BITS :: c[b] == Count(dl[..maxCode + 1], b)
  {
    hide Descending, Tail, LenAt, Finished, Clipped, Greedy, F, Sum, Over, Kraft;
  }

  /** The part of build_tree before the merges. */
  method StartTree(heap: array<nat>, depth: array<nat>, fc: array<nat>, dl: array<nat>, d: Desc, optLen0: int, staticLen0: int)
    returns (heapLen: nat, maxCode: nat, optLen: int, staticLen: int, ghost forced: set<nat>, ghost t: Trace, ghost total: nat)
    requires heap != depth && heap != fc && heap != dl && depth != fc && depth != dl && fc != dl
    requires GoodDesc(d) && heap.Length == HEAP_SIZE && depth.Length == HEAP_SIZE
    requires fc.Length > 2 * d.elems && dl.Length > 2 * d.elems && FreqSum(fc[..], d.elems) <= 65535
    modifies heap, depth, fc, dl
    ensures Forced(old(fc[..]), fc[..], d.elems, forced) && 1 <= maxCode < d.elems
    ensures t.e == d.elems && t.ms == [] && t.leaves == Used(fc[..], d.elems) && |t.leaves| == heapLen >= 2
    ensures Merging(t, total, heapLen, heap[..], heapLen, HEAP_SIZE, fc[..], depth[..], dl[..])
    ensures maxCode in t.leaves && (forall x: nat | x in t.leaves :: x <= maxCode) && forall x: nat | x < d.elems && x !in t.leaves :: dl[x] == 0
    ensures optLen == optLen0 - |forced|
    ensures staticLen == staticLen0 - (if d.stree.Some? then Sum(forced, LenW(StaticLens(d)), 3) else 0)
  {
    hide Content, Used, Forced, Greatest, Merging, Nodes, Ordered, FreqSum, XBits, Sum;
    ghost var f0 := fc[..];
    var max: int;
    heapLen, max := InitHeap(heap, depth, fc, dl, d.elems);
    heapLen, max, optLen, staticLen, forced := ForceCodes(heap, depth, fc, d, heapLen, max, optLen0, staticLen0);
    HeapNodes(heap[..], heapLen, fc[..], d.elems, depth[..]);
    BuildHeap(heap, heapLen, fc, depth);
    t := Trace(Used(fc[..], d.elems), d.elems, [], fc[..d.elems]);
    total := FreqSum(fc[..], d.elems);
    assert fc[..][..d.elems] == fc[..d.elems];
    StartMerging(t, f0, fc[..], d.elems, forced, heap[..], heapLen, depth[..], dl[..]);
    LeavesBelow(fc[..], d.elems, max, heapLen);
    LeavesUnused(f0, fc[..], d.elems, forced, dl[..], max);
    maxCode := max;
  }

  /** The loop of build_tree, with the root put in front of the list at the end. */
  method MergeAll(heap: array<nat>, depth: array<nat>, fc: array<nat>, dl: array<nat>, heapLen0: nat, elems: nat, ghost t: Trace, ghost total: nat)
    returns (heapMax: nat, ghost u: Trace)
    requires heap != fc && heap != depth && heap != dl && fc != depth && fc != dl && depth != dl && heap.Length == HEAP_SIZE
    requires t.ms == [] && t.e == elems && heapLen0 >= 2
    requires Merging(t, total, heapLen0, heap[..], heapLen0, HEAP_SIZE, fc[..], depth[..], dl[..])
    modifies heap, depth, fc, dl
    ensures Finished(u) && Greedy(u) && HasDads(u, dl[..]) && |u.ms| == heapLen0 - 1 && u.leaves == t.leaves && u.e == t.e
    ensures heapMax < HEAP_SIZE && heap[heapMax..] == Tail(u) && Size(u) <= 2 * elems - 1
    ensures elems <= fc.Length && elems <= dl.Length && forall x: nat | x in u.leaves :: x < fc.Length && fc[x] == F(u, x)
    ensures forall x: nat | x < elems :: fc[x] == old(fc[x]) && (x in t.leaves || dl[x] == old(dl[x]))
  {
    hide Merging, Tail, HasDads, Finished, Greedy, F;
    MergingSized(t, total, heapLen0, heap[..], heapLen0, HEAP_SIZE, fc[..], depth[..], dl[..]);
    u := t;
    var heapLen := heapLen0;
    var node: nat := elems;
    heapMax := HEAP_SIZE;
    while heapLen >= 2
      invariant u.leaves == t.leaves && u.e == elems && node == Size(u) && heapLen >= 1
      invariant Merging(u, total, heapLen0, heap[..], heapLen, heapMax, fc[..], depth[..], dl[..])
      invariant forall x: nat | x < elems :: fc[x] == old(fc[x]) && (x in t.leaves || dl[x] == old(dl[x]))
      decreases heapLen
    {
      heapLen, heapMax, u := MergeTwo(heap, heapLen, heapMax, fc, depth, dl, node, u, total, heapLen0);
      node := node + 1;
    }
    EndMerging(u, total, heapLen0, heap[..], heapMax, fc[..], depth[..], dl[..]);
    ghost var h := heap[..];
    heapMax := heapMax - 1;
    heap[heapMax] := heap[SMALLEST];
    assert heap[..] == h[heapMax := h[1]];
  }

  lemma MergingSized(t: Trace, total: nat, count: nat, h: seq<nat>, heapLen: nat, heapMax: nat,
                     f: seq<nat>, depth: seq<nat>, dl: seq<nat>)
    requires Merging(t, total, count, h, heapLen, heapMax, f, depth, dl)
    ensures Sized(t.e, count, h, f, depth, dl)
  {
  }

  /** build_tree. dl holds the fathers of nodes while merging and code lengths at the end; fc holds frequencies, and
      codes at the end. t is the tree and l its depths clipped to the greatest length: if nothing was clipped,
      the lengths are these depths and no prefix code for the same symbols is shorter in total. In every case a less
      frequent symbol has no shorter code than a more frequent one. */
  method MakeTree(heap: array<nat>, depth: array<nat>, fc: array<nat>, dl: array<nat>, blCount: array<nat>, d: Desc,
                  optLen0: int, staticLen0: int)
    returns (maxCode: nat, optLen: int, staticLen: int, ghost t: Trace, ghost l: seq<nat>)
    requires heap != depth && heap != fc && heap != dl && heap != blCount && depth != fc && depth != dl && depth != blCount
    requires fc != dl && fc != blCount && dl != blCount
    requires GoodDesc(d) && heap.Length == HEAP_SIZE && depth.Length == HEAP_SIZE && blCount.Length == MAX_BITS + 1
    requires fc.Length > 2 * d.elems && dl.Length > 2 * d.elems && FreqSum(fc[..], d.elems) <= 65535
    modifies heap, depth, fc, dl, blCount
    ensures 1 <= maxCode < d.elems && dl[maxCode] != 0 && BuiltLengths(d, old(fc[..]), dl[..maxCode + 1])
    ensures forall n: nat | maxCode < n < d.elems :: dl[n] == 0
    ensures forall n: nat | n <= maxCode && dl[n] != 0 :: fc[n] == Code(dl[..maxCode + 1], n)
    ensures optLen == optLen0 + TreeCost(d, old(fc[..]), dl[..], maxCode + 1)
    ensures staticLen == staticLen0 + (if d.stree.Some? then TreeCost(d, old(fc[..]), StaticLens(d), maxCode + 1) else 0)
    ensures GreedyTree(t, d, old(fc[..]), dl[..maxCode + 1]) && |l| == Size(t) && Clipped(t, l, d.max)
    ensures Over(t, l, d.max, 0) == 0 ==>
      Best(t.leaves, old(fc[..]), dl[..maxCode + 1]) && forall x: nat | x in t.leaves :: dl[x] == LenAt(l, x)
    ensures forall x: nat, y: nat | x <= maxCode && y <= maxCode && dl[x] != 0 && dl[y] != 0 && F(t, x) < F(t, y) :: dl[x] >= dl[y]
  {
    hide Descending, Merging, TreeCost, Finished, HasDads, Tail, Greedy, F, XBits,
      Clipped, Over, Best, GoodLengths, LeafCost, BuiltLengths, CodedSymbols, Sum, GoodDesc, FreqSum, GreedyTree;
    ghost var f0 := fc[..];
    var heapLen: nat;
    ghost var forced, total;
    heapLen, maxCode, optLen, staticLen, forced, t, total := StartTree(heap, depth, fc, dl, d, optLen0, staticLen0);
    var heapMax: nat;
    heapMax, t := MergeAll(heap, depth, fc, dl, heapLen, d.elems, t, total);
    optLen, staticLen, l := GenLengths(heap, heapMax, dl, fc, blCount, d, maxCode, optLen, staticLen, t);
    ghost var f := fc[..];
    assert Built(t, d, l, f0, f, dl[..], blCount[..], forced, maxCode, heapLen);
    BuiltDone(t, d, l, f0, f, dl[..], blCount[..], forced, maxCode, heapLen);
    BuiltCost(t, d, l, f0, f, dl[..], blCount[..], forced, maxCode, heapLen);
    if Over(t, l, d.max, 0) == 0 {
      BuiltBest(t, d, l, f0, f, dl[..], blCount[..], forced, maxCode, heapLen);
    }
    BuiltKraft(d, f0, dl[..maxCode + 1]);
    BuiltOrder(t, d, l, f0, f, dl[..], blCount[..], forced, maxCode, heapLen);
    GenCodes.GenCodes(fc, dl, maxCode, blCount);
  }

  /** A less frequent symbol has no shorter code, with or without overflow. */
  lemma BuiltOrder(t: Trace, d: Desc, l: seq<nat>, f0: seq<nat>, f: seq<nat>, dl: seq<nat>, c: seq<nat>, forced: set<nat>, maxCode: nat, count: nat)
    requires Built(t, d, l, f0, f, dl, c, forced, maxCode, count)
    ensures forall x: nat, y: nat | x <= maxCode && y <= maxCode && dl[x] != 0 && dl[y] != 0 && F(t, x) < F(t, y) :: dl[x] >= dl[y]
  {
    hide F, Tail, Finished, Greedy, Clipped, Over, Descending;
    assert |dl| > maxCode;
    forall x: nat, y: nat | x <= maxCode && y <= maxCode && dl[x] != 0 && dl[y] != 0 && F(t, x) < F(t, y)
      ensures dl[x] >= dl[y]
    {
      assert x in t.leaves && y in t.leaves;
      if Over(t, l, d.max, 0) == 0 {
        LeavesOrder(t, l, d.max, x, y);
      } else {
        RarerLater(t, dl, maxCode, x, y);
      }
    }
  }

  lemma LeavesOrder(t: Trace, l: seq<nat>, max: nat, x: nat, y: nat)
    requires Finished(t) && Greedy(t) && Clipped(t, l, max) && x in t.leaves && y in t.leaves && F(t, x) < F(t, y)
    ensures x < |l| && y < |l| && l[x] >= l[y]
  {
    hide F;
    var i := JoinedLater(t, x, 0);
    var j := JoinedLater(t, y, 0);
    RarerDeeper(t, l, max, x, i, y, j);
  }

  lemma BuiltKraft(d: Desc, f0: seq<nat>, lens: seq<nat>)
    requires BuiltLengths(d, f0, lens)
    ensures ValidLens(lens) && Kraft(lens) <= FULL
  {
  }
}
