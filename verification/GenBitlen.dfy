/** gen_bitlen of trees.c: code lengths from the merged tree, their limit, and the bit count of the block. */
module GenBitlen {
  import opened Bits
  import opened Canonical
  import opened Sums
  import opened Huffman
  import opened HuffTail
  import opened Repair
  import opened Traces

  const HEAP_SIZE: nat := 573

  /** static_tree_desc: the lengths of the static tree if there is one, the extra bits, the number of
      symbols and the greatest length. */
  datatype Desc = Desc(stree: Option<seq<nat>>, extra: seq<nat>, base: nat, elems: nat, max: nat)

  ghost predicate GoodDesc(d: Desc) {
    && 3 <= d.elems <= 286 && d.elems <= d.base + |d.extra| && 1 <= d.max <= MAX_BITS && d.elems <= Pow2(d.max)
    && (d.stree.Some? ==> |d.stree.value| >= d.elems)
    && forall n: nat | n <= 2 :: XBits(d, n) == 0
  }

  function XBits(d: Desc, n: nat): nat { if d.base <= n && n - d.base < |d.extra| then d.extra[n - d.base] else 0 }

  /** The bits that all uses of symbol x take when its code has length len. */
  function SymCost(d: Desc, freq: int, len: int, x: nat): int { Times(freq, len + XBits(d, x)) }

  /** The contribution of node x to the length of the block: nothing if it is not a leaf. */
  function CostAtLeaf(d: Desc, f: seq<nat>, l: seq<nat>, maxCode: nat, x: nat): int {
    if x <= maxCode && x < |f| then SymCost(d, f[x], LenAt(l, x), x) else 0
  }
  ghost function LeafCostW(d: Desc, f: seq<nat>, l: seq<nat>, maxCode: nat): nat -> int {
    (x: nat) => CostAtLeaf(d, f, l, maxCode, x)
  }

  function StaticLens(d: Desc): seq<nat> { if d.stree.Some? then d.stree.value else [] }

  function CountAtLeaf(l: seq<nat>, maxCode: nat, b: nat, x: nat): int {
    if x <= maxCode && x < |l| && l[x] == b then 1 else 0
  }
  ghost function LeafCountW(l: seq<nat>, maxCode: nat, b: nat): nat -> int { (x: nat) => CountAtLeaf(l, maxCode, b, x) }

  // ---- the first pass

  /** One node of the first pass; bits is its clipped depth, above is the clipped depth of its father plus one. */
  ghost predicate Counted(blCount: seq<nat>, s: seq<nat>, l: seq<nat>, maxCode: nat) {
    |blCount| == MAX_BITS + 1 && forall b: nat | b <= MAX_BITS :: blCount[b] == SeqSum(s, LeafCountW(l, maxCode, b))
  }

  lemma CountedNext(c: seq<nat>, s: seq<nat>, j: nat, l: seq<nat>, maxCode: nat)
    requires j < |s| && s[j] < |l| && l[s[j]] <= MAX_BITS && Counted(c, s[..j], l, maxCode)
    ensures Counted(if s[j] <= maxCode then c[l[s[j]] := c[l[s[j]]] + 1] else c, s[..j + 1], l, maxCode)
  {
    hide SeqSum;
    forall b: nat {
      SeqSumNext(s, j, LeafCountW(l, maxCode, b));
    }
  }

  lemma CountedNone(c: seq<nat>, s: seq<nat>, l: seq<nat>, maxCode: nat)
    requires |c| == MAX_BITS + 1 && forall b: nat | b <= MAX_BITS :: c[b] == 0
    ensures Counted(c, s[..0], l, maxCode)
  {
  }

  /** What the list holds while its first j nodes have lengths and the others still have fathers. */
  ghost predicate HalfWay(dl: seq<nat>, l: seq<nat>, dads: seq<nat>, s: seq<nat>, j: nat) {
    && j <= |s| && |dl| == |dads|
    && (forall k | 0 <= k < |s| :: s[k] < |dl| && s[k] < |l|)
    && (forall k | 0 <= k < j :: dl[s[k]] == l[s[k]])
    && (forall k | j <= k < |s| :: dl[s[k]] == dads[s[k]])
    && (forall x: nat | x < |dl| && x !in s :: dl[x] == dads[x])
  }

  lemma HalfWayNext(dl: seq<nat>, l: seq<nat>, dads: seq<nat>, s: seq<nat>, j: nat)
    requires Distinct(s) && HalfWay(dl, l, dads, s, j) && j < |s|
    ensures HalfWay(dl[s[j] := l[s[j]]], l, dads, s, j + 1)
  {
  }

  /** What the first pass finds at position j of the list: a son, below a father that already has its length. */
  lemma SonAt(t: Trace, dl: seq<nat>, l: seq<nat>, dads: seq<nat>, max: nat, j: nat)
    requires Finished(t) && Clipped(t, l, max) && HasDads(t, dads)
    requires HalfWay(dl, l, dads, Tail(t), j) && 1 <= j < |Tail(t)|
    ensures var x := Tail(t)[j];
            && x < |dl| && x < |l| && dl[x] < |dl| && dl[x] == dads[x] < |l| && dl[dl[x]] == l[dads[x]] <= max
            && l[x] == Child(l[dads[x]], max)
  {
    hide Tail, ValidTrace;
    var i, at := FatherBefore(t, dads, j);
    assert ClippedPair(t, l, max, i);
    ClippedBound(t, l, max, i + 1);
    assert t.e + i in Active(t, i + 1);
    assert dl[Tail(t)[at]] == l[Tail(t)[at]];
  }

  /** The totals of the first pass. */
  datatype Totals = Totals(overflow: int, optLen: int, staticLen: int)

  /** The totals over a list of nodes; dads are the fathers. */
  ghost function TotalsOf(d: Desc, f: seq<nat>, l: seq<nat>, dads: seq<nat>, maxCode: nat, s: seq<nat>): Totals {
    Totals(SeqSum(s, OverW(dads, l, d.max)), SeqSum(s, LeafCostW(d, f, l, maxCode)),
           if d.stree.Some? then SeqSum(s, LeafCostW(d, f, StaticLens(d), maxCode)) else 0)
  }

  /** What one node adds to the totals. */
  function TotalsAdd(o: Totals, d: Desc, f: seq<nat>, l: seq<nat>, dads: seq<nat>, maxCode: nat, x: nat): Totals {
    Totals(o.overflow + OverAt(dads, l, d.max, x), o.optLen + CostAtLeaf(d, f, l, maxCode, x),
           o.staticLen + (if d.stree.Some? then CostAtLeaf(d, f, StaticLens(d), maxCode, x) else 0))
  }

  lemma TotalsNext(d: Desc, f: seq<nat>, l: seq<nat>, dads: seq<nat>, maxCode: nat, s: seq<nat>, j: nat)
    requires j < |s|
    ensures TotalsOf(d, f, l, dads, maxCode, s[..j + 1])
         == TotalsAdd(TotalsOf(d, f, l, dads, maxCode, s[..j]), d, f, l, dads, maxCode, s[j])
  {
    hide SeqSum;
    SeqSumNext(s, j, OverW(dads, l, d.max));
    SeqSumNext(s, j, LeafCostW(d, f, l, maxCode));
    SeqSumNext(s, j, LeafCostW(d, f, StaticLens(d), maxCode));
  }

  lemma TotalsNone(d: Desc, f: seq<nat>, l: seq<nat>, dads: seq<nat>, maxCode: nat, s: seq<nat>)
    ensures TotalsOf(d, f, l, dads, maxCode, s[..0]) == Totals(0, 0, 0)
  {
  }

  /** The first pass before position j of the list s of all nodes. */
  ghost predicate Passing(d: Desc, f: seq<nat>, l: seq<nat>, dads: seq<nat>, maxCode: nat, s: seq<nat>,
                          dl: seq<nat>, c: seq<nat>, o: Totals, j: nat)
  {
    && 1 <= j <= |s|
    && HalfWay(dl, l, dads, s, j)
    && Counted(c, s[1..][..j - 1], l, maxCode)
    && o == TotalsOf(d, f, l, dads, maxCode, s[1..][..j - 1])
  }

  lemma PassingNext(t: Trace, d: Desc, f: seq<nat>, l: seq<nat>, dads: seq<nat>, maxCode: nat, s: seq<nat>,
                    dl: seq<nat>, c: seq<nat>, o: Totals, j: nat, x: nat, bits: nat)
    requires Finished(t) && Clipped(t, l, d.max) && HasDads(t, dads) && s == Tail(t) && j < |s| && x == s[j]
    requires Passing(d, f, l, dads, maxCode, s, dl, c, o, j) && bits == LenAt(l, x)
    ensures x < |dl| && bits <= d.max <= MAX_BITS && |c| == MAX_BITS + 1
    ensures Passing(d, f, l, dads, maxCode, s, dl[x := bits], if x <= maxCode then c[bits := c[bits] + 1] else c,
                    TotalsAdd(o, d, f, l, dads, maxCode, x), j + 1)
  {
    hide Finished, HasDads, Tail, Counted, HalfWay, TotalsOf, TotalsAdd, ClippedPair;
    TailDistinct(t);
    SonAt(t, dl, l, dads, d.max, j);
    assert x == s[1..][j - 1];
    HalfWayNext(dl, l, dads, s, j);
    TotalsNext(d, f, l, dads, maxCode, s[1..], j - 1);
    CountedNext(c, s[1..], j - 1, l, maxCode);
    CountedLength(c, s[1..][..j - 1], l, maxCode);
  }

  /** What the loop of the first pass adds for a node with father length above. */
  lemma TotalsCode(d: Desc, f: seq<nat>, l: seq<nat>, dads: seq<nat>, maxCode: nat, o: Totals, x: nat, above: nat)
    requires GoodDesc(d) && x < |dads| && dads[x] < |l| && above == l[dads[x]] <= d.max && x < |l| && l[x] == Child(above, d.max)
    requires maxCode < d.elems <= |f|
    ensures TotalsAdd(o, d, f, l, dads, maxCode, x) ==
            Totals(o.overflow + (if above + 1 > d.max then 1 else 0),
                   o.optLen + (if x <= maxCode then Times(f[x], l[x] + XBits(d, x)) else 0),
                   o.staticLen + (if x <= maxCode && d.stree.Some? then Times(f[x], d.stree.value[x] + XBits(d, x)) else 0))
  {
    hide Times;
  }

  /** The part of the first pass for leaves. */
  method CountLeaf(n: nat, bits: nat, fc: array<nat>, blCount: array<nat>, d: Desc, optLen0: int, staticLen0: int)
    returns (optLen: int, staticLen: int)
    requires GoodDesc(d) && n < d.elems <= fc.Length && bits < blCount.Length && fc != blCount
    modifies blCount
    ensures blCount[..] == old(blCount[..])[bits := old(blCount[bits]) + 1]
    ensures optLen == optLen0 + Times(fc[n], bits + XBits(d, n))
    ensures staticLen == staticLen0 + (if d.stree.Some? then Times(fc[n], d.stree.value[n] + XBits(d, n)) else 0)
  {
    hide Times;
    optLen, staticLen := optLen0, staticLen0;
    blCount[bits] := blCount[bits] + 1;
    var xbits := if n >= d.base then d.extra[n - d.base] else 0;
    var f := fc[n];
    optLen := optLen + Times(f, bits + xbits);
    if d.stree.Some? {
      staticLen := staticLen + Times(f, d.stree.value[n] + xbits);
    }
  }

  lemma PassingStart(t: Trace, d: Desc, f: seq<nat>, l: seq<nat>, dads: seq<nat>, maxCode: nat, c: seq<nat>)
    requires Finished(t) && Clipped(t, l, d.max) && Size(t) <= |dads| && |l| == Size(t)
    requires |c| == MAX_BITS + 1 && forall b: nat | b <= MAX_BITS :: c[b] == 0
    ensures |Tail(t)| > 1 && Tail(t)[0] < |dads| && Tail(t)[0] < |l| && l[Tail(t)[0]] == 0
    ensures Passing(d, f, l, dads, maxCode, Tail(t), dads[Tail(t)[0] := l[Tail(t)[0]]], c, Totals(0, 0, 0), 1)
  {
    hide Finished, Clipped, Tail, Counted, HalfWay, TotalsOf;
    StartHalfWay(t, l, dads, d.max);
    CountedNone(c, Tail(t)[1..], l, maxCode);
    TotalsNone(d, f, l, dads, maxCode, Tail(t)[1..]);
  }

  lemma PassingSon(t: Trace, d: Desc, f: seq<nat>, l: seq<nat>, dads: seq<nat>, maxCode: nat, s: seq<nat>,
                   dl: seq<nat>, c: seq<nat>, o: Totals, j: nat)
    requires Finished(t) && Clipped(t, l, d.max) && HasDads(t, dads) && s == Tail(t) && j < |s|
    requires Passing(d, f, l, dads, maxCode, s, dl, c, o, j)
    ensures var x := s[j];
            && |dl| == |dads| && |c| == MAX_BITS + 1
            && x < |dl| && x < |l| && dl[x] < |dl| && dl[x] == dads[x] < |l| && dl[dl[x]] == l[dads[x]] <= d.max
            && l[x] == Child(l[dads[x]], d.max)
  {
    hide Finished, Clipped, HasDads, Tail;
    SonAt(t, dl, l, dads, d.max, j);
  }

  lemma PassingEnd(d: Desc, f: seq<nat>, l: seq<nat>, dads: seq<nat>, maxCode: nat, s: seq<nat>, dl: seq<nat>, c: seq<nat>, o: Totals)
    requires Passing(d, f, l, dads, maxCode, s, dl, c, o, |s|)
    ensures forall j | 0 <= j < |s| :: s[j] < |dl| && dl[s[j]] == LenAt(l, s[j])
    ensures forall x: nat | x < |dl| && x !in s :: dl[x] == dads[x]
    ensures Counted(c, s[1..], l, maxCode) && o == TotalsOf(d, f, l, dads, maxCode, s[1..])
  {
    hide TotalsOf, Counted;
    assert s[1..][..|s| - 1] == s[1..];
    EndHalfWay(dl, l, dads, s);
  }

  method FirstPass(heap: array<nat>, heapMax: nat, dl: array<nat>, fc: array<nat>, blCount: array<nat>, d: Desc,
                   maxCode: nat, optLen0: int, staticLen0: int, ghost t: Trace, ghost l: seq<nat>)
    returns (overflow: int, optLen: int, staticLen: int)
    requires GoodDesc(d) && heap.Length == HEAP_SIZE && heapMax < HEAP_SIZE && blCount.Length == MAX_BITS + 1
    requires heap != dl && heap != fc && heap != blCount && dl != fc && dl != blCount && fc != blCount
    requires Finished(t) && heap[heapMax..] == Tail(t) && Clipped(t, l, d.max) && HasDads(t, dl[..])
    requires Size(t) <= dl.Length && maxCode < d.elems <= fc.Length && |l| == Size(t)
    modifies dl, blCount
    ensures forall j | 0 <= j < |Tail(t)| :: Tail(t)[j] < dl.Length && dl[Tail(t)[j]] == LenAt(l, Tail(t)[j])
    ensures forall x: nat | x < dl.Length && x !in Tail(t) :: dl[x] == old(dl[x])
    ensures Counted(blCount[..], Tail(t)[1..], l, maxCode)
    ensures Totals(overflow, optLen - optLen0, staticLen - staticLen0) ==
            TotalsOf(d, fc[..], l, old(dl[..]), maxCode, Tail(t)[1..])
  {
    hide Finished, Clipped, HasDads, Tail, Passing, Times, TotalsOf, TotalsAdd, GoodDesc;
    ghost var s, dads, fs := Tail(t), dl[..], fc[..];
    var bits: nat := 0;
    while bits <= MAX_BITS
      invariant bits <= MAX_BITS + 1 && forall b: nat | b < bits :: blCount[b] == 0
      invariant dl[..] == dads && fc[..] == fs && heap[heapMax..] == s
    {
      blCount[bits] := 0;
      bits := bits + 1;
    }
    PassingStart(t, d, fs, l, dads, maxCode, blCount[..]);
    dl[heap[heapMax]] := 0;
    assert dl[..] == dads[s[0] := l[s[0]]];
    overflow, optLen, staticLen := 0, optLen0, staticLen0;
    var h := heapMax + 1;
    while h < HEAP_SIZE
      invariant heapMax + 1 <= h <= HEAP_SIZE && fc[..] == fs && heap[heapMax..] == s
      invariant Passing(d, fs, l, dads, maxCode, s, dl[..], blCount[..],
                        Totals(overflow, optLen - optLen0, staticLen - staticLen0), h - heapMax)
    {
      ghost var j := h - heapMax;
      var n := heap[h];
      assert n == s[j];
      ghost var dl0, c0, o := dl[..], blCount[..], Totals(overflow, optLen - optLen0, staticLen - staticLen0);
      PassingSon(t, d, fs, l, dads, maxCode, s, dl0, c0, o, j);
      PassingNext(t, d, fs, l, dads, maxCode, s, dl0, c0, o, j, n, LenAt(l, n));
      TotalsCode(d, fs, l, dads, maxCode, o, n, l[dads[n]]);
      bits := dl[dl[n]] + 1;
      if bits > d.max {
        bits, overflow := d.max, overflow + 1;
      }
      dl[n] := bits;
      h := h + 1;
      if n <= maxCode {
        optLen, staticLen := CountLeaf(n, bits, fc, blCount, d, optLen, staticLen);
      }
      assert dl[..] == dl0[n := bits] && blCount[..] == if n <= maxCode then c0[bits := c0[bits] + 1] else c0;
    }
    PassingEnd(d, fs, l, dads, maxCode, s, dl[..], blCount[..], Totals(overflow, optLen - optLen0, staticLen - staticLen0));
  }

  lemma CountedLength(c: seq<nat>, s: seq<nat>, l: seq<nat>, maxCode: nat)
    requires Counted(c, s, l, maxCode)
    ensures |c| == MAX_BITS + 1
  {
  }

  lemma StartHalfWay(t: Trace, l: seq<nat>, dads: seq<nat>, max: nat)
    requires Finished(t) && Clipped(t, l, max) && Size(t) <= |dads| && |l| == Size(t)
    ensures |Tail(t)| > 1 && Tail(t)[0] < |dads| && Tail(t)[0] < |l| && l[Tail(t)[0]] == 0
    ensures HalfWay(dads[Tail(t)[0] := l[Tail(t)[0]]], l, dads, Tail(t), 1)
  {
    hide Tail, ValidTrace, Active;
    TailDistinct(t);
  }

  lemma EndHalfWay(dl: seq<nat>, l: seq<nat>, dads: seq<nat>, s: seq<nat>)
    requires HalfWay(dl, l, dads, s, |s|)
    ensures forall j | 0 <= j < |s| :: s[j] < |dl| && dl[s[j]] == LenAt(l, s[j])
    ensures forall x: nat | x < |dl| && x !in s :: dl[x] == dads[x]
  {
  }
}
