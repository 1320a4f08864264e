/** gen_bitlen as a whole: lengths within the limit that fill the code space, their counts, and the exact
    change of the bit count of the block. */
module BitLengths {
  import opened Bits
  import opened Canonical
  import opened InfTrees
  import opened Sums
  import opened Huffman
  import opened HuffTail
  import opened Repair
  import opened GenBitlen
  import opened Rescan

  // ---- sums over leaves as counts of lengths

  lemma {:induction false} SumBeyond(a: set<nat>, w: nat -> int, m: nat, k: nat)
    requires m <= k && forall x: nat | x in a :: x < m
    ensures Sum(a, w, k) == Sum(a, w, m)
  {
    if m < k {
      SumBeyond(a, w, m, k - 1);
    }
  }

  /** Exactly the leaves have a length. */
  ghost predicate LeafLengths(leaves: set<nat>, dl: seq<nat>, k: nat) {
    k <= |dl| && forall x: nat | x < k :: dl[x] <= MAX_BITS && (x in leaves <==> dl[x] != 0)
  }

  lemma {:induction false} LensCount(leaves: set<nat>, dl: seq<nat>, maxCode: nat, k: nat, b: nat)
    requires LeafLengths(leaves, dl, k) && k <= maxCode + 1 && b >= 1
    ensures Count(dl[..k], b) == Sum(leaves, LeafCountW(dl, maxCode, b), k)
  {
    if k > 0 {
      LensCount(leaves, dl, maxCode, k - 1, b);
      CountStep(dl, k - 1, b);
    }
  }

  lemma {:induction false} FirstStep(lens: seq<nat>, j: nat, l: nat)
    requires j < |lens| && l <= MAX_BITS + 1
    ensures First(lens[..j + 1], l) == First(lens[..j], l) + (if 1 <= lens[j] < l then Unit(lens[j]) else 0)
  {
    hide Count, Scaled, Unit;
    if l > 1 {
      FirstStep(lens, j, l - 1);
      CountStep(lens, j, l - 1);
      ScaledAdd(Count(lens[..j], l - 1), 1, l - 1);
    }
  }

  lemma {:induction false} FirstNone(l: nat)
    ensures First([], l) == 0
  {
    if l > 1 {
      FirstNone(l - 1);
    }
  }

  lemma {:induction false} KraftSum(leaves: set<nat>, dl: seq<nat>, k: nat)
    requires LeafLengths(leaves, dl, k)
    ensures Kraft(dl[..k]) == Sum(leaves, UnitW(dl), k)
  {
    hide Unit, First;
    if k > 0 {
      KraftSum(leaves, dl, k - 1);
      FirstStep(dl, k - 1, MAX_BITS + 1);
    } else {
      FirstNone(MAX_BITS + 1);
    }
  }

  lemma OffsetNextSymbol(lens: seq<nat>, j: nat, l: nat)
    requires j < |lens|
    ensures Offset(lens[..j + 1], l) == Offset(lens[..j], l) + (if 1 <= lens[j] < l then 1 else 0)
  {
    hide Offset;
    assert lens[..j + 1][..j] == lens[..j];
    OffsetStep(lens[..j + 1], l);
  }

  lemma {:induction false} OffsetSum(leaves: set<nat>, dl: seq<nat>, maxCode: nat, k: nat)
    requires LeafLengths(leaves, dl, k) && k <= maxCode + 1
    ensures Offset(dl[..k], MAX_BITS + 1) == Sum(leaves, LeafW(maxCode), k) <= k
  {
    hide Offset;
    if k > 0 {
      OffsetSum(leaves, dl, maxCode, k - 1);
      OffsetNextSymbol(dl, k - 1, MAX_BITS + 1);
    } else {
      OffsetEmpty(MAX_BITS + 1);
    }
  }

  /** The counts of a list of lengths. */
  ghost predicate CountsOf(c: seq<nat>, lens: seq<nat>) {
    |c| == MAX_BITS + 1 && forall b: nat | 1 <= b <= MAX_BITS :: c[b] == Count(lens, b)
  }

  lemma {:induction false} CountsSums(c: seq<nat>, lens: seq<nat>, l: nat)
    requires CountsOf(c, lens) && l <= MAX_BITS + 1
    ensures Owned(c, l) == First(lens, l) && Total(c, l) == Offset(lens, l)
  {
    hide Count, Scaled;
    if l > 1 {
      CountsSums(c, lens, l - 1);
    }
  }

  /** The list of all nodes holds exactly the leaves among the symbols. */
  lemma TailLeaves(t: Trace, maxCode: nat)
    requires Finished(t) && maxCode < t.e && forall x: nat | x in t.leaves :: x <= maxCode
    ensures forall k | 0 <= k < |Tail(t)| && Tail(t)[k] < t.e :: Tail(t)[k] in t.leaves
    ensures forall x: nat | x in t.leaves :: x in Tail(t)
  {
    hide Tail, Out;
    ActiveInTail(t, 0);
    forall x: nat | x in t.leaves
      ensures x in Tail(t)
    {
      assert x in Active(t, 0);
      assert Tail(t)[..2 * |t.ms| + 1] == Tail(t);
    }
    forall k | 0 <= k < |Tail(t)| && Tail(t)[k] < t.e
      ensures Tail(t)[k] in t.leaves
    {
      if k > 0 {
        var i := |t.ms| - 1 - (k - 1) / 2;
        TailAt(t, i);
        ActiveBound(t, i);
        assert MergeOk(t, i);
      }
    }
  }

  lemma CountsSum(leaves: set<nat>, dl: seq<nat>, maxCode: nat, k: nat, c: seq<nat>)
    requires LeafLengths(leaves, dl, maxCode + 1) && maxCode < k && (forall x: nat | x in leaves :: x <= maxCode) && |c| == MAX_BITS + 1
    requires forall b: nat | 1 <= b <= MAX_BITS :: c[b] == Sum(leaves, LeafCountW(dl, maxCode, b), k)
    ensures CountsOf(c, dl[..maxCode + 1])
    ensures Owned(c, MAX_BITS + 1) == Sum(leaves, UnitW(dl), k)
    ensures Total(c, MAX_BITS + 1) == Sum(leaves, LeafW(maxCode), k) <= maxCode + 1
  {
    hide Sum, Offset, First, Owned, Total;
    forall b: nat | 1 <= b <= MAX_BITS
      ensures c[b] == Count(dl[..maxCode + 1], b)
    {
      LensCount(leaves, dl, maxCode, maxCode + 1, b);
      SumBeyond(leaves, LeafCountW(dl, maxCode, b), maxCode + 1, k);
    }
    CountsSums(c, dl[..maxCode + 1], MAX_BITS + 1);
    KraftSum(leaves, dl, maxCode + 1);
    OffsetSum(leaves, dl, maxCode, maxCode + 1);
    SumBeyond(leaves, UnitW(dl), maxCode + 1, k);
    SumBeyond(leaves, LeafW(maxCode), maxCode + 1, k);
  }

  /** After the first pass: lengths of exactly the leaves, within the limit, and an excess of half the overflow. */
  lemma AfterFirst(t: Trace, l: seq<nat>, dl: seq<nat>, max: nat, maxCode: nat, c: seq<nat>)
    requires Finished(t) && Clipped(t, l, max) && maxCode < t.e && (forall x: nat | x in t.leaves :: x <= maxCode)
    requires |l| == Size(t) <= |dl| && (forall x: nat | x in t.leaves :: dl[x] == l[x])
    requires forall x: nat | x <= maxCode && x !in t.leaves :: dl[x] == 0
    requires Counted(c, Tail(t)[1..], l, maxCode) && maxCode + 1 <= Pow2(max)
    ensures LeafLengths(t.leaves, dl, maxCode + 1) && forall x: nat | x in t.leaves :: dl[x] <= max
    ensures CountsOf(c, dl[..maxCode + 1])
    ensures Excess(c, max, Over(t, l, max, 0), Total(c, MAX_BITS + 1))
    ensures Total(c, MAX_BITS + 1) == SeqSum(Tail(t), LeafW(maxCode))
  {
    hide Sum, SeqSum, Tail, Owned, Total, Over, Pow2, Scaled;
    LeafDepths(t, l, max);
    assert forall x: nat | x in t.leaves :: 1 <= dl[x] <= max;
    forall b: nat | b <= MAX_BITS
      ensures c[b] == Sum(t.leaves, LeafCountW(dl, maxCode, b), Size(t))
    {
      TailSum(t, LeafCountW(l, maxCode, b));
      SumExt(t.leaves, LeafCountW(l, maxCode, b), LeafCountW(dl, maxCode, b), Size(t));
    }
    CountsSum(t.leaves, dl, maxCode, Size(t), c);
    TailSum(t, LeafW(maxCode));
    KraftClipped(t, l, max, 0);
    SumExt(t.leaves, UnitW(l), UnitW(dl), Size(t));
    CountClipped(t, l, max, 0);
    SumExt(t.leaves, AtMaxW(l, max), LeafCountW(dl, maxCode, max), Size(t));
    forall b: nat | b == 0 || max < b <= MAX_BITS
      ensures c[b] == 0
    {
      SumExt(t.leaves, LeafCountW(dl, maxCode, b), LeafCountW([], maxCode, b), Size(t));
      SumZero(t.leaves, LeafCountW([], maxCode, b), Size(t));
    }
  }

  lemma {:induction false} SumZero(a: set<nat>, w: nat -> int, k: nat)
    requires forall x: nat | x in a :: w(x) == 0
    ensures Sum(a, w, k) == 0
  {
    if k > 0 {
      SumZero(a, w, k - 1);
    }
  }

  lemma LeafDepths(t: Trace, l: seq<nat>, max: nat)
    requires Finished(t) && Clipped(t, l, max) && |l| == Size(t)
    ensures forall x: nat | x in t.leaves :: x < |l| && 1 <= l[x] <= max
  {
    ClippedBound(t, l, max, 0);
    ActiveInTail(t, 0);
    forall x: nat | x in t.leaves
      ensures l[x] >= 1
    {
      LeafMerged(t, x);
      var i: nat :| i < |t.ms| && (t.ms[i].n == x || t.ms[i].m == x);
      assert ClippedPair(t, l, max, i);
    }
  }

  lemma LeafMerged(t: Trace, x: nat)
    requires Finished(t) && x in t.leaves
    ensures exists i: nat :: i < |t.ms| && (t.ms[i].n == x || t.ms[i].m == x)
  {
    StillActive(t, x, |t.ms|);
  }

  lemma {:induction false} StillActive(t: Trace, x: nat, i: nat)
    requires ValidTrace(t) && x in t.leaves && i <= |t.ms|
    ensures x in Active(t, i) || exists j: nat :: j < i && (t.ms[j].n == x || t.ms[j].m == x)
  {
    if i > 0 {
      StillActive(t, x, i - 1);
    }
  }

  // ---- the whole routine

  /** What gen_bitlen promises about the lengths and their counts. */
  ghost predicate GoodLengths(t: Trace, d: Desc, maxCode: nat, dl: seq<nat>, c: seq<nat>) {
    && maxCode < |dl| && LeafLengths(t.leaves, dl, maxCode + 1) && (forall x: nat | x in t.leaves :: x <= maxCode && dl[x] <= d.max)
    && CountsOf(c, dl[..maxCode + 1]) && c[0] == 0 && Kraft(dl[..maxCode + 1]) == FULL
  }

  /** The bits that the leaves take with the given lengths. */
  ghost function LeafCost(t: Trace, d: Desc, f: seq<nat>, l: seq<nat>, maxCode: nat): int {
    Sum(t.leaves, LeafCostW(d, f, l, maxCode), Size(t))
  }

  lemma NoExcess(t: Trace, d: Desc, maxCode: nat, dl: seq<nat>, c: seq<nat>, leaves: nat)
    requires maxCode < |dl| && LeafLengths(t.leaves, dl, maxCode + 1) && CountsOf(c, dl[..maxCode + 1])
    requires Excess(c, d.max, 0, leaves) && forall x: nat | x in t.leaves :: x <= maxCode && dl[x] <= d.max
    ensures GoodLengths(t, d, maxCode, dl, c)
  {
    hide Owned, Total, First, Count;
    CountsSums(c, dl[..maxCode + 1], MAX_BITS + 1);
    ScaledAdd(0, 0, d.max);
  }

  lemma CostSum(t: Trace, d: Desc, f: seq<nat>, l: seq<nat>, dl: seq<nat>, maxCode: nat)
    requires Finished(t) && maxCode < t.e && forall x: nat | x in t.leaves :: LenAt(dl, x) == LenAt(l, x)
    ensures SeqSum(Tail(t)[1..], LeafCostW(d, f, l, maxCode)) == LeafCost(t, d, f, dl, maxCode)
    ensures SeqSum(Tail(t), LeafCostW(d, f, l, maxCode)) == LeafCost(t, d, f, dl, maxCode)
  {
    hide Sum, SeqSum, Tail, Times;
    TailSum(t, LeafCostW(d, f, l, maxCode));
    SumExt(t.leaves, LeafCostW(d, f, l, maxCode), LeafCostW(d, f, dl, maxCode), Size(t));
  }

  lemma OverflowIs(t: Trace, dads: seq<nat>, l: seq<nat>, max: nat)
    requires Finished(t) && HasDads(t, dads) && |l| == Size(t)
    ensures SeqSum(Tail(t)[1..], OverW(dads, l, max)) == 2 * Over(t, l, max, 0)
  {
    hide Out, SeqSum, HasDads, ValidTrace;
    OverOut(t, dads, l, max, |t.ms|);
    assert Tail(t)[1..] == Out(t.ms, |t.ms|);
  }

  lemma AfterSecond(t: Trace, d: Desc, maxCode: nat, dl: seq<nat>, c: seq<nat>, leaves: nat)
    requires Finished(t) && maxCode < t.e && Size(t) <= |dl| && (forall x: nat | x in t.leaves :: x <= maxCode)
    requires forall x: nat | x <= maxCode && x !in t.leaves :: dl[x] == 0
    requires forall k | 0 <= k < |Tail(t)| && Tail(t)[k] <= maxCode :: Tail(t)[k] < |dl| && 1 <= dl[Tail(t)[k]] <= d.max
    requires Excess(c, d.max, 0, leaves)
    requires forall b: nat | 1 <= b <= MAX_BITS :: SeqSum(Tail(t), LeafCountW(dl, maxCode, b)) == c[b]
    ensures GoodLengths(t, d, maxCode, dl, c)
  {
    hide Sum, SeqSum, Tail, Owned, Total, GoodLengths;
    assert |c| == MAX_BITS + 1 && d.max <= MAX_BITS;
    TailLeaves(t, maxCode);
    forall x: nat | x in t.leaves
      ensures 1 <= dl[x] <= d.max
    {
      var k :| 0 <= k < |Tail(t)| && Tail(t)[k] == x;
    }
    forall b: nat | 1 <= b <= MAX_BITS
      ensures c[b] == Sum(t.leaves, LeafCountW(dl, maxCode, b), Size(t))
    {
      TailSum(t, LeafCountW(dl, maxCode, b));
    }
    CountsSum(t.leaves, dl, maxCode, Size(t), c);
    NoExcess(t, d, maxCode, dl, c, leaves);
  }

  /** gen_bitlen. l holds the depths before the repair; without overflow they are the lengths. */
  method GenLengths(heap: array<nat>, heapMax: nat, dl: array<nat>, fc: array<nat>, blCount: array<nat>, d: Desc,
                    maxCode: nat, optLen0: int, staticLen0: int, ghost t: Trace)
    returns (optLen: int, staticLen: int, ghost l: seq<nat>)
    requires GoodDesc(d) && t.e == d.elems && heap.Length == HEAP_SIZE && heapMax < HEAP_SIZE && blCount.Length == MAX_BITS + 1
    requires heap != dl && heap != fc && heap != blCount && dl != fc && dl != blCount && fc != blCount
    requires Finished(t) && heap[heapMax..] == Tail(t) && HasDads(t, dl[..])
    requires Size(t) <= dl.Length && maxCode < d.elems <= fc.Length && forall x: nat | x in t.leaves :: x <= maxCode
    requires forall x: nat | x <= maxCode && x !in t.leaves :: dl[x] == 0
    modifies dl, blCount
    ensures GoodLengths(t, d, maxCode, dl[..], blCount[..])
    ensures |l| == Size(t) && Clipped(t, l, d.max)
    ensures if Over(t, l, d.max, 0) == 0 then forall x: nat | x in t.leaves :: dl[x] == LenAt(l, x) else Descending(Tail(t), dl[..], maxCode)
    ensures optLen == optLen0 + LeafCost(t, d, fc[..], dl[..], maxCode)
    ensures staticLen == staticLen0 + (if d.stree.Some? then LeafCost(t, d, fc[..], StaticLens(d), maxCode) else 0)
    ensures forall x: nat | maxCode < x < d.elems :: dl[x] == old(dl[x])
  {
    hide Tail, HasDads, LeafCost, SeqSum, Over, GoodLengths, Excess, Counted, CountsOf, LeafLengths, Total, Times, LeafAt;
    hide Pow2;
    ghost var s, dads, fs := Tail(t), dl[..], fc[..];
    l := Depths(t, d.max, 0);
    assert Clipped(t, l, d.max);
    TailDistinct(t);
    TailLeaves(t, maxCode);
    var overflow: int;
    overflow, optLen, staticLen := FirstPass(heap, heapMax, dl, fc, blCount, d, maxCode, optLen0, staticLen0, t, l);
    OverflowIs(t, dads, l, d.max);
    CostSum(t, d, fs, l, dl[..], maxCode);
    CostSum(t, d, fs, StaticLens(d), StaticLens(d), maxCode);
    AfterFirst(t, l, dl[..], d.max, maxCode, blCount[..]);
    if overflow == 0 {
      NoExcess(t, d, maxCode, dl[..], blCount[..], Total(blCount[..], MAX_BITS + 1));
      return;
    }
    ghost var leaves := Total(blCount[..], MAX_BITS + 1);
    FixOverflow(blCount, d.max, overflow, leaves);
    CostSum(t, d, fs, dl[..], dl[..], maxCode);
    optLen := SecondPass(heap, heapMax, dl, fc, blCount, d.max, maxCode, optLen, d, s, leaves);
    CostSum(t, d, fs, dl[..], dl[..], maxCode);
    AfterSecond(t, d, maxCode, dl[..], blCount[..], leaves);
  }
}
