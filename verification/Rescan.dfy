/** The second pass of gen_bitlen: the repaired counts of lengths are handed out to the leaves, the longest
    lengths to the least frequent leaves. */
module Rescan {
  import opened Bits
  import opened Canonical
  import opened Sums
  import opened Huffman
  import opened Repair
  import opened GenBitlen
  import opened HuffTail

  function LeafAt(maxCode: nat, x: nat): int { if x <= maxCode then 1 else 0 }
  ghost function LeafW(maxCode: nat): nat -> int { (x: nat) => LeafAt(maxCode, x) }

  /** How many leaves at the end of the list have length b. */
  ghost function Given(s: seq<nat>, pos: nat, dl: seq<nat>, maxCode: nat, b: nat): int
    requires pos <= |s|
  {
    SeqSum(s[pos..], LeafCountW(dl, maxCode, b))
  }

  /** How many leaves stand before position pos. */
  ghost function Left(s: seq<nat>, pos: nat, maxCode: nat): int
    requires pos <= |s|
  {
    SeqSum(s[..pos], LeafW(maxCode))
  }

  /** All leaves from position pos on have got their lengths: those of lengths above bits, and all but n of
      the c[bits] leaves of length bits. */
  ghost predicate Scanned(s: seq<nat>, c: seq<nat>, max: nat, maxCode: nat, dl: seq<nat>, pos: nat, bits: nat, n: nat) {
    && |c| == MAX_BITS + 1 && 1 <= bits <= max <= MAX_BITS && n <= c[bits] && pos <= |s| && Distinct(s)
    && (forall k | 0 <= k < |s| :: s[k] < |dl|)
    && Left(s, pos, maxCode) == Total(c, bits) + n
    && (forall b: nat | 1 <= b <= MAX_BITS ::
          Given(s, pos, dl, maxCode, b) == if b > bits then c[b] else if b == bits then c[b] - n else 0)
    && (forall k | pos <= k < |s| && s[k] <= maxCode :: bits <= dl[s[k]] <= max)
    && (forall i, j | pos <= i < j < |s| && s[i] <= maxCode && s[j] <= maxCode :: dl[s[i]] <= dl[s[j]])
  }

  lemma LeftStep(s: seq<nat>, pos: nat, maxCode: nat)
    requires 1 <= pos <= |s|
    ensures Left(s, pos, maxCode) == Left(s, pos - 1, maxCode) + (if s[pos - 1] <= maxCode then 1 else 0)
  {
    hide SeqSum;
    SeqSumNext(s, pos - 1, LeafW(maxCode));
  }

  lemma GivenStep(s: seq<nat>, pos: nat, dl: seq<nat>, dl': seq<nat>, maxCode: nat, b: nat)
    requires 1 <= pos <= |s| && Distinct(s) && s[pos - 1] < |dl| == |dl'|
    requires forall x: nat | x < |dl| && x != s[pos - 1] :: dl'[x] == dl[x]
    ensures Given(s, pos - 1, dl', maxCode, b) ==
            Given(s, pos, dl, maxCode, b) + (if s[pos - 1] <= maxCode && dl'[s[pos - 1]] == b then 1 else 0)
  {
    hide SeqSum;
    var r := s[pos - 1..];
    assert r[1..] == s[pos..];
    SeqSumFirst(r, LeafCountW(dl', maxCode, b));
    SeqSumExt(s[pos..], LeafCountW(dl, maxCode, b), LeafCountW(dl', maxCode, b));
  }

  lemma LeftNone(s: seq<nat>, maxCode: nat)
    ensures Left(s, 0, maxCode) == 0
  {
  }

  lemma {:induction false} LeftZero(s: seq<nat>, pos: nat, maxCode: nat)
    requires pos <= |s|
    ensures Left(s, pos, maxCode) >= 0
    ensures Left(s, pos, maxCode) == 0 ==> forall k | 0 <= k < pos :: s[k] > maxCode
  {
    hide Left;
    LeftNone(s, maxCode);
    if pos > 0 {
      LeftZero(s, pos - 1, maxCode);
      LeftStep(s, pos, maxCode);
    }
  }

  /** A node that is not a leaf is skipped. */
  lemma ScanSkip(s: seq<nat>, c: seq<nat>, max: nat, maxCode: nat, dl: seq<nat>, pos: nat, bits: nat, n: nat)
    requires Scanned(s, c, max, maxCode, dl, pos, bits, n) && 1 <= pos && s[pos - 1] > maxCode
    ensures Scanned(s, c, max, maxCode, dl, pos - 1, bits, n)
  {
    hide Left, Given, Total;
    LeftStep(s, pos, maxCode);
    forall b: nat {
      GivenStep(s, pos, dl, dl, maxCode, b);
    }
  }

  lemma ScanGive(s: seq<nat>, c: seq<nat>, max: nat, maxCode: nat, dl: seq<nat>, pos: nat, bits: nat, n: nat)
    requires Scanned(s, c, max, maxCode, dl, pos, bits, n) && 1 <= pos && s[pos - 1] <= maxCode && n >= 1
    ensures Scanned(s, c, max, maxCode, dl[s[pos - 1] := bits], pos - 1, bits, n - 1)
  {
    hide Left, Given, Total;
    LeftStep(s, pos, maxCode);
    var dl' := dl[s[pos - 1] := bits];
    forall b: nat | 1 <= b <= MAX_BITS
      ensures Given(s, pos - 1, dl', maxCode, b) == if b > bits then c[b] else if b == bits then c[b] - (n - 1) else 0
    {
      GivenStep(s, pos, dl, dl', maxCode, b);
    }
  }

  lemma ScanMore(s: seq<nat>, c: seq<nat>, max: nat, maxCode: nat, dl: seq<nat>, pos: nat, bits: nat, n: nat)
    requires Scanned(s, c, max, maxCode, dl, pos, bits, n)
    ensures n >= 1 ==> pos >= 1
    ensures pos <= |s| && forall k | 0 <= k < |s| :: s[k] < |dl|
  {
    LeftNone(s, maxCode);
  }

  lemma ScanShorter(s: seq<nat>, c: seq<nat>, max: nat, maxCode: nat, dl: seq<nat>, pos: nat, bits: nat)
    requires Scanned(s, c, max, maxCode, dl, pos, bits, 0) && bits > 1
    ensures Scanned(s, c, max, maxCode, dl, pos, bits - 1, c[bits - 1])
  {
    hide Left, Given;
  }

  /** What the changes of lengths do to the bit count. */
  lemma CostChange(s: seq<nat>, d: Desc, f: seq<nat>, dl: seq<nat>, maxCode: nat, k: nat, bits: nat)
    requires Distinct(s) && k < |s| && s[k] < |dl| && s[k] <= maxCode < |f|
    ensures SeqSum(s, LeafCostW(d, f, dl[s[k] := bits], maxCode)) ==
            SeqSum(s, LeafCostW(d, f, dl, maxCode)) + Times(bits - dl[s[k]], f[s[k]])
  {
    hide SeqSum, Times;
    SeqSumChange(s, k, LeafCostW(d, f, dl, maxCode), LeafCostW(d, f, dl[s[k] := bits], maxCode));
    TimesDiff(f[s[k]], bits, dl[s[k]], XBits(d, s[k]));
  }

  lemma TimesDiff(f: int, a: int, b: int, x: int)
    ensures Times(f, a + x) == Times(f, b + x) + Times(a - b, f)
  {
    assert (a - b) * f == f * a - f * b;
    assert f * (a + x) == f * a + f * x && f * (b + x) == f * b + f * x;
  }

  /** The inner loop: n leaves get the length bits. */
  method AssignLength(heap: array<nat>, heapMax: nat, h0: nat, dl: array<nat>, fc: array<nat>, bits: nat, n0: nat, maxCode: nat,
                      optLen0: int, ghost d: Desc, ghost s: seq<nat>, ghost c: seq<nat>, ghost max: nat)
    returns (h: nat, optLen: int)
    requires heap != dl && heap != fc && dl != fc && heap.Length == HEAP_SIZE && heapMax <= h0 <= HEAP_SIZE
    requires heap[heapMax..] == s && maxCode < fc.Length
    requires Scanned(s, c, max, maxCode, dl[..], h0 - heapMax, bits, n0)
    modifies dl
    ensures heapMax <= h <= HEAP_SIZE && Scanned(s, c, max, maxCode, dl[..], h - heapMax, bits, 0)
    ensures optLen - SeqSum(s, LeafCostW(d, fc[..], dl[..], maxCode))
         == optLen0 - SeqSum(s, LeafCostW(d, fc[..], old(dl[..]), maxCode))
    ensures forall x: nat | x < dl.Length && (x > maxCode || x !in s) :: dl[x] == old(dl[x])
  {
    hide SeqSum;
    assert Distinct(s);
    ghost var fs := fc[..];
    h, optLen := h0, optLen0;
    var n := n0;
    while n != 0
      invariant heapMax <= h <= HEAP_SIZE && heap[heapMax..] == s && fc[..] == fs
      invariant Scanned(s, c, max, maxCode, dl[..], h - heapMax, bits, n)
      invariant optLen - SeqSum(s, LeafCostW(d, fs, dl[..], maxCode))
             == optLen0 - SeqSum(s, LeafCostW(d, fs, old(dl[..]), maxCode))
      invariant forall x: nat | x < dl.Length && (x > maxCode || x !in s) :: dl[x] == old(dl[x])
      decreases h
    {
      ghost var pos, was := h - heapMax, dl[..];
      ScanMore(s, c, max, maxCode, dl[..], pos, bits, n);
      h := h - 1;
      var m := heap[h];
      assert m == s[pos - 1];
      if m > maxCode {
        ScanSkip(s, c, max, maxCode, dl[..], pos, bits, n);
        continue;
      }
      ScanGive(s, c, max, maxCode, dl[..], pos, bits, n);
      CostChange(s, d, fs, dl[..], maxCode, pos - 1, bits);
      if dl[m] != bits {
        optLen := optLen + Times(bits - dl[m], fc[m]);
        dl[m] := bits;
      } else {
        assert Times(0, fs[m]) == 0;
      }
      assert dl[..] == was[m := bits];
      n := n - 1;
    }
  }

  lemma ScanStart(s: seq<nat>, c: seq<nat>, max: nat, maxCode: nat, dl: seq<nat>, leaves: nat)
    requires Excess(c, max, 0, leaves) && Distinct(s) && forall k | 0 <= k < |s| :: s[k] < |dl|
    requires SeqSum(s, LeafW(maxCode)) == leaves
    ensures Scanned(s, c, max, maxCode, dl, |s|, max, c[max])
  {
    hide Owned;
    assert s[..|s|] == s && s[|s|..] == [];
    TotalTop(c, max, MAX_BITS + 1);
  }

  lemma {:induction false} TotalTop(c: seq<nat>, max: nat, l: nat)
    requires max < l <= |c| && forall b: nat | max < b < |c| :: c[b] == 0
    ensures Total(c, l) == Total(c, max + 1)
  {
    if max + 1 < l {
      TotalTop(c, max, l - 1);
    }
  }

  /** At the end every leaf of the list has one of the repaired lengths, and each length has its count. */
  lemma ScanEnd(s: seq<nat>, c: seq<nat>, max: nat, maxCode: nat, dl: seq<nat>, pos: nat)
    requires Scanned(s, c, max, maxCode, dl, pos, 1, 0)
    ensures forall k | 0 <= k < |s| && s[k] <= maxCode :: s[k] < |dl| && 1 <= dl[s[k]] <= max
    ensures forall b: nat | 1 <= b <= MAX_BITS :: SeqSum(s, LeafCountW(dl, maxCode, b)) == c[b]
    ensures Descending(s, dl, maxCode)
  {
    hide SeqSum;
    assert Total(c, 1) == 0;
    LeftZero(s, pos, maxCode);
    forall b: nat | 1 <= b <= MAX_BITS
      ensures SeqSum(s, LeafCountW(dl, maxCode, b)) == c[b]
    {
      assert s == s[..pos] + s[pos..];
      SeqSumAppend(s[..pos], s[pos..], LeafCountW(dl, maxCode, b));
      ZeroSum(s[..pos], LeafCountW(dl, maxCode, b));
      assert Given(s, pos, dl, maxCode, b) == c[b];
    }
  }

  lemma {:induction false} ZeroSum(s: seq<nat>, w: nat -> int)
    requires forall k | 0 <= k < |s| :: w(s[k]) == 0
    ensures SeqSum(s, w) == 0
  {
    if |s| > 0 {
      ZeroSum(s[..|s| - 1], w);
    }
  }

  /** The whole second pass. */
  method SecondPass(heap: array<nat>, heapMax: nat, dl: array<nat>, fc: array<nat>, blCount: array<nat>, max: nat, maxCode: nat,
                    optLen0: int, ghost d: Desc, ghost s: seq<nat>, ghost leaves: nat)
    returns (optLen: int)
    requires heap != dl && heap != fc && heap != blCount && dl != fc && dl != blCount && heap.Length == HEAP_SIZE
    requires heapMax <= HEAP_SIZE && heap[heapMax..] == s && maxCode < fc.Length
    requires Excess(blCount[..], max, 0, leaves) && Distinct(s) && SeqSum(s, LeafW(maxCode)) == leaves
    requires forall k | 0 <= k < |s| :: s[k] < dl.Length
    modifies dl
    ensures forall k | 0 <= k < |s| && s[k] <= maxCode :: 1 <= dl[s[k]] <= max
    ensures Descending(s, dl[..], maxCode)
    ensures forall b: nat | 1 <= b <= MAX_BITS :: SeqSum(s, LeafCountW(dl[..], maxCode, b)) == blCount[b]
    ensures optLen - SeqSum(s, LeafCostW(d, fc[..], dl[..], maxCode))
         == optLen0 - SeqSum(s, LeafCostW(d, fc[..], old(dl[..]), maxCode))
    ensures forall x: nat | x < dl.Length && (x > maxCode || x !in s) :: dl[x] == old(dl[x])
  {
    hide Scanned, SeqSum, Owned, Total, Pow2;
    ghost var c := blCount[..];
    assert |c| == MAX_BITS + 1 && max <= MAX_BITS;
    ScanStart(s, c, max, maxCode, dl[..], leaves);
    optLen := optLen0;
    var h, bits := HEAP_SIZE, max;
    while bits != 0
      invariant 0 <= bits <= max && heapMax <= h <= HEAP_SIZE && blCount[..] == c && heap[heapMax..] == s
      invariant bits > 0 ==> Scanned(s, c, max, maxCode, dl[..], h - heapMax, bits, c[bits])
      invariant bits == 0 ==> Scanned(s, c, max, maxCode, dl[..], h - heapMax, 1, 0)
      invariant optLen - SeqSum(s, LeafCostW(d, fc[..], dl[..], maxCode))
             == optLen0 - SeqSum(s, LeafCostW(d, fc[..], old(dl[..]), maxCode))
      invariant forall x: nat | x < dl.Length && (x > maxCode || x !in s) :: dl[x] == old(dl[x])
    {
      var n := blCount[bits];
      h, optLen := AssignLength(heap, heapMax, h, dl, fc, bits, n, maxCode, optLen, d, s, c, max);
      if bits > 1 {
        ScanShorter(s, c, max, maxCode, dl[..], h - heapMax, bits);
      }
      bits := bits - 1;
    }
    ScanEnd(s, c, max, maxCode, dl[..], h - heapMax);
  }
}
