/** The encoder's side of canonical codes: bi_reverse and gen_codes of trees.c. */
module GenCodes {
  import opened Bits
  import opened Canonical

  /** Bit k of x becomes the lowest bit of the reversal of the first k + 1 bits. */
  lemma RevNext(x: nat, k: nat)
    ensures Rev(x, k + 1) == 2 * Rev(x, k) + High(x, k) % 2
    ensures High(x, k + 1) == High(x, k) / 2
  {
    hide Rev, Pow2;
    var h := High(x, k);
    LowHigh(x, k);
    RevAppend(Low(x, k), k, h, 1);
    RevAppend(Low(x, k), k, h, 0);
    Pow2Values();
    RevShortest(h);
    LowTwice(x, k);
  }

  lemma RevShortest(h: nat)
    ensures Rev(h, 1) == h % 2 && Rev(h, 0) == 0 && Pow2(0) == 1
  {
    assert Rev(h / 2, 0) == 0;
  }

  /** The first len bits of a code in reverse order. res is even whenever a bit is or-ed into it. */
  method BiReverse(value: nat, len: nat) returns (r: nat)
    requires 1 <= len <= MAX_BITS
    ensures r == Rev(value, len)
  {
    hide High;
    var res: nat, code := 0, value;
    var k: nat := 0;
    LowHigh(value, 0);
    while k < len
      invariant k <= len
      invariant res == 2 * Rev(value, k) && code == High(value, k)
    {
      RevNext(value, k);
      res := res + code % 2;
      code := code / 2;
      res := 2 * res;
      k := k + 1;
    }
    r := res / 2;
  }

  /** The first code numbers of all lengths, as the loop over bl_count computes them in sixteen bits. */
  method NextCodes(blCount: array<nat>, ghost lens: seq<nat>) returns (nextCode: array<nat>)
    requires blCount.Length == MAX_BITS + 1 && blCount[0] == 0 && Kraft(lens) <= FULL
    requires forall l: nat | 1 <= l <= MAX_BITS :: blCount[l] == Count(lens, l)
    ensures fresh(nextCode) && nextCode.Length == MAX_BITS + 1
    ensures forall l: nat | 1 <= l <= MAX_BITS :: nextCode[l] == FirstCode(lens, l)
  {
    hide Count, Kraft, FirstCode;
    nextCode := new nat[MAX_BITS + 1](_ => 0);
    var code: nat := 0;
    var bits: nat := 1;
    while bits <= MAX_BITS
      invariant 1 <= bits <= MAX_BITS + 1
      invariant forall l: nat | 1 <= l < bits :: nextCode[l] == FirstCode(lens, l)
      invariant code == if bits == 1 then 0 else FirstCode(lens, bits - 1)
    {
      NextCode(lens, bits, code, blCount[bits - 1]);
      code := 2 * (code + blCount[bits - 1]) % 65536;
      nextCode[bits] := code;
      bits := bits + 1;
    }
  }

  /** The sixteen-bit recurrence never wraps around. */
  lemma NextCode(lens: seq<nat>, l: nat, code: nat, count: nat)
    requires 1 <= l <= MAX_BITS && Kraft(lens) <= FULL
    requires if l == 1 then code == 0 && count == 0 else code == FirstCode(lens, l - 1) && count == Count(lens, l - 1)
    ensures 2 * (code + count) % 65536 == FirstCode(lens, l)
  {
    hide Count;
    FirstCodeFits(lens, l);
  }

  lemma FirstCodeFits(lens: seq<nat>, l: nat)
    requires 1 <= l <= MAX_BITS && Kraft(lens) <= FULL
    ensures FirstCode(lens, l) <= 32768
  {
    hide Scaled;
    FirstCodeScaled(lens, l);
    FirstMono(lens, l, MAX_BITS + 1);
    ScaledFull(l);
    if FirstCode(lens, l) > Pow2(l) {
      ScaledMono(Pow2(l) + 1, FirstCode(lens, l), l);
      ScaledAdd(Pow2(l), 1, l);
    }
    Pow2Mono(l, MAX_BITS);
    Pow2Values();
  }

  /** Codes for the symbols 0..maxCode from their lengths and the length counts. fc holds the frequencies
      on entry and the codes afterwards; the entries of symbols without a code keep what they held. */
  method GenCodes(fc: array<nat>, dl: array<nat>, maxCode: nat, blCount: array<nat>)
    requires maxCode < fc.Length && maxCode < dl.Length && fc != dl && fc != blCount
    requires blCount.Length == MAX_BITS + 1 && blCount[0] == 0
    requires ValidLens(dl[..maxCode + 1]) && Kraft(dl[..maxCode + 1]) <= FULL
    requires forall l: nat | 1 <= l <= MAX_BITS :: blCount[l] == Count(dl[..maxCode + 1], l)
    modifies fc
    ensures forall n: nat | n < fc.Length ::
      fc[n] == if n <= maxCode && dl[n] != 0 then Code(dl[..maxCode + 1], n) else old(fc[n])
  {
    hide Count, Code, First, FirstCode, Rev, Kraft;
    ghost var lens := dl[..maxCode + 1];
    var nextCode := NextCodes(blCount, lens);
    CountNone(lens);
    var n: nat := 0;
    while n <= maxCode
      invariant n <= maxCode + 1
      invariant forall l: nat | 1 <= l <= MAX_BITS :: nextCode[l] == FirstCode(lens, l) + Count(lens[..n], l)
      invariant forall k: nat | k < fc.Length ::
        fc[k] == if k < n && dl[k] != 0 then Code(lens, k) else old(fc[k])
    {
      var len := dl[n];
      CountSteps(lens, n);
      if len != 0 {
        var code := BiReverse(nextCode[len], len);
        CodeIs(lens, n, code, nextCode[len]);
        fc[n] := code;
        nextCode[len] := nextCode[len] + 1;
      }
      n := n + 1;
    }
  }

  lemma CodeIs(lens: seq<nat>, n: nat, code: nat, number: nat)
    requires n < |lens| && number == FirstCode(lens, lens[n]) + Count(lens[..n], lens[n]) && code == Rev(number, lens[n])
    ensures code == Code(lens, n)
  {
  }
}
