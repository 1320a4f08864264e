/** Canonical Huffman codes over code lengths 0..15 (section 3.2.2 of RFC 1951).
    A code of length l owns 2^(15 - l) of the 32768 fifteen-bit strings. Laid out in canonical
    order, by length and then by symbol, the codes own consecutive intervals of the strings read
    most significant bit first; `Before` is where the interval of a symbol starts. */
module Canonical {
  import opened Bits

  const MAX_BITS: nat := 15
  const FULL: nat := 32768

  ghost predicate ValidLens(lens: seq<nat>) {
    forall i | 0 <= i < |lens| :: lens[i] <= MAX_BITS
  }

  /** How many symbols have code length l. */
  function Count(lens: seq<nat>, l: nat): (c: nat)
    ensures c <= |lens|
  {
    if |lens| == 0 then 0
    else Count(lens[..|lens| - 1], l) + (if lens[|lens| - 1] == l then 1 else 0)
  }

  /** The number of fifteen-bit strings that start with a given code of length l. */
  function Unit(l: nat): (u: nat)
    ensures u >= 1
  {
    Pow2(if l <= MAX_BITS then MAX_BITS - l else 0)
  }

  /** The number of fifteen-bit strings that c codes of length l own together. */
  function Scaled(c: nat, l: nat): nat { c * Unit(l) }

  lemma ScaledAdd(a: nat, b: nat, l: nat)
    ensures Scaled(a + b, l) == Scaled(a, l) + Scaled(b, l)
    ensures Scaled(0, l) == 0 && Scaled(1, l) == Unit(l)
  {
    MulAdd(a, b, Unit(l));
  }

  lemma ScaledMono(a: nat, b: nat, l: nat)
    requires a <= b
    ensures Scaled(a, l) <= Scaled(b, l)
  {
    MulMono(a, b, Unit(l));
  }

  /** Where the intervals of the codes of length l start. */
  function First(lens: seq<nat>, l: nat): nat
  {
    if l <= 1 then 0 else First(lens, l - 1) + Scaled(Count(lens, l - 1), l - 1)
  }

  /** A fifteen-bit window of the stream, read most significant bit first. */
  function Mirror(x: nat): (v: nat)
    ensures v < FULL
  {
    Pow2Values();
    Rev(x, MAX_BITS)
  }

  function Kraft(lens: seq<nat>): nat { First(lens, MAX_BITS + 1) }

  function Before(lens: seq<nat>, n: nat): nat
    requires n < |lens|
  {
    First(lens, lens[n]) + Scaled(Count(lens[..n], lens[n]), lens[n])
  }

  /** The string v, read most significant bit first, starts with the code of symbol n. */
  ghost predicate Covers(lens: seq<nat>, n: nat, v: nat)
    ensures Covers(lens, n, v) ==> n < |lens| && 0 < lens[n] <= MAX_BITS
  {
    n < |lens| && 0 < lens[n] <= MAX_BITS && Before(lens, n) <= v < Before(lens, n) + Unit(lens[n])
  }

  /** The first code number of length l, by the recurrence of section 3.2.2 of RFC 1951. */
  function FirstCode(lens: seq<nat>, l: nat): nat
  {
    if l <= 1 then 0 else 2 * (FirstCode(lens, l - 1) + Count(lens, l - 1))
  }

  /** The code number of symbol n, most significant bit first. */
  function CodeNumber(lens: seq<nat>, n: nat): nat
    requires n < |lens|
  {
    FirstCode(lens, lens[n]) + Count(lens[..n], lens[n])
  }

  /** The code of symbol n as the encoder stores it: least significant bit sent first. */
  function Code(lens: seq<nat>, n: nat): (c: nat)
    requires n < |lens|
    ensures c < Pow2(lens[n])
  {
    Rev(CodeNumber(lens, n), lens[n])
  }

  function CodeBits(lens: seq<nat>, n: nat): (s: seq<bool>)
    requires n < |lens|
    ensures |s| == lens[n]
  {
    ToBits(Code(lens, n), lens[n])
  }

  /** The code of symbol n, or nothing if there is no such symbol. */
  function SymbolBits(lens: seq<nat>, n: nat): seq<bool> {
    if n < |lens| then CodeBits(lens, n) else []
  }

  // ---- counting

  lemma {:induction false} CountMono(lens: seq<nat>, i: nat, j: nat, l: nat)
    requires i <= j <= |lens|
    ensures Count(lens[..i], l) <= Count(lens[..j], l)
    ensures i < j && lens[i] == l ==> Count(lens[..i], l) + 1 <= Count(lens[..j], l)
  {
    if i < j {
      CountMono(lens, i, j - 1, l);
      CountStep(lens, j - 1, l);
    }
  }

  lemma CountStep(lens: seq<nat>, j: nat, l: nat)
    requires j < |lens|
    ensures Count(lens[..j + 1], l) == Count(lens[..j], l) + (if lens[j] == l then 1 else 0)
  {
    assert lens[..j + 1][..j] == lens[..j];
  }

  lemma CountNone(lens: seq<nat>)
    ensures forall l: nat :: Count(lens[..0], l) == 0
  {
  }

  lemma CountSteps(lens: seq<nat>, n: nat)
    requires n < |lens|
    ensures forall l: nat :: Count(lens[..n + 1], l) == Count(lens[..n], l) + (if lens[n] == l then 1 else 0)
  {
    forall l: nat {
      CountStep(lens, n, l);
    }
  }

  lemma CountAll(lens: seq<nat>, n: nat, l: nat)
    requires n < |lens| && lens[n] == l
    ensures Count(lens[..n], l) < Count(lens, l)
  {
    CountMono(lens, n, |lens|, l);
    assert lens[..|lens|] == lens;
  }

  /** The i-th symbol of length l, in symbol order. */
  function Nth(lens: seq<nat>, l: nat, i: nat): (n: nat)
    requires i < Count(lens, l)
    ensures n < |lens| && lens[n] == l && Count(lens[..n], l) == i
  {
    var k := |lens| - 1;
    if lens[k] == l && i == Count(lens[..k], l) then k
    else
      var n := Nth(lens[..k], l, i);
      assert lens[..k][..n] == lens[..n];
      n
  }

  lemma NthUnique(lens: seq<nat>, l: nat, i: nat, n: nat)
    requires n < |lens| && lens[n] == l && Count(lens[..n], l) == i
    ensures i < Count(lens, l) && Nth(lens, l, i) == n
  {
    CountAll(lens, n, l);
    var m := Nth(lens, l, i);
    if m < n {
      CountMono(lens, m, n, l);
    } else if n < m {
      CountMono(lens, n, m, l);
    }
  }

  // ---- intervals

  lemma {:induction false} FirstMono(lens: seq<nat>, i: nat, j: nat)
    requires i <= j
    ensures First(lens, i) <= First(lens, j)
  {
    hide Scaled, Count, Unit;
    if i < j {
      FirstMono(lens, i, j - 1);
    }
  }

  /** The interval of a symbol lies inside the interval of its length. */
  lemma IntervalInside(lens: seq<nat>, n: nat)
    requires n < |lens| && 0 < lens[n]
    ensures First(lens, lens[n]) <= Before(lens, n)
    ensures Before(lens, n) + Unit(lens[n]) <= First(lens, lens[n] + 1)
  {
    hide Scaled, Unit;
    var l := lens[n];
    CountAll(lens, n, l);
    ScaledMono(Count(lens[..n], l) + 1, Count(lens, l), l);
    ScaledAdd(Count(lens[..n], l), 1, l);
  }

  /** Codes are prefix-free: no string starts with the codes of two symbols. */
  lemma CoversUnique(lens: seq<nat>, m: nat, n: nat, v: nat)
    requires Covers(lens, m, v) && Covers(lens, n, v)
    ensures m == n
  {
    hide Scaled, Unit;
    IntervalInside(lens, m);
    IntervalInside(lens, n);
    if lens[m] < lens[n] {
      FirstMono(lens, lens[m] + 1, lens[n]);
    } else if lens[n] < lens[m] {
      FirstMono(lens, lens[n] + 1, lens[m]);
    } else if m < n {
      CoversSameLength(lens, m, n);
    } else if n < m {
      CoversSameLength(lens, n, m);
    }
  }

  lemma CoversSameLength(lens: seq<nat>, m: nat, n: nat)
    requires m < n < |lens| && lens[m] == lens[n]
    ensures Before(lens, m) + Unit(lens[m]) <= Before(lens, n)
  {
    var l := lens[m];
    hide Scaled, Unit;
    CountMono(lens, m, n, l);
    ScaledMono(Count(lens[..m], l) + 1, Count(lens[..n], l), l);
    ScaledAdd(Count(lens[..m], l), 1, l);
  }

  /** Below the Kraft sum every string starts with some code. */
  lemma {:induction false} CoversExists(lens: seq<nat>, l: nat, v: nat) returns (n: nat)
    requires l <= MAX_BITS + 1 && v < First(lens, l)
    ensures Covers(lens, n, v) && lens[n] < l
  {
    hide Scaled, Unit;
    if v < First(lens, l - 1) {
      n := CoversExists(lens, l - 1, v);
    } else {
      var i := IndexIn(v - First(lens, l - 1), Count(lens, l - 1), l - 1);
      n := Nth(lens, l - 1, i);
    }
  }

  lemma IndexIn(d: nat, c: nat, l: nat) returns (i: nat)
    requires d < Scaled(c, l)
    ensures i < c && Scaled(i, l) <= d < Scaled(i, l) + Unit(l)
  {
    DivSplit(d, Unit(l));
    i := d / Unit(l);
    if i >= c {
      MulMono(c, i, Unit(l));
    }
  }

  // ---- code numbers against intervals

  lemma {:induction false} FirstCodeScaled(lens: seq<nat>, l: nat)
    requires 1 <= l <= MAX_BITS
    ensures Scaled(FirstCode(lens, l), l) == First(lens, l)
  {
    if l > 1 {
      FirstCodeScaled(lens, l - 1);
      ScaledAdd(FirstCode(lens, l - 1), Count(lens, l - 1), l - 1);
      ScaledTwice(FirstCode(lens, l - 1) + Count(lens, l - 1), l);
    }
  }

  lemma ScaledTwice(c: nat, l: nat)
    requires 1 <= l <= MAX_BITS
    ensures Scaled(2 * c, l) == Scaled(c, l - 1)
  {
    assert Unit(l - 1) == 2 * Unit(l);
    MulAssoc(c, 2, Unit(l));
  }

  /** The interval of symbol n starts at its code number followed by zeros. */
  lemma CodeNumberScaled(lens: seq<nat>, n: nat)
    requires n < |lens| && 0 < lens[n] <= MAX_BITS
    ensures Scaled(CodeNumber(lens, n), lens[n]) == Before(lens, n)
  {
    FirstCodeScaled(lens, lens[n]);
    ScaledAdd(FirstCode(lens, lens[n]), Count(lens[..n], lens[n]), lens[n]);
  }

  /** A code number fits in its length as soon as the lengths are not over-subscribed. */
  lemma CodeNumberFits(lens: seq<nat>, n: nat)
    requires n < |lens| && 0 < lens[n] <= MAX_BITS && Kraft(lens) <= FULL
    ensures CodeNumber(lens, n) < Pow2(lens[n])
  {
    hide Scaled, Unit;
    CodeNumberScaled(lens, n);
    IntervalInside(lens, n);
    FirstMono(lens, lens[n] + 1, MAX_BITS + 1);
    ScaledFull(lens[n]);
    if CodeNumber(lens, n) >= Pow2(lens[n]) {
      ScaledMono(Pow2(lens[n]), CodeNumber(lens, n), lens[n]);
    }
  }

  lemma ScaledFull(l: nat)
    requires l <= MAX_BITS
    ensures Scaled(Pow2(l), l) == FULL
  {
    Pow2Add(l, MAX_BITS - l);
    Pow2Values();
  }

  /** The stored code, bit-reversed over fifteen bits, is the start of the symbol's interval. */
  lemma RevCode(lens: seq<nat>, n: nat)
    requires n < |lens| && 0 < lens[n] <= MAX_BITS && Kraft(lens) <= FULL
    ensures Mirror(Code(lens, n)) == Before(lens, n)
  {
    CodeNumberScaled(lens, n);
    CodeNumberFits(lens, n);
    RevRev(CodeNumber(lens, n), lens[n]);
    MirrorShort(Code(lens, n), lens[n]);
  }

  /** A fifteen-bit window x of the stream starts with the l-bit code h exactly when its
      reversal lies in the 2^(15 - l) strings that start at the reversal of h. */
  lemma StartsWith(x: nat, h: nat, l: nat)
    requires l <= MAX_BITS && h < Pow2(l)
    ensures Low(x, l) == h <==> Mirror(h) <= Mirror(x) < Mirror(h) + Unit(l)
  {
    hide Low, High, Rev;
    SplitAt(x, l);
    MirrorShort(h, l);
    RevRev(Low(x, l), l);
    RevRev(h, l);
    SameBlock(Rev(Low(x, l), l), Rev(h, l), l, Rev(High(x, l), MAX_BITS - l));
  }

  lemma SplitAt(x: nat, l: nat)
    requires l <= MAX_BITS
    ensures Mirror(x) == Scaled(Rev(Low(x, l), l), l) + Rev(High(x, l), MAX_BITS - l)
    ensures Rev(High(x, l), MAX_BITS - l) < Unit(l)
  {
    LowHigh(x, l);
    RevAppend(Low(x, l), l, High(x, l), MAX_BITS - l);
  }

  lemma SameBlock(a: nat, b: nat, l: nat, e: nat)
    requires e < Unit(l)
    ensures a == b <==> Scaled(b, l) <= Scaled(a, l) + e < Scaled(b, l) + Unit(l)
  {
    MulSub(a, b, Unit(l));
    if Scaled(b, l) <= Scaled(a, l) + e < Scaled(b, l) + Unit(l) {
      Multiple(a - b, Unit(l));
    }
  }

  /** A code of length l, read as a window with zeros after it. */
  lemma MirrorShort(h: nat, l: nat)
    requires l <= MAX_BITS && h < Pow2(l)
    ensures Mirror(h) == Scaled(Rev(h, l), l)
  {
    RevShift(h, l, MAX_BITS - l);
  }

  /** A stream window starts with the stored code of n exactly when its reversal is covered by n. */
  lemma CodeCovers(lens: seq<nat>, n: nat, x: nat)
    requires n < |lens| && 0 < lens[n] <= MAX_BITS && Kraft(lens) <= FULL
    ensures Low(x, lens[n]) == Code(lens, n) <==> Covers(lens, n, Mirror(x))
  {
    RevCode(lens, n);
    StartsWith(x, Code(lens, n), lens[n]);
  }

  // ---- symbols without a code at the end of the alphabet

  lemma {:induction false} CountPad(s: seq<nat>, j: nat, l: nat)
    requires j <= |s| && l >= 1 && forall i | j <= i < |s| :: s[i] == 0
    ensures Count(s, l) == Count(s[..j], l)
  {
    if j < |s| {
      CountPad(s[..|s| - 1], j, l);
      assert s[..|s| - 1][..j] == s[..j];
    } else {
      assert s[..j] == s;
    }
  }

  lemma {:induction false} FirstPad(s: seq<nat>, j: nat, l: nat)
    requires j <= |s| && forall i | j <= i < |s| :: s[i] == 0
    ensures First(s, l) == First(s[..j], l) && FirstCode(s, l) == FirstCode(s[..j], l)
  {
    hide Count, Scaled;
    if l > 1 {
      FirstPad(s, j, l - 1);
      CountPad(s, j, l - 1);
    }
  }

  /** They change neither the Kraft sum nor any code. */
  lemma CodePad(s: seq<nat>, j: nat)
    requires j <= |s| && forall i | j <= i < |s| :: s[i] == 0
    ensures Kraft(s) == Kraft(s[..j])
    ensures forall n: nat | n < j :: Code(s, n) == Code(s[..j], n)
  {
    hide Count, First, FirstCode, Rev;
    FirstPad(s, j, MAX_BITS + 1);
    forall n: nat | n < j
      ensures Code(s, n) == Code(s[..j], n)
    {
      FirstPad(s, j, s[n]);
      assert s[..j][..n] == s[..n];
    }
  }
}
