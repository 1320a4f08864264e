/** The mappings of lengths and distances to codes that tr_static_init of trees.c generates, and their
    agreement with the base and extra tables of inftrees.c. */
module StaticTables {
  import opened Bits
  import opened InfTrees

  const LENGTH_CODES: nat := 29
  const D_CODES: nat := 30

  const EXTRA_LBITS: seq<nat> := [0, 0, 0, 0, 0, 0, 0, 0, 1, 1, 1, 1, 2, 2, 2, 2, 3, 3, 3, 3, 4, 4, 4, 4, 5, 5, 5, 5, 0]
  const EXTRA_DBITS: seq<nat> := [
    0, 0, 0, 0, 1, 1, 2, 2, 3, 3, 4, 4, 5, 5, 6, 6, 7, 7, 8, 8, 9, 9, 10, 10, 11, 11, 12, 12, 13, 13]

  /** Where the normalized lengths of a code start. The last code holds 255 alone and keeps base 0. */
  function BaseLength(code: nat): nat
    requires code < LENGTH_CODES
  {
    if code == 0 || code == LENGTH_CODES - 1 then 0 else BaseLength(code - 1) + Pow2(EXTRA_LBITS[code - 1])
  }

  function BaseDist(code: nat): nat
    requires code <= D_CODES
  {
    if code == 0 then 0 else BaseDist(code - 1) + Pow2(EXTRA_DBITS[code - 1])
  }

  /** 2^e for the extra bits in use. */
  function Span(e: nat): nat {
    if e < 4 then (if e == 0 then 1 else if e == 1 then 2 else if e == 2 then 4 else 8)
    else if e < 8 then (if e == 4 then 16 else if e == 5 then 32 else if e == 6 then 64 else 128)
    else if e < 12 then (if e == 8 then 256 else if e == 9 then 512 else if e == 10 then 1024 else 2048)
    else if e == 12 then 4096 else 8192
  }

  lemma SpanIsPow2(e: nat)
    requires e <= 13
    ensures Span(e) == Pow2(e)
  {
    Pow2Values();
  }

  /** Neighbouring entries of the decoder's tables differ by the span of the lower code. */
  lemma LengthTable(c: nat)
    requires c < LENGTH_CODES - 1
    ensures EXTRA_LBITS[c] <= 5 && EXTRA_LBITS[c] + 16 == LEXT[c]
    ensures c > 0 ==> LBASE[c] == LBASE[c - 1] + Span(EXTRA_LBITS[c - 1])
    ensures c == 27 ==> LBASE[c] + Span(EXTRA_LBITS[c]) == 259
  {
  }

  lemma LastLength()
    ensures LBASE[28] == 258 && LEXT[28] == 16 && EXTRA_LBITS[28] == 0 && Pow2(0) == 1
  {
  }

  lemma NearDists(c: nat)
    requires c < 16
    ensures EXTRA_DBITS[c] <= 13 && EXTRA_DBITS[c] + 16 == DEXT[c]
    ensures c > 0 ==> DBASE[c] == DBASE[c - 1] + Span(EXTRA_DBITS[c - 1])
  {
  }

  lemma FarDists(c: nat)
    requires 16 <= c < D_CODES
    ensures EXTRA_DBITS[c] <= 13 && EXTRA_DBITS[c] + 16 == DEXT[c]
    ensures c > 0 ==> DBASE[c] == DBASE[c - 1] + Span(EXTRA_DBITS[c - 1])
    ensures EXTRA_DBITS[c] >= 7
  {
  }

  lemma DistTable(c: nat)
    requires c < D_CODES
    ensures EXTRA_DBITS[c] <= 13 && EXTRA_DBITS[c] + 16 == DEXT[c]
    ensures c > 0 ==> DBASE[c] == DBASE[c - 1] + Span(EXTRA_DBITS[c - 1])
    ensures c >= 16 ==> EXTRA_DBITS[c] >= 7
    ensures c == 29 ==> DBASE[c] + Span(EXTRA_DBITS[c]) == 32769
  {
    hide Span;
    if c < 16 {
      NearDists(c);
    } else {
      FarDists(c);
    }
    DistEnd();
  }

  lemma DistEnd()
    ensures DBASE[29] + Span(EXTRA_DBITS[29]) == 32769
  {
  }

  lemma {:induction false} BaseLengthIs(c: nat)
    requires c < LENGTH_CODES - 1
    ensures BaseLength(c) + 3 == LBASE[c] && EXTRA_LBITS[c] + 16 == LEXT[c] && EXTRA_LBITS[c] <= 5
  {
    hide Pow2, Span;
    LengthTable(c);
    if c > 0 {
      BaseLengthIs(c - 1);
      SpanIsPow2(EXTRA_LBITS[c - 1]);
    }
  }

  lemma {:induction false} BaseDistIs(c: nat)
    requires c < D_CODES
    ensures BaseDist(c) + 1 == DBASE[c] && EXTRA_DBITS[c] + 16 == DEXT[c] && EXTRA_DBITS[c] <= 13
  {
    hide Pow2, Span;
    DistTable(c);
    if c > 0 {
      BaseDistIs(c - 1);
      SpanIsPow2(EXTRA_DBITS[c - 1]);
    }
  }

  /** The greatest of the codes 0..c whose range starts at or below lc. */
  function LengthCodeUpTo(lc: nat, c: nat): (r: nat)
    requires c < LENGTH_CODES - 1
    ensures r <= c && BaseLength(r) <= lc && (r < c ==> lc < BaseLength(r + 1))
  {
    if c == 0 || BaseLength(c) <= lc then c else LengthCodeUpTo(lc, c - 1)
  }

  /** The code of a normalized length lc = length - 3; 255 has a code of its own. */
  function LengthCode(lc: nat): (c: nat)
    requires lc < 256
    ensures c < LENGTH_CODES
  {
    if lc == 255 then LENGTH_CODES - 1 else LengthCodeUpTo(lc, LENGTH_CODES - 2)
  }

  function DistCodeUpTo(d: nat, c: nat): (r: nat)
    requires c < D_CODES
    ensures r <= c && BaseDist(r) <= d && (r < c ==> d < BaseDist(r + 1))
  {
    if c == 0 || BaseDist(c) <= d then c else DistCodeUpTo(d, c - 1)
  }

  /** The code of a distance, given as d = distance - 1. */
  function DistCode(d: nat): (c: nat)
    requires d < 32768
    ensures c < D_CODES
  {
    DistCodeUpTo(d, D_CODES - 1)
  }

  /** A length code and its extra bits give the length back through the decoder's tables. */
  lemma LengthDecodes(lc: nat)
    requires lc < 256
    ensures var c := LengthCode(lc); var x := if c < 28 then lc - BaseLength(c) else 0;
            x < Pow2(EXTRA_LBITS[c]) && LBASE[c] + x == lc + 3 && LEXT[c] == 16 + EXTRA_LBITS[c]
  {
    hide Pow2, Span;
    var c := LengthCode(lc);
    if c < 28 {
      BaseLengthIs(c);
      SpanIsPow2(EXTRA_LBITS[c]);
      LengthTable(c);
    } else {
      LastLength();
    }
  }

  lemma DistDecodes(d: nat)
    requires d < 32768
    ensures var c := DistCode(d);
            BaseDist(c) <= d && d - BaseDist(c) < Pow2(EXTRA_DBITS[c]) && DBASE[c] + (d - BaseDist(c)) == d + 1 && DEXT[c] == 16 + EXTRA_DBITS[c]
  {
    hide Pow2, Span;
    var c := DistCode(d);
    BaseDistIs(c);
    SpanIsPow2(EXTRA_DBITS[c]);
    DistTable(c);
  }

  // ---- tr_static_init

  /** a[from..from + n] := v, the inner loops of the routine. */
  method FillRange(a: array<nat>, from: nat, n: nat, v: nat)
    requires from + n <= a.Length
    modifies a
    ensures forall i: nat | i < a.Length :: a[i] == if from <= i < from + n then v else old(a[i])
  {
    var k: nat := 0;
    while k < n
      invariant k <= n
      invariant forall i: nat | i < a.Length :: a[i] == if from <= i < from + k then v else old(a[i])
    {
      a[from + k] := v;
      k := k + 1;
    }
  }

  method LengthTables() returns (lengthCode: array<nat>, baseLength: array<nat>)
    ensures lengthCode.Length == 256 && baseLength.Length == LENGTH_CODES
    ensures forall lc: nat | lc < 256 :: lengthCode[lc] == LengthCode(lc)
    ensures forall c: nat | c < LENGTH_CODES :: baseLength[c] == BaseLength(c)
  {
    hide Pow2, Span, LengthCode, BaseLength;
    BaseStart();
    lengthCode := new nat[256](_ => 0);
    baseLength := new nat[LENGTH_CODES](_ => 0);
    var length: nat, code: nat := 0, 0;
    while code < LENGTH_CODES - 1
      invariant code <= LENGTH_CODES - 1
      invariant length == if code < 28 then BaseLength(code) else 256
      invariant forall c: nat | c < code :: baseLength[c] == BaseLength(c)
      invariant baseLength[28] == 0
      invariant forall lc: nat | lc < length && lc < 255 :: lengthCode[lc] == LengthCode(lc)
    {
      baseLength[code] := length;
      LengthRange(code);
      LengthCodesOf(code);
      FillRange(lengthCode, length, Pow2(EXTRA_LBITS[code]), code);
      length := length + Pow2(EXTRA_LBITS[code]);
      code := code + 1;
    }
    lengthCode[length - 1] := code;
    LastLengthCode();
  }

  lemma LastLengthCode()
    ensures LengthCode(255) == 28
  {
  }

  lemma BaseStart()
    ensures BaseLength(0) == 0 && BaseLength(28) == 0 && BaseDist(0) == 0
  {
  }

  lemma LengthRange(c: nat)
    requires c < LENGTH_CODES - 1
    ensures c < 27 ==> BaseLength(c + 1) == BaseLength(c) + Pow2(EXTRA_LBITS[c])
    ensures c == 27 ==> BaseLength(c) + Pow2(EXTRA_LBITS[c]) == 256
    ensures BaseLength(c) + Pow2(EXTRA_LBITS[c]) <= 256
  {
    hide Pow2, Span;
    BaseLengthIs(27);
    LengthTable(27);
    SpanIsPow2(EXTRA_LBITS[27]);
    if c < 27 {
      BaseLengthMono(c + 1, 27);
    }
  }

  lemma LengthCodesOf(c: nat)
    requires c < LENGTH_CODES - 1
    ensures forall lc: nat | BaseLength(c) <= lc < BaseLength(c) + Pow2(EXTRA_LBITS[c]) && lc < 255 :: LengthCode(lc) == c
  {
    forall lc: nat | BaseLength(c) <= lc < BaseLength(c) + Pow2(EXTRA_LBITS[c]) && lc < 255
      ensures LengthCode(lc) == c
    {
      LengthCodeIs(lc, c, LENGTH_CODES - 2);
    }
  }

  lemma {:induction false} BaseLengthMono(i: nat, j: nat)
    requires i <= j < LENGTH_CODES - 1
    ensures BaseLength(i) <= BaseLength(j)
  {
    if i < j {
      BaseLengthMono(i, j - 1);
    }
  }

  lemma {:induction false} LengthCodeIs(lc: nat, c: nat, m: nat)
    requires c <= m < LENGTH_CODES - 1 && BaseLength(c) <= lc < BaseLength(c) + Pow2(EXTRA_LBITS[c])
    ensures LengthCodeUpTo(lc, m) == c
  {
    hide Pow2, BaseLength;
    if c < m {
      LengthRange(c);
      BaseLengthMono(c + 1, m);
      LengthCodeIs(lc, c, m - 1);
    }
  }

  /** _dist_code: 256 entries for the small distances, then one entry for every 128 distances. */
  ghost predicate DistCodes(distCode: seq<nat>) {
    && |distCode| == 512
    && (forall d: nat | d < 256 :: distCode[d] == DistCode(d))
    && (forall d: nat | 256 <= d < 32768 :: distCode[256 + d / 128] == DistCode(d))
  }

  /** d_code of deflate.h. */
  function DCode(distCode: seq<nat>, d: nat): nat
    requires |distCode| == 512 && d < 32768
  {
    if d < 256 then distCode[d] else distCode[256 + d / 128]
  }

  lemma {:induction false} BaseDistMono(i: nat, j: nat)
    requires i <= j <= D_CODES
    ensures BaseDist(i) <= BaseDist(j)
  {
    if i < j {
      BaseDistMono(i, j - 1);
    }
  }

  lemma BaseDistNext(c: nat)
    requires c < D_CODES
    ensures BaseDist(c + 1) == BaseDist(c) + Pow2(EXTRA_DBITS[c])
  {
  }

  lemma DistRange(c: nat)
    requires c < D_CODES
    ensures BaseDist(c + 1) == BaseDist(c) + Pow2(EXTRA_DBITS[c]) <= 32768
    ensures c < 16 ==> BaseDist(c + 1) <= 256
    ensures c >= 16 ==> 256 <= BaseDist(c)
  {
    hide Pow2, Span, BaseDist;
    BaseDistNext(c);
    BaseDistNext(29);
    BaseDistIs(29);
    DistTable(29);
    SpanIsPow2(EXTRA_DBITS[29]);
    BaseDistMono(c + 1, D_CODES);
    BaseDistIs(16);
    Middle();
    if c < 16 {
      BaseDistMono(c + 1, 16);
    } else {
      BaseDistMono(16, c);
    }
  }

  lemma Middle()
    ensures DBASE[16] == 257
  {
  }

  lemma {:induction false} DistCodeIs(d: nat, c: nat, m: nat)
    requires c <= m < D_CODES && BaseDist(c) <= d < BaseDist(c) + Pow2(EXTRA_DBITS[c])
    ensures DistCodeUpTo(d, m) == c
  {
    hide Pow2, BaseDist;
    if c < m {
      DistRange(c);
      BaseDistMono(c + 1, m);
      DistCodeIs(d, c, m - 1);
    }
  }

  /** From code 16 on, ranges are made of whole groups of 128 distances. */
  lemma {:induction false} WholeGroups(c: nat)
    requires 16 <= c <= D_CODES
    ensures BaseDist(c) % 128 == 0
  {
    hide Pow2, Span, BaseDist;
    if c == 16 {
      BaseDistIs(16);
      Middle();
    } else {
      WholeGroups(c - 1);
      DistRange(c - 1);
      GroupSpan(c - 1);
      AddGroups(BaseDist(c - 1), Pow2(EXTRA_DBITS[c - 1] - 7));
    }
  }

  lemma AddGroups(x: nat, g: nat)
    requires x % 128 == 0
    ensures (x + 128 * g) % 128 == 0
  {
  }

  lemma GroupSpan(c: nat)
    requires 16 <= c < D_CODES
    ensures EXTRA_DBITS[c] >= 7 && Pow2(EXTRA_DBITS[c]) == 128 * Pow2(EXTRA_DBITS[c] - 7)
  {
    DistTable(c);
    Pow2Add(7, EXTRA_DBITS[c] - 7);
    Pow2Values();
  }

  method SmallDistTables(distCode: array<nat>, baseDist: array<nat>)
    requires distCode.Length == 512 && baseDist.Length == D_CODES && distCode != baseDist
    modifies distCode, baseDist
    ensures forall d: nat | d < 256 :: distCode[d] == DistCode(d)
    ensures forall c: nat | c < 16 :: baseDist[c] == BaseDist(c)
  {
    hide Pow2, Span, DistCode, BaseDist;
    BaseStart();
    var dist: nat, code: nat := 0, 0;
    while code < 16
      invariant code <= 16 && dist == BaseDist(code) <= 256
      invariant forall c: nat | c < code :: baseDist[c] == BaseDist(c)
      invariant forall d: nat | d < dist :: distCode[d] == DistCode(d)
    {
      baseDist[code] := dist;
      DistRange(code);
      DistCodesOf(code);
      FillRange(distCode, dist, Pow2(EXTRA_DBITS[code]), code);
      dist := dist + Pow2(EXTRA_DBITS[code]);
      code := code + 1;
    }
    BaseDistIs(16);
    Middle();
  }

  /** Distances of one group of 128 share their code. */
  lemma GroupSame(d: nat)
    requires 256 <= d < 32768
    ensures DistCode(d) == DistCode(d / 128 * 128)
  {
    hide Pow2, BaseDist, DistCodeUpTo;
    var g := d / 128 * 128;
    var c := DistCode(g);
    DistDecodes(g);
    DistRange(c);
    if c >= 16 {
      WholeGroups(c);
      WholeGroups(c + 1);
    }
    DistCodesOf(c);
  }

  method DistTables() returns (distCode: array<nat>, baseDist: array<nat>)
    ensures baseDist.Length == D_CODES && DistCodes(distCode[..])
    ensures forall c: nat | c < D_CODES :: baseDist[c] == BaseDist(c)
  {
    hide Pow2, Span, DistCode, BaseDist;
    distCode := new nat[512](_ => 0);
    baseDist := new nat[D_CODES](_ => 0);
    SmallDistTables(distCode, baseDist);
    BaseDistIs(16);
    Middle();
    var dist: nat, code: nat := 2, 16;
    while code < D_CODES
      invariant 16 <= code <= D_CODES && 128 * dist == BaseDist(code)
      invariant forall c: nat | c < code :: baseDist[c] == BaseDist(c)
      invariant forall d: nat | d < 256 :: distCode[d] == DistCode(d)
      invariant dist <= 256 && forall i: nat | 258 <= i < 256 + dist :: distCode[i] == DistCode((i - 256) * 128)
    {
      baseDist[code] := 128 * dist;
      DistRange(code);
      GroupSpan(code);
      DistCodesOf(code);
      FillRange(distCode, 256 + dist, Pow2(EXTRA_DBITS[code] - 7), code);
      dist := dist + Pow2(EXTRA_DBITS[code] - 7);
      code := code + 1;
    }
    LastDist();
    forall d: nat | 256 <= d < 32768
      ensures distCode[256 + d / 128] == DistCode(d)
    {
      GroupSame(d);
    }
  }

  lemma LastDist()
    ensures BaseDist(D_CODES) == 32768
  {
    hide Pow2, Span;
    BaseDistIs(29);
    DistTable(29);
    SpanIsPow2(EXTRA_DBITS[29]);
    DistRange(29);
  }

  lemma DistCodesOf(c: nat)
    requires c < D_CODES
    ensures BaseDist(c) + Pow2(EXTRA_DBITS[c]) <= 32768
    ensures forall d: nat | BaseDist(c) <= d < BaseDist(c) + Pow2(EXTRA_DBITS[c]) :: d < 32768 && DistCode(d) == c
  {
    DistRange(c);
    forall d: nat | BaseDist(c) <= d < BaseDist(c) + Pow2(EXTRA_DBITS[c])
      ensures d < 32768 && DistCode(d) == c
    {
      DistCodeIs(d, c, D_CODES - 1);
    }
  }
}
