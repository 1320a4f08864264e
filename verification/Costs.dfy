/** The exact length of a block in terms of symbol frequencies: the bit counts that build_tree keeps. */
module Costs {
  import opened Bits
  import opened Canonical
  import opened StaticTables
  import opened Tokens
  import opened Traces
  import opened Machine
  import opened Huffman
  import opened GenBitlen
  import opened BuildTree
  import opened RunLength
  import opened Blocks
  import opened DynamicTrees
  import InfTrees
  import Runs

  const L_CODES: nat := 286
  const BL_CODES: nat := 19

  /** The literal/length, distance and code length alphabets. */
  function LDesc(): Desc { Desc(Some(FixedCodes().lit), EXTRA_LBITS, 257, L_CODES, MAX_BITS) }
  function DDesc(): Desc { Desc(Some(FixedCodes().dist), EXTRA_DBITS, 0, D_CODES, MAX_BITS) }
  function BlDesc(): Desc { Desc(None, EXTRA_BLBITS, 0, BL_CODES, 7) }

  const EXTRA_BLBITS: seq<nat> := [0, 0, 0, 0, 0, 0, 0, 0, 0, 0, 0, 0, 0, 0, 0, 0, 2, 3, 7]

  lemma GoodDescs()
    ensures GoodDesc(LDesc()) && GoodDesc(DDesc()) && GoodDesc(BlDesc())
  {
    hide FixedCodes;
    Pow2Values();
  }

  // ---- frequencies

  /** How often a token uses literal/length symbol n, and distance symbol n. */
  function LitUse(t: Token, n: nat): nat
    requires ValidToken(t)
  {
    match t
    case Literal(b) => if b == n then 1 else 0
    case Match(length, _) => if LengthSym(length) == n then 1 else 0
  }

  function DistUse(t: Token, n: nat): nat
    requires ValidToken(t)
  {
    match t
    case Literal(_) => 0
    case Match(_, dist) => if DistSym(dist) == n then 1 else 0
  }

  predicate AllValid(ts: seq<Token>) { forall i | 0 <= i < |ts| :: ValidToken(ts[i]) }

  /** The frequencies of a block, with the end-of-block symbol counted once. */
  function LitFreq(ts: seq<Token>, n: nat): nat
    requires AllValid(ts)
  {
    if |ts| == 0 then (if n == END_BLOCK then 1 else 0) else LitFreq(ts[..|ts| - 1], n) + LitUse(ts[|ts| - 1], n)
  }

  function DistFreq(ts: seq<Token>, n: nat): nat
    requires AllValid(ts)
  {
    if |ts| == 0 then 0 else DistFreq(ts[..|ts| - 1], n) + DistUse(ts[|ts| - 1], n)
  }

  ghost predicate LitFreqs(f: seq<nat>, ts: seq<Token>)
    requires AllValid(ts)
  {
    |f| >= L_CODES && forall n: nat | n < L_CODES :: f[n] == LitFreq(ts, n)
  }

  ghost predicate DistFreqs(f: seq<nat>, ts: seq<Token>)
    requires AllValid(ts)
  {
    |f| >= D_CODES && forall n: nat | n < D_CODES :: f[n] == DistFreq(ts, n)
  }

  // ---- costs under a change of frequencies

  lemma TimesBump(f: int, x: int)
    ensures Times(f + 1, x) == Times(f, x) + x
  {
  }

  /** One more use of symbol n. */
  lemma {:induction false} CostBump(d: Desc, f: seq<nat>, g: seq<nat>, l: seq<nat>, n: nat, k: nat)
    requires k <= |f| && k <= |g| && n < k && forall x: nat | x < k :: g[x] == f[x] + (if x == n then 1 else 0)
    ensures TreeCost(d, g, l, k) == TreeCost(d, f, l, k) + LenAt(l, n) + XBits(d, n)
  {
    hide Times, XBits, LenAt;
    if n == k - 1 {
      CostSame(d, f, g, l, k - 1);
      TimesBump(f[n], LenAt(l, n) + XBits(d, n));
    } else {
      CostBump(d, f, g, l, n, k - 1);
    }
  }

  lemma {:induction false} CostSame(d: Desc, f: seq<nat>, g: seq<nat>, l: seq<nat>, k: nat)
    requires k <= |f| && k <= |g| && forall x: nat | x < k :: g[x] == f[x]
    ensures TreeCost(d, g, l, k) == TreeCost(d, f, l, k)
  {
    hide Times, XBits, LenAt;
    if k > 0 {
      CostSame(d, f, g, l, k - 1);
    }
  }

  lemma {:induction false} CostNone(d: Desc, f: seq<nat>, l: seq<nat>, k: nat)
    requires k <= |f| && forall x: nat | x < k :: f[x] == 0
    ensures TreeCost(d, f, l, k) == 0
  {
    hide XBits, LenAt, Times;
    if k > 0 {
      CostNone(d, f, l, k - 1);
      TimesZero(LenAt(l, k - 1) + XBits(d, k - 1));
    }
  }

  /** Unused symbols at the end cost nothing, whatever their lengths. */
  lemma {:induction false} CostCut(d: Desc, f: seq<nat>, l: seq<nat>, m: seq<nat>, j: nat, k: nat)
    requires j <= k <= |f| && (forall x: nat | x < j :: LenAt(l, x) == LenAt(m, x)) && forall x: nat | j <= x < k :: f[x] == 0
    ensures TreeCost(d, f, l, j) == TreeCost(d, f, m, k)
  {
    hide XBits, LenAt, Times;
    if j < k {
      CostCut(d, f, l, m, j, k - 1);
      TimesZero(LenAt(m, k - 1) + XBits(d, k - 1));
    } else if k > 0 {
      CostCut(d, f, l, m, k - 1, k - 1);
    }
  }

  // ---- the body of a block

  function LitCounts(ts: seq<Token>): (f: seq<nat>)
    requires AllValid(ts)
    ensures |f| == L_CODES && forall n: nat | n < L_CODES :: f[n] == LitFreq(ts, n)
  {
    seq(L_CODES, n requires 0 <= n < L_CODES => LitFreq(ts, n))
  }

  function DistCounts(ts: seq<Token>): (f: seq<nat>)
    requires AllValid(ts)
    ensures |f| == D_CODES && forall n: nat | n < D_CODES :: f[n] == DistFreq(ts, n)
  {
    seq(D_CODES, n requires 0 <= n < D_CODES => DistFreq(ts, n))
  }

  /** The bits that build_tree counts for the tokens of a block and its end. */
  function BodyCost(ts: seq<Token>, c: Codes): int
    requires AllValid(ts)
  {
    TreeCost(LDesc(), LitCounts(ts), c.lit, L_CODES) + TreeCost(DDesc(), DistCounts(ts), c.dist, D_CODES)
  }

  lemma LitX(n: nat)
    requires n < L_CODES
    ensures XBits(LDesc(), n) == if n <= 256 then 0 else LengthExtra(n)
  {
    hide FixedCodes, Pow2, Span, BaseLength;
    if n > 256 {
      if n < 285 {
        BaseLengthIs(n - 257);
      } else {
        LastLength();
      }
    }
  }

  lemma DistX(n: nat)
    requires n < D_CODES
    ensures XBits(DDesc(), n) == DistExtra(n)
  {
    hide FixedCodes, Pow2, Span, BaseDist;
    BaseDistIs(n);
  }

  lemma LitFreqNext(ts: seq<Token>, t: Token, n: nat)
    requires AllValid(ts) && ValidToken(t)
    ensures AllValid(ts + [t])
    ensures LitFreq(ts + [t], n) == LitFreq(ts, n) + LitUse(t, n) && DistFreq(ts + [t], n) == DistFreq(ts, n) + DistUse(t, n)
  {
    assert (ts + [t])[..|ts|] == ts;
  }

  /** One more token costs its own bits. */
  lemma CostToken(ts: seq<Token>, t: Token, c: Codes)
    requires AllValid(ts) && Encodes(c, t)
    ensures AllValid(ts + [t]) && BodyCost(ts + [t], c) == BodyCost(ts, c) + |TokenBits(c, t)|
  {
    hide TreeCost, LitFreq, DistFreq, LengthSym, DistSym, FixedCodes, LDesc, DDesc, LengthRest, DistRest, LengthExtra, DistExtra;
    forall n: nat {
      LitFreqNext(ts, t, n);
    }
    match t {
      case Literal(b) =>
        CostBump(LDesc(), LitCounts(ts), LitCounts(ts + [t]), c.lit, b, L_CODES);
        CostSame(DDesc(), DistCounts(ts), DistCounts(ts + [t]), c.dist, D_CODES);
        LitX(b);
      case Match(length, dist) =>
        CostBump(LDesc(), LitCounts(ts), LitCounts(ts + [t]), c.lit, LengthSym(length), L_CODES);
        CostBump(DDesc(), DistCounts(ts), DistCounts(ts + [t]), c.dist, DistSym(dist), D_CODES);
        LitX(LengthSym(length));
        DistX(DistSym(dist));
    }
  }

  lemma CostEmpty(c: Codes)
    requires HasCode(c.lit, END_BLOCK)
    ensures BodyCost([], c) == c.lit[END_BLOCK]
  {
    hide TreeCost, FixedCodes, LDesc, DDesc;
    var zeros: seq<nat> := seq(L_CODES, _ => 0);
    CostNone(LDesc(), zeros, c.lit, L_CODES);
    CostBump(LDesc(), zeros, LitCounts([]), c.lit, END_BLOCK, L_CODES);
    CostNone(DDesc(), DistCounts([]), c.dist, D_CODES);
    LitX(END_BLOCK);
  }

  /** The body of a block has exactly the length that its frequencies give. */
  lemma {:induction false} BodyLength(c: Codes, ts: seq<Token>)
    requires EncodesAll(c, ts)
    ensures AllValid(ts) && |BodyBits(c, ts)| == BodyCost(ts, c)
  {
    hide BodyCost, TokenBits, Encodes;
    assert HasCode(c.lit, END_BLOCK);
    var n := |ts|;
    if n == 0 {
      CostEmpty(c);
      assert |SymbolBits(c.lit, END_BLOCK)| == c.lit[END_BLOCK];
    } else {
      var rest, t := ts[..n - 1], ts[n - 1];
      assert ts == rest + [t];
      forall i | 0 <= i < |rest|
        ensures Encodes(c, rest[i])
      {
        assert rest[i] == ts[i];
      }
      BodyLength(c, rest);
      CostToken(rest, t, c);
      TokensBitsSnocLength(c, rest, t);
    }
  }

  lemma {:induction false} TokensBitsSnocLength(c: Codes, ts: seq<Token>, t: Token)
    requires ValidToken(t) && AllValid(ts)
    ensures AllValid(ts + [t]) && |TokensBits(c, ts + [t])| == |TokensBits(c, ts)| + |TokenBits(c, t)|
  {
    hide TokenBits;
    if |ts| == 0 {
      assert ts + [t] == [t] && [t][1..] == [];
    } else {
      TokensBitsSnocLength(c, ts[1..], t);
      assert (ts + [t])[1..] == ts[1..] + [t];
    }
  }

  // ---- the header

  /** The frequencies of code length symbols. */
  function UseTable(rs: seq<RunSym>): (f: seq<nat>)
    ensures |f| == BL_CODES && forall n: nat | n < BL_CODES :: f[n] == Uses(rs, n)
  {
    seq(BL_CODES, n requires 0 <= n < BL_CODES => Uses(rs, n))
  }

  lemma BlX(n: nat)
    requires n < BL_CODES
    ensures XBits(BlDesc(), n) == if n < 16 then 0 else RepeatBits(n)
  {
  }

  /** The code lengths take exactly the bits that the frequencies of their symbols give. */
  lemma {:induction false} SymsLength(bl: seq<nat>, rs: seq<RunSym>)
    requires |bl| == BL_CODES && Coded(bl, rs)
    ensures |SymsBits(bl, rs)| == TreeCost(BlDesc(), UseTable(rs), bl, BL_CODES)
  {
    hide TreeCost, BlDesc, RepeatBits;
    if |rs| == 0 {
      assert forall n: nat :: Uses(rs, n) == 0;
      CostNone(BlDesc(), UseTable(rs), bl, BL_CODES);
    } else {
      var n := rs[0].sym;
      assert n < |bl|;
      SymsLength(bl, rs[1..]);
      UsesFirst(rs);
      CostBump(BlDesc(), UseTable(rs[1..]), UseTable(rs), bl, n, BL_CODES);
      BlX(n);
    }
  }

  lemma UsesFirst(rs: seq<RunSym>)
    requires |rs| > 0
    ensures forall n: nat :: Uses(rs, n) == Uses(rs[1..], n) + (if rs[0].sym == n then 1 else 0)
  {
  }

  lemma {:induction false} LensLength(bl: seq<nat>, from: nat, to: nat)
    requires |bl| == 19 && from <= to <= 19
    ensures |LensBits(bl, from, to)| == 3 * (to - from)
    decreases 19 - from
  {
    assert |ORDER| == 19;
    if from < to {
      LensLength(bl, from + 1, to);
    }
  }

  lemma HeaderLength(t: Trees)
    requires GoodTrees(t)
    ensures |HeaderBits(t)| == 14 + 3 * t.blcodes
            + TreeCost(BlDesc(), UseTable(AllSyms(t.codes.lit) + AllSyms(t.codes.dist)), t.bl, BL_CODES)
  {
    hide Runs.GoodCodes, InfTrees.Acceptable, AllSyms, SymsBits, TreeCost, LensBits, BlDesc;
    var x, y := AllSyms(t.codes.lit), AllSyms(t.codes.dist);
    SymsBitsAppend(t.bl, x, y);
    CodedBoth(t.bl, x, y);
    SymsLength(t.bl, x + y);
    LensLength(t.bl, 0, t.blcodes);
  }
}
