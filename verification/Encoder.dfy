/** The encoder state of trees.c: tallying tokens and writing blocks in the cheapest of the three forms. */
module Encoder {
  import opened Bits
  import opened Canonical
  import opened InfTrees
  import opened StaticTables
  import opened Tokens
  import opened Traces
  import opened Machine
  import opened Huffman
  import opened GenBitlen
  import opened BuildTree
  import opened BitWriter
  import opened RunLength
  import opened Blocks
  import opened DynamicTrees
  import opened Streams
  import opened Costs
  import opened BlTree
  import opened BlockWriter
  import Runs

  // ---- from frequencies to codes

  /** What build_tree makes of the frequencies of a block's literal/length or distance symbols. */
  ghost predicate MadeTree(d: Desc, f0: seq<nat>, fc: seq<nat>, dl: seq<nat>, maxCode: nat) {
    && maxCode < d.elems <= |dl| && |dl| <= |fc| && dl[maxCode] != 0 && BuiltLengths(d, f0, dl[..maxCode + 1])
    && (forall n: nat | maxCode < n < d.elems :: dl[n] == 0)
    && (forall n: nat | n <= maxCode && dl[n] != 0 :: fc[n] == Canonical.Code(dl[..maxCode + 1], n))
  }

  /** The codes of both trees encode the tokens they were made for. */
  lemma MadeEncodes(ts: seq<Token>, lf: seq<nat>, df: seq<nat>, lit: seq<nat>, dist: seq<nat>)
    requires AllValid(ts) && LitFreqs(lf, ts) && DistFreqs(df, ts)
    requires BuiltLengths(LDesc(), lf, lit) && BuiltLengths(DDesc(), df, dist)
    ensures EncodesAll(Codes(lit, dist), ts)
  {
    hide Kraft, FixedCodes, LengthSym, DistSym;
    forall n: nat | n < L_CODES && LitFreq(ts, n) != 0
      ensures HasCode(lit, n)
    {
      MadeHas(LDesc(), lf, lit, n);
    }
    forall n: nat | n < D_CODES && DistFreq(ts, n) != 0
      ensures HasCode(dist, n)
    {
      MadeHas(DDesc(), df, dist, n);
    }
    EndUsed(ts);
    forall i | 0 <= i < |ts|
      ensures Encodes(Codes(lit, dist), ts[i])
    {
      TokenUsed(ts, i);
    }
  }

  lemma MadeHas(d: Desc, f: seq<nat>, lens: seq<nat>, n: nat)
    requires BuiltLengths(d, f, lens) && n < d.elems && f[n] != 0
    ensures HasCode(lens, n)
  {
  }

  lemma {:induction false} EndUsed(ts: seq<Token>)
    requires AllValid(ts)
    ensures LitFreq(ts, END_BLOCK) >= 1
  {
    if |ts| > 0 {
      EndUsed(ts[..|ts| - 1]);
    }
  }

  lemma {:induction false} TokenUsed(ts: seq<Token>, i: nat)
    requires AllValid(ts) && i < |ts|
    ensures forall n: nat | LitUse(ts[i], n) > 0 :: LitFreq(ts, n) > 0
    ensures forall n: nat | DistUse(ts[i], n) > 0 :: DistFreq(ts, n) > 0
  {
    if i < |ts| - 1 {
      TokenUsed(ts[..|ts| - 1], i);
    }
  }

  lemma {:induction false} LitSum(ts: seq<Token>)
    requires AllValid(ts)
    ensures FreqSum(LitCounts(ts), L_CODES) <= |ts| + 1 && FreqSum(DistCounts(ts), D_CODES) <= |ts|
  {
    hide LengthSym, DistSym;
    if |ts| == 0 {
      var zeros: seq<nat> := seq(L_CODES, _ => 0);
      FreqSumZero(zeros, L_CODES);
      FreqSumBump(zeros, LitCounts(ts), END_BLOCK, L_CODES);
      FreqSumZero(DistCounts(ts), D_CODES);
    } else {
      var rest, t := ts[..|ts| - 1], ts[|ts| - 1];
      LitSum(rest);
      match t {
        case Literal(b) =>
          FreqSumBump(LitCounts(rest), LitCounts(ts), b, L_CODES);
          FreqSumAgree(DistCounts(rest), DistCounts(ts), D_CODES);
        case Match(length, dist) =>
          FreqSumBump(LitCounts(rest), LitCounts(ts), LengthSym(length), L_CODES);
          FreqSumBump(DistCounts(rest), DistCounts(ts), DistSym(dist), D_CODES);
      }
    }
  }

  lemma FreqsFit(ts: seq<Token>, lf: seq<nat>, df: seq<nat>)
    requires AllValid(ts) && LitFreqs(lf, ts) && DistFreqs(df, ts) && |ts| <= 32768
    ensures FreqSum(lf, L_CODES) <= 65535 && FreqSum(df, D_CODES) <= 65535
  {
    hide LitFreq, DistFreq, FreqSum;
    LitSum(ts);
    FreqSumAgree(lf, LitCounts(ts), L_CODES);
    FreqSumAgree(df, DistCounts(ts), D_CODES);
  }

  // ---- the three trees of a block

  lemma MadeCodes(d: Desc, f0: seq<nat>, fc: seq<nat>, dl: seq<nat>, dl': seq<nat>, maxCode: nat)
    requires MadeTree(d, f0, fc, dl, maxCode) && maxCode + 1 < |dl| && dl' == dl[maxCode + 1 := GUARD]
    ensures HasCodes(fc, dl', dl[..maxCode + 1])
  {
    hide Canonical.Code, BuiltLengths;
  }

  lemma MadeGood(lf: seq<nat>, df: seq<nat>, lit: seq<nat>, dist: seq<nat>, bl: seq<nat>, max: nat)
    requires BuiltLengths(LDesc(), lf, lit) && BuiltLengths(DDesc(), df, dist) && |lit| >= 257
    requires GoodBl(bl, lit, dist) && 3 <= max < 19
    requires forall r: nat | max < r < 19 :: ORDER[r] < 19 && bl[ORDER[r]] == 0
    ensures GoodTrees(Trees(Codes(lit, dist), bl, max + 1))
  {
    hide Kraft, FixedCodes, Coded, AllSyms, ORDER;
    OrderAt(0);
    assert ValidLens(bl);
    assert Acceptable(LENS, lit) && Acceptable(LENS, dist) && Acceptable(CODES, bl);
  }

  lemma MadeTight(lit: seq<nat>, dist: seq<nat>, bl: seq<nat>, max: nat)
    requires |lit| > 0 && lit[|lit| - 1] != 0 && |dist| > 0 && dist[|dist| - 1] != 0
    requires max < |ORDER| && ORDER[max] < |bl| && bl[ORDER[max]] != 0
    ensures Tight(Trees(Codes(lit, dist), bl, max + 1))
  {
    hide ORDER;
  }

  /** The sums that build_tree adds up over both trees are the length of the body of the block. */
  lemma MadeCost(ts: seq<Token>, lf: seq<nat>, df: seq<nat>, ldl: seq<nat>, ddl: seq<nat>, lMax: nat, dMax: nat)
    requires AllValid(ts) && LitFreqs(lf, ts) && DistFreqs(df, ts) && lMax < |ldl| && dMax < |ddl|
    requires BuiltLengths(LDesc(), lf, ldl[..lMax + 1]) && BuiltLengths(DDesc(), df, ddl[..dMax + 1])
    ensures EncodesAll(Codes(ldl[..lMax + 1], ddl[..dMax + 1]), ts)
    ensures TreeCost(LDesc(), lf, ldl, lMax + 1) + TreeCost(DDesc(), df, ddl, dMax + 1)
         == |BodyBits(Codes(ldl[..lMax + 1], ddl[..dMax + 1]), ts)|
    ensures EncodesAll(FixedCodes(), ts)
    ensures TreeCost(LDesc(), lf, FixedCodes().lit, lMax + 1) + TreeCost(DDesc(), df, FixedCodes().dist, dMax + 1)
         == |BodyBits(FixedCodes(), ts)|
  {
    hide Kraft, FixedCodes, TreeCost, LitFreq, DistFreq, BodyBits, EncodesAll, XBits;
    var lit, dist, fixed := ldl[..lMax + 1], ddl[..dMax + 1], FixedCodes();
    assert LDesc().elems == L_CODES && DDesc().elems == D_CODES;
    MadeEncodes(ts, lf, df, lit, dist);
    BodyLength(Codes(lit, dist), ts);
    FixedEncodes(ts);
    BodyLength(fixed, ts);
    CutTo(LDesc(), lf, LitCounts(ts), ldl, lit, lMax + 1, L_CODES);
    CutTo(DDesc(), df, DistCounts(ts), ddl, dist, dMax + 1, D_CODES);
    CutTo(LDesc(), lf, LitCounts(ts), fixed.lit, fixed.lit, lMax + 1, L_CODES);
    CutTo(DDesc(), df, DistCounts(ts), fixed.dist, fixed.dist, dMax + 1, D_CODES);
  }

  lemma CutTo(d: Desc, f: seq<nat>, g: seq<nat>, l: seq<nat>, m: seq<nat>, j: nat, k: nat)
    requires j <= k <= |f| && k <= |g| && (forall x: nat | x < k :: f[x] == g[x])
    requires (forall x: nat | x < j :: LenAt(l, x) == LenAt(m, x)) && forall x: nat | j <= x < k :: f[x] == 0
    ensures TreeCost(d, f, l, j) == TreeCost(d, g, m, k)
  {
    hide TreeCost;
    CostCut(d, f, l, m, j, k);
    CostSame(d, f, g, m, k);
  }

  lemma FixedEncodes(ts: seq<Token>)
    requires AllValid(ts)
    ensures EncodesAll(FixedCodes(), ts)
  {
    hide LengthSym, DistSym;
    assert forall n: nat | n < 286 :: 7 <= FixedCodes().lit[n] <= 9;
    assert forall n: nat | n < 30 :: FixedCodes().dist[n] == 5;
  }

  lemma {:induction false} FreqGrows(ts: seq<Token>, t: Token, f: seq<nat>, g: seq<nat>, n: nat, df: seq<nat>, dg: seq<nat>, m: nat)
    requires AllValid(ts) && ValidToken(t) && LitFreqs(f, ts) && DistFreqs(df, ts) && n < |f| && (t.Match? ==> m < |df|)
    requires g == f[n := f[n] + 1] && dg == (if t.Match? then df[m := df[m] + 1] else df)
    requires if t.Literal? then n == t.b else n == LengthSym(t.length) && m == DistSym(t.dist)
    ensures AllValid(ts + [t]) && LitFreqs(g, ts + [t]) && DistFreqs(dg, ts + [t])
  {
    hide LengthSym, DistSym, LitFreq, DistFreq;
    forall x: nat {
      LitFreqNext(ts, t, x);
    }
  }

  lemma FreqStart(f: seq<nat>, df: seq<nat>)
    requires |f| >= L_CODES && |df| >= D_CODES
    requires forall n: nat | n < L_CODES :: f[n] == if n == END_BLOCK then 1 else 0
    requires forall n: nat | n < D_CODES :: df[n] == 0
    ensures AllValid([]) && LitFreqs(f, []) && DistFreqs(df, [])
  {
  }

  /** No two of these arrays are the same. */
  ghost predicate Apart(heap: array<nat>, depth: array<nat>, blCount: array<nat>, lFc: array<nat>, lDl: array<nat>, dFc: array<nat>,
                        dDl: array<nat>, blFc: array<nat>, blDl: array<nat>, dBuf: array<nat>, lBuf: array<nat>)
  {
    && heap !in {depth, blCount, lFc, lDl, dFc, dDl, blFc, blDl, dBuf, lBuf}
    && depth !in {blCount, lFc, lDl, dFc, dDl, blFc, blDl, dBuf, lBuf}
    && blCount !in {lFc, lDl, dFc, dDl, blFc, blDl, dBuf, lBuf}
    && lFc !in {lDl, dFc, dDl, blFc, blDl, dBuf, lBuf}
    && lDl !in {dFc, dDl, blFc, blDl, dBuf, lBuf}
    && dFc !in {dDl, blFc, blDl, dBuf, lBuf}
    && dDl !in {blFc, blDl, dBuf, lBuf}
    && blFc !in {blDl, dBuf, lBuf}
    && blDl !in {dBuf, lBuf} && dBuf != lBuf
  }

  method NewArrays(litBufsize: nat)
    returns (heap: array<nat>, depth: array<nat>, blCount: array<nat>, lFc: array<nat>, lDl: array<nat>, dFc: array<nat>,
             dDl: array<nat>, blFc: array<nat>, blDl: array<nat>, dBuf: array<nat>, lBuf: array<nat>)
    ensures Apart(heap, depth, blCount, lFc, lDl, dFc, dDl, blFc, blDl, dBuf, lBuf)
    ensures fresh({heap, depth, blCount, lFc, lDl, dFc, dDl, blFc, blDl, dBuf, lBuf})
    ensures heap.Length == HEAP_SIZE && depth.Length == HEAP_SIZE && blCount.Length == MAX_BITS + 1
    ensures lFc.Length == HEAP_SIZE && lDl.Length == HEAP_SIZE && dFc.Length == 61 && dDl.Length == 61
    ensures blFc.Length == 39 && blDl.Length == 39 && dBuf.Length == litBufsize && lBuf.Length == litBufsize
  {
    heap, depth, blCount := new nat[HEAP_SIZE], new nat[HEAP_SIZE], new nat[MAX_BITS + 1];
    lFc, lDl := new nat[HEAP_SIZE], new nat[HEAP_SIZE];
    dFc, dDl := new nat[61], new nat[61];
    blFc, blDl := new nat[39], new nat[39];
    dBuf, lBuf := new nat[litBufsize], new nat[litBufsize];
  }

  method NewState(litBufsize: nat)
    returns (heap: array<nat>, depth: array<nat>, blCount: array<nat>, lFc: array<nat>, lDl: array<nat>, dFc: array<nat>,
             dDl: array<nat>, blFc: array<nat>, blDl: array<nat>, dBuf: array<nat>, lBuf: array<nat>,
             slf: array<nat>, sll: array<nat>, sdf: array<nat>, sdl: array<nat>)
    ensures Apart(heap, depth, blCount, lFc, lDl, dFc, dDl, blFc, blDl, dBuf, lBuf)
    ensures fresh({heap, depth, blCount, lFc, lDl, dFc, dDl, blFc, blDl, dBuf, lBuf}) && fresh({slf, sll, sdf, sdl})
    ensures {heap, depth, blCount, lFc, lDl, dFc, dDl, blFc, blDl, dBuf, lBuf} !! {slf, sll, sdf, sdl}
    ensures heap.Length == HEAP_SIZE && depth.Length == HEAP_SIZE && blCount.Length == MAX_BITS + 1
    ensures lFc.Length == HEAP_SIZE && lDl.Length == HEAP_SIZE && dFc.Length == 61 && dDl.Length == 61
    ensures blFc.Length == 39 && blDl.Length == 39 && dBuf.Length == litBufsize && lBuf.Length == litBufsize
    ensures sll.Length == 288 && sdl.Length == 30
    ensures HasCodes(slf[..], sll[..], FixedCodes().lit) && HasCodes(sdf[..], sdl[..], FixedCodes().dist)
  {
    hide Apart, HasCodes, FixedCodes;
    heap, depth, blCount, lFc, lDl, dFc, dDl, blFc, blDl, dBuf, lBuf := NewArrays(litBufsize);
    slf, sll, sdf, sdl := StaticTrees();
  }

  class TreeCoder {
    const t: Tables
    const level: nat
    const fixedOnly: bool
    const litBufsize: nat
    const heap: array<nat>
    const depth: array<nat>
    const blCount: array<nat>
    const lFc: array<nat>
    const lDl: array<nat>
    const dFc: array<nat>
    const dDl: array<nat>
    const blFc: array<nat>
    const blDl: array<nat>
    const dBuf: array<nat>
    const lBuf: array<nat>
    const staticLFc: array<nat>
    const staticLDl: array<nat>
    const staticDFc: array<nat>
    const staticDDl: array<nat>
    const b: BitBuffer
    var lastLit: nat
    var matches: nat
    var optLen: int
    var staticLen: int
    var lastEobLen: nat

    /** The arrays that the encoder changes. */
    ghost function Work(): set<array<nat>> {
      {heap, depth, blCount, lFc, lDl, dFc, dDl, blFc, blDl, dBuf, lBuf}
    }

    ghost function Static(): set<array<nat>> { {staticLFc, staticLDl, staticDFc, staticDDl} }

    ghost predicate Separate() {
      Apart(heap, depth, blCount, lFc, lDl, dFc, dDl, blFc, blDl, dBuf, lBuf) && Work() !! Static()
    }

    ghost predicate Sizes() {
      && heap.Length == HEAP_SIZE && depth.Length == HEAP_SIZE && blCount.Length == MAX_BITS + 1
      && lFc.Length == HEAP_SIZE && lDl.Length == HEAP_SIZE && dFc.Length == 61 && dDl.Length == 61
      && blFc.Length == 39 && blDl.Length == 39
      && 1 <= litBufsize <= 32768 && dBuf.Length == litBufsize && lBuf.Length == litBufsize
      && staticLDl.Length == 288 && staticDDl.Length == 30
    }

    ghost predicate GoodStatic()
      reads Static()
    {
      GoodTables(t) && HasCodes(staticLFc[..], staticLDl[..], FixedCodes().lit) && HasCodes(staticDFc[..], staticDDl[..], FixedCodes().dist)
    }

    /** The tokens tallied since the last block. */
    ghost function Tallies(): seq<Token>
      requires Sizes() && lastLit <= litBufsize
      reads `lastLit, dBuf, lBuf
    {
      Tallied(dBuf[..lastLit], lBuf[..lastLit])
    }

    ghost predicate Valid()
      reads `lastLit, `optLen, `staticLen, b, Work(), Static()
      ensures Valid() ==> Sizes() && lastLit < litBufsize && b.Valid()
    {
      && Separate() && Sizes() && GoodStatic() && b.Valid()
      && lastLit < litBufsize && (forall i | 0 <= i < lastLit :: lBuf[i] < 256)
      && AllValid(Tallies()) && LitFreqs(lFc[..], Tallies()) && DistFreqs(dFc[..], Tallies())
      && (forall n: nat | n < BL_CODES :: blFc[n] == 0) && optLen == 0 && staticLen == 0
    }

    /** init_block: all frequencies are zero, except for one end-of-block symbol. */
    method InitBlock()
      requires Separate() && Sizes() && GoodStatic() && b.Valid()
      modifies this`lastLit, this`matches, this`optLen, this`staticLen, lFc, dFc, blFc
      ensures Valid() && Tallies() == [] && lastLit == 0 && matches == 0
    {
      hide GoodStatic;
      var n: nat := 0;
      while n < L_CODES
        invariant n <= L_CODES && GoodStatic()
        invariant forall k: nat | k < n :: lFc[k] == 0
      {
        lFc[n] := 0;
        n := n + 1;
      }
      n := 0;
      while n < D_CODES
        invariant n <= D_CODES && GoodStatic()
        invariant forall k: nat | k < L_CODES :: lFc[k] == 0
        invariant forall k: nat | k < n :: dFc[k] == 0
      {
        dFc[n] := 0;
        n := n + 1;
      }
      n := 0;
      while n < BL_CODES
        invariant n <= BL_CODES && GoodStatic()
        invariant forall k: nat | k < L_CODES :: lFc[k] == 0
        invariant forall k: nat | k < D_CODES :: dFc[k] == 0
        invariant forall k: nat | k < n :: blFc[k] == 0
      {
        blFc[n] := 0;
        n := n + 1;
      }
      lFc[END_BLOCK] := 1;
      optLen, staticLen := 0, 0;
      lastLit, matches := 0, 0;
      FreqStart(lFc[..], dFc[..]);
    }

    /** _tr_init. */
    constructor (level: nat, fixedOnly: bool, litBufsize: nat)
      requires 1 <= litBufsize <= 32768
      ensures Valid() && Tallies() == [] && b.Sent() == [] && lastLit == 0
      ensures this.level == level && this.fixedOnly == fixedOnly && this.litBufsize == litBufsize
      ensures fresh(b) && fresh(Work()) && fresh(Static())
    {
      hide Apart, GoodTables, HasCodes, FixedCodes, LitFreqs, DistFreqs, AllValid, Tallied, BitBuffer.Valid, BitBuffer.Sent;
      this.level, this.fixedOnly, this.litBufsize := level, fixedOnly, litBufsize;
      var a1, a2, a3, a4, a5, a6, a7, a8, a9, a10, a11, lf, ll, df, dd := NewState(litBufsize);
      heap, depth, blCount, lFc, lDl, dFc, dDl, blFc, blDl, dBuf, lBuf := a1, a2, a3, a4, a5, a6, a7, a8, a9, a10, a11;
      var tables := MakeTables();
      t, staticLFc, staticLDl, staticDFc, staticDDl := tables, lf, ll, df, dd;
      b := new BitBuffer();
      lastEobLen := 8;
      new;
      assert Separate() && Sizes() && GoodStatic();
      assert fresh(Work()) && fresh(Static());
      assert lFc in Work() && dFc in Work() && blFc in Work();
      hide Separate, Sizes, GoodStatic, Work, Static, Valid, Tallies;
      assert b.Sent() == [];
      label Before:
      InitBlock();
      assert b.Sent() == old@Before(b.Sent());
    }

    /** _tr_tally: adds a literal, or a match of length lc + 3; says whether the block has to be flushed. */
    method TrTally(dist: nat, lc: nat) returns (full: bool)
      requires Valid() && lastLit + 1 < litBufsize && lc < 256 && dist <= MAX_WINDOW
      modifies this`lastLit, this`matches, dBuf, lBuf, lFc, dFc
      ensures Valid() && Tallies() == old(Tallies()) + [TokenOf(dist, lc)]
      ensures full <==> lastLit == litBufsize - 1
    {
      hide LitFreqs, DistFreqs, LengthSym, DistSym, GoodTables, AllValid, BitBuffer.Valid;
      assert GoodTables(t);
      ghost var ts, lf, df, token := Tallies(), lFc[..], dFc[..], TokenOf(dist, lc);
      GoodTablesAt(t);
      dBuf[lastLit] := dist;
      lBuf[lastLit] := lc;
      lastLit := lastLit + 1;
      assert Tallies() == ts + [token];
      if dist == 0 {
        lFc[lc] := lFc[lc] + 1;
        assert lFc[..] == lf[lc := lf[lc] + 1];
        FreqGrows(ts, token, lf, lFc[..], lc, df, dFc[..], 0);
      } else {
        matches := matches + 1;
        var d := dist - 1;
        var l := t.lengthCode[lc] + 256 + 1;
        var c := DCode(t.distCode, d);
        TokenSyms(t, dist, lc);
        lFc[l] := lFc[l] + 1;
        dFc[c] := dFc[c] + 1;
        assert lFc[..] == lf[l := lf[l] + 1] && dFc[..] == df[c := df[c] + 1];
        FreqGrows(ts, token, lf, lFc[..], l, df, dFc[..], c);
      }
      full := lastLit == litBufsize - 1;
    }

    /** Both trees. optLen and staticLen become the sizes of the tokens with the new codes and with the fixed ones. */
    method MakeTrees(ghost ts: seq<Token>, ghost lf: seq<nat>, ghost df: seq<nat>) returns (lMax: nat, dMax: nat)
      requires Valid() && ts == Tallies() && lf == lFc[..] && df == dFc[..] && LitFreqs(lf, ts) && DistFreqs(df, ts)
      modifies this`optLen, this`staticLen, heap, depth, blCount, lFc, lDl, dFc, dDl
      ensures 1 <= lMax && MadeTree(LDesc(), lf, lFc[..], lDl[..], lMax) && MadeTree(DDesc(), df, dFc[..], dDl[..], dMax)
      ensures optLen == old(optLen) + TreeCost(LDesc(), lf, lDl[..], lMax + 1) + TreeCost(DDesc(), df, dDl[..], dMax + 1)
      ensures staticLen == old(staticLen) + TreeCost(LDesc(), lf, FixedCodes().lit, lMax + 1) + TreeCost(DDesc(), df, FixedCodes().dist, dMax + 1)
    {
      hide GoodStatic, LitFreqs, DistFreqs, BuiltLengths, TreeCost, Best, GreedyTree, Clipped, Over, LDesc, DDesc, FixedCodes,
        FreqSum, GoodDesc, Canonical.Code, BitBuffer.Valid, AllValid;
      GoodDescs();
      DescSizes();
      FreqsFit(ts, lf, df);
      ghost var tree, depths;
      lMax, optLen, staticLen, tree, depths := MakeTree(heap, depth, lFc, lDl, blCount, LDesc(), optLen, staticLen);
      ghost var lfc, ldl := lFc[..], lDl[..];
      assert MadeTree(LDesc(), lf, lfc, ldl, lMax);
      dMax, optLen, staticLen, tree, depths := MakeTree(heap, depth, dFc, dDl, blCount, DDesc(), optLen, staticLen);
      assert MadeTree(DDesc(), df, dFc[..], dDl[..], dMax);
    }

    /** The trees of _tr_flush_block: both trees, and the code length tree for their lengths. optLen and staticLen become
        the exact lengths of the block after its three type bits, with the new trees and with the static trees. */
    method BuildTrees(ghost ts: seq<Token>) returns (lMax: nat, dMax: nat, maxBlindex: nat, ghost trees: Trees)
      requires Valid() && ts == Tallies()
      modifies this`optLen, this`staticLen, heap, depth, blCount, lFc, lDl, dFc, dDl, blFc, blDl
      ensures GoodTrees(trees) && EncodesAll(trees.codes, ts) && EncodesAll(FixedCodes(), ts)
      ensures optLen == |HeaderBits(trees)| + |BodyBits(trees.codes, ts)| && staticLen == |BodyBits(FixedCodes(), ts)|
      ensures lMax + 1 == |trees.codes.lit| && lMax + 1 < lDl.Length && lDl[..lMax + 1] == trees.codes.lit && lDl[lMax + 1] == GUARD
      ensures dMax + 1 == |trees.codes.dist| && dMax + 1 < dDl.Length && dDl[..dMax + 1] == trees.codes.dist && dDl[dMax + 1] == GUARD
      ensures maxBlindex + 1 == trees.blcodes && blDl[..19] == trees.bl
      ensures HasCodes(lFc[..], lDl[..], trees.codes.lit) && HasCodes(dFc[..], dDl[..], trees.codes.dist)
      ensures HasCodes(blFc[..], blDl[..], trees.bl) && Tight(trees)
    {
      hide GoodStatic, LitFreqs, DistFreqs, BuiltLengths, TreeCost, LDesc, DDesc, BlDesc, FixedCodes,
        FreqSum, GoodDesc, GoodTrees, GoodBl, HasCodes, EncodesAll, BodyBits, HeaderBits, Canonical.Code, ORDER, BitBuffer.Valid, AllValid;
      GoodDescs();
      DescSizes();
      ghost var lf, df := lFc[..], dFc[..];
      assert AllValid(ts) && LitFreqs(lf, ts) && DistFreqs(df, ts);
      lMax, dMax := MakeTrees(ts, lf, df);
      ghost var lfc, ldl, dfc, ddl := lFc[..], lDl[..], dFc[..], dDl[..];
      MadeCost(ts, lf, df, ldl, ddl, lMax, dMax);
      MadeEnd(ts, lf, ldl, lMax);
      MadeValid(LDesc(), lf, ldl[..lMax + 1]);
      MadeValid(DDesc(), df, ddl[..dMax + 1]);
      maxBlindex, optLen := BuildBlTree(heap, depth, blCount, lDl, lMax, dDl, dMax, blFc, blDl, optLen);
      ghost var lit, dist, bl := ldl[..lMax + 1], ddl[..dMax + 1], blDl[..19];
      trees := Trees(Codes(lit, dist), bl, maxBlindex + 1);
      assert lDl[..] == ldl[lMax + 1 := GUARD] && dDl[..] == ddl[dMax + 1 := GUARD];
      MadeCodes(LDesc(), lf, lfc, ldl, lDl[..], lMax);
      MadeCodes(DDesc(), df, dfc, ddl, dDl[..], dMax);
      assert forall r: nat | maxBlindex < r < 19 :: ORDER[r] < 19 && bl[ORDER[r]] == 0 by { OrderAt(0); }
      MadeGood(lf, df, lit, dist, bl, maxBlindex);
      MadeTight(lit, dist, bl, maxBlindex);
      HeaderLength(trees);
    }

    /** Everything that send_all_trees and compress_block need of the trees of a block. */
    ghost predicate TreesReady(lMax: nat, dMax: nat, maxBlindex: nat, trees: Trees, ts: seq<Token>)
      requires Sizes()
      reads Work()
    {
      && GoodTrees(trees) && EncodesAll(trees.codes, ts)
      && lMax + 1 == |trees.codes.lit| && lMax + 1 < lDl.Length && lDl[..lMax + 1] == trees.codes.lit && lDl[lMax + 1] == GUARD
      && dMax + 1 == |trees.codes.dist| && dMax + 1 < dDl.Length && dDl[..dMax + 1] == trees.codes.dist && dDl[dMax + 1] == GUARD
      && maxBlindex + 1 == trees.blcodes && blDl[..19] == trees.bl
      && HasCodes(lFc[..], lDl[..], trees.codes.lit) && HasCodes(dFc[..], dDl[..], trees.codes.dist)
      && HasCodes(blFc[..], blDl[..], trees.bl) && Tight(trees)
    }

    method SendBlock(buf: Option<seq<byte>>, storedLen: nat, eof: bool, optLenb: int, staticLenb: int, lMax: nat, dMax: nat, maxBlindex: nat,
                     ghost trees: Trees, ghost ts: seq<Token>, ghost h: seq<byte>)
      requires Sizes() && GoodStatic() && b.Valid() && lastLit < litBufsize && ts == Tallies() && forall i | 0 <= i < lastLit :: lBuf[i] < 256
      requires ValidTokens(h, ts) && EncodesAll(FixedCodes(), ts) && (buf.Some? ==> |buf.value| == storedLen < 65536)
      requires fixedOnly || staticLenb == optLenb || TreesReady(lMax, dMax, maxBlindex, trees, ts)
      modifies this`lastEobLen, b
      ensures |b.pending| >= old(|b.pending|)
      ensures GoodBlock(h, Choice(fixedOnly, buf, storedLen, optLenb, staticLenb, trees, ts)) && b.Valid()
      ensures b.Sent() == old(b.Sent()) + BlockBits(h, Choice(fixedOnly, buf, storedLen, optLenb, staticLenb, trees, ts), eof, |old(b.Sent())|)
      ensures lastEobLen == EobLength(Choice(fixedOnly, buf, storedLen, optLenb, staticLenb, trees, ts))
    {
      hide FixedCodes, GoodTrees, HasCodes, EncodesAll, BodyBits, HeaderBits, ORDER, BitBuffer.Valid, BitBuffer.Sent, ValidTokens, Expand,
        Tallied, ToBits, GoodTables, StoredBits;
      ghost var sent := b.Sent();
      Pow2Values();
      FixedEob();
      if storedLen + 4 <= optLenb && buf.Some? {
        TrStoredBlock(b, buf.value, eof);
        lastEobLen := 8;
      } else if fixedOnly || staticLenb == optLenb {
        b.SendBits(2 + (if eof then 1 else 0), 3);
        lastEobLen := CompressBlock(b, t, dBuf, lBuf, lastLit, staticLFc, staticLDl, staticDFc, staticDDl, FixedCodes());
        Associative(sent, TypeBits(1, eof), BodyBits(FixedCodes(), ts));
      } else {
        b.SendBits(4 + (if eof then 1 else 0), 3);
        SendAllTrees(b, lMax + 1, dMax + 1, maxBlindex + 1, lDl, dDl, blFc, blDl, trees);
        lastEobLen := CompressBlock(b, t, dBuf, lBuf, lastLit, lFc, lDl, dFc, dDl, trees.codes);
        DynamicJoin(sent, TypeBits(2, eof), HeaderBits(trees), BodyBits(trees.codes, ts));
      }
    }

    /** The sizes in bytes that _tr_flush_block compares: of the better of the two coded forms, and with the static trees. */
    method BlockSizes(storedLen: nat, ghost ts: seq<Token>)
      returns (optLenb: int, staticLenb: int, lMax: nat, dMax: nat, maxBlindex: nat, ghost trees: Trees)
      requires Valid() && ts == Tallies()
      modifies this`optLen, this`staticLen, Work()
      ensures dBuf[..] == old(dBuf[..]) && lBuf[..] == old(lBuf[..]) && EncodesAll(FixedCodes(), ts)
      ensures level == 0 ==> optLenb == staticLenb
      ensures level > 0 ==> TreesReady(lMax, dMax, maxBlindex, trees, ts) && SizesOf(optLenb, staticLenb, trees, ts) && Tight(trees)
    {
      hide GoodStatic, LitFreqs, DistFreqs, FixedCodes, GoodTrees, HasCodes, EncodesAll, BodyBits, HeaderBits, BitBuffer.Valid, Tallied, GoodTables;
      assert AllValid(ts);
      FixedEncodes(ts);
      optLenb, staticLenb, lMax, dMax, maxBlindex := storedLen + 5, storedLen + 5, 0, 0, 0;
      trees := Trees(Codes([], []), [], 0);
      if level > 0 {
        lMax, dMax, maxBlindex, trees := BuildTrees(ts);
        optLenb := (optLen + 3 + 7) / 8;
        staticLenb := (staticLen + 3 + 7) / 8;
        if staticLenb <= optLenb {
          optLenb := staticLenb;
        }
      }
    }

    /** _tr_flush_block: writes the tallied tokens, or the bytes they stand for if these are at hand, as one block. */
    method TrFlushBlock(buf: Option<seq<byte>>, storedLen: nat, eof: bool, ghost h: seq<byte>) returns (ghost blk: Block)
      requires Valid() && ValidTokens(h, Tallies())
      requires buf.Some? ==> |buf.value| == storedLen < 65536 && (level > 0 ==> h + buf.value == Expand(h, Tallies()))
      modifies this`lastLit, this`matches, this`optLen, this`staticLen, this`lastEobLen, b, Work()
      ensures |b.pending| >= old(|b.pending|)
      ensures Valid() && Tallies() == [] && lastLit == 0 && GoodBlock(h, blk)
      ensures Stands(blk, buf, old(Tallies()), level) && (level > 0 ==> BlockOut(h, blk) == Expand(h, old(Tallies())))
      ensures b.Sent() == Ended(old(b.Sent()) + BlockBits(h, blk, eof, |old(b.Sent())|), eof) && (eof ==> b.biValid == 0)
      ensures level > 0 ==> Cheapest(h, blk, buf, old(Tallies()), fixedOnly)
      ensures lastEobLen == EobLength(blk) && (blk.DynamicBlock? && level > 0 ==> Tight(blk.trees))
    {
      hide GoodStatic, LitFreqs, DistFreqs, AllValid, Tallied, BitBuffer.Valid, BitBuffer.Sent, BlockBits, GoodBlock, BlockOut, Expand,
        ValidTokens, Stands, Cheapest, Choice, TreesReady, Tight, SizesOf, EncodesAll, FixedCodes, Apart, Padded, Zeros;
      ghost var ts, sent := Tallies(), b.Sent();
      var optLenb: int, staticLenb: int, lMax: nat, dMax: nat, maxBlindex: nat;
      ghost var trees: Trees;
      optLenb, staticLenb, lMax, dMax, maxBlindex, trees := BlockSizes(storedLen, ts);
      assert lBuf[..lastLit] == lBuf[..][..lastLit] && dBuf[..lastLit] == dBuf[..][..lastLit];
      assert forall i | 0 <= i < lastLit :: lBuf[..][i] < 256;
      SendBlock(buf, storedLen, eof, optLenb, staticLenb, lMax, dMax, maxBlindex, trees, ts, h);
      blk := Choice(fixedOnly, buf, storedLen, optLenb, staticLenb, trees, ts);
      ChoiceStands(fixedOnly, buf, storedLen, optLenb, staticLenb, trees, ts, h, level);
      if level > 0 {
        ChoiceCheapest(fixedOnly, buf, storedLen, optLenb, staticLenb, trees, ts, h);
      }
      EndBlock(eof);
    }

    /** The next block; after the last one the stream is padded. */
    method EndBlock(eof: bool)
      requires Separate() && Sizes() && GoodStatic() && b.Valid()
      modifies this`lastLit, this`matches, this`optLen, this`staticLen, b, lFc, dFc, blFc
      ensures Valid() && Tallies() == [] && lastLit == 0 && |b.pending| >= old(|b.pending|)
      ensures b.Sent() == Ended(old(b.Sent()), eof) && (eof ==> b.biValid == 0)
    {
      hide GoodStatic, LitFreqs, DistFreqs, AllValid, Tallied, BitBuffer.Valid, BitBuffer.Sent, Zeros, Padded;
      ghost var sent := b.Sent();
      InitBlock();
      if eof {
        b.BiWindup();
        WindupIs(sent);
      }
    }

    /** _tr_align. The number n of empty blocks depends on the length of the last end-of-block code. */
    method Align() returns (ghost n: nat)
      requires Valid()
      modifies `lastEobLen, b
      ensures |b.pending| >= old(|b.pending|)
      ensures Valid() && GoodBlock([], FixedBlock([])) && n == Markers(old(lastEobLen), |old(b.Sent())|) && lastEobLen == 7 && b.biValid < 8
      ensures var e := BlockBits([], FixedBlock([]), false, 0);
              b.Sent() == if n == 1 then old(b.Sent()) + e else old(b.Sent()) + e + e
    {
      hide HasCodes, FixedCodes, GoodBlock, BlockBits, LitFreqs, DistFreqs, GoodTables, AllValid, Tallied, BitBuffer.Valid, BitBuffer.Sent;
      lastEobLen, n := TrAlign(b, lastEobLen, staticLFc, staticLDl);
    }

    /** _tr_stored_block without any bytes. */
    method EmptyStored()
      requires Valid()
      modifies this`lastEobLen, b
      ensures |b.pending| >= old(|b.pending|)
      ensures Valid() && GoodBlock([], StoredBlock([])) && b.biValid == 0 && lastEobLen == 8
      ensures b.Sent() == old(b.Sent()) + BlockBits([], StoredBlock([]), false, |old(b.Sent())|)
    {
      hide HasCodes, FixedCodes, BlockBits, LitFreqs, DistFreqs, GoodTables, AllValid, Tallied, BitBuffer.Valid, BitBuffer.Sent;
      TrStoredBlock(b, [], false);
      lastEobLen := 8;
    }
  }

  /** The header sends no lengths behind the last one in use. */
  ghost predicate Tight(t: Trees)
    ensures Tight(t) ==> |t.codes.lit| > 0 && |t.codes.dist| > 0
  {
    && |t.codes.lit| > 0 && t.codes.lit[|t.codes.lit| - 1] != 0 && |t.codes.dist| > 0 && t.codes.dist[|t.codes.dist| - 1] != 0
    && 1 <= t.blcodes <= |ORDER| && ORDER[t.blcodes - 1] < |t.bl| && t.bl[ORDER[t.blcodes - 1]] != 0
  }

  /** The length of the end-of-block code, or enough lookahead for inflate after a stored block. */
  function EobLength(blk: Block): nat {
    match blk
    case StoredBlock(_) => 8
    case FixedBlock(_) => 7
    case DynamicBlock(t, _) => if END_BLOCK < |t.codes.lit| then t.codes.lit[END_BLOCK] else 0
  }

  lemma FixedEob()
    ensures FixedCodes().lit[END_BLOCK] == 7
  {
  }

  /** A finished stream is padded to a whole number of bytes. */
  function Ended(bits: seq<bool>, eof: bool): seq<bool> { if eof then Padded(bits, 0) else bits }

  lemma WindupIs(bits: seq<bool>)
    ensures Padded(bits, 0) == bits + Zeros((8 - |bits| % 8) % 8)
  {
  }

  /** The sizes of a block with the static trees, and of the shorter of both coded forms, in bytes. */
  ghost predicate SizesOf(optLenb: int, staticLenb: int, trees: Trees, ts: seq<Token>)
    ensures SizesOf(optLenb, staticLenb, trees, ts) ==> EncodesAll(FixedCodes(), ts)
  {
    && GoodTrees(trees) && EncodesAll(trees.codes, ts) && EncodesAll(FixedCodes(), ts)
    && staticLenb == Bytes(3 + |BodyBits(FixedCodes(), ts)|)
    && optLenb == Lesser(Bytes(3 + |HeaderBits(trees)| + |BodyBits(trees.codes, ts)|), staticLenb)
  }

  /** The form of the block that _tr_flush_block chooses. */
  function Choice(fixedOnly: bool, buf: Option<seq<byte>>, storedLen: nat, optLenb: int, staticLenb: int, trees: Trees, ts: seq<Token>): Block {
    if storedLen + 4 <= optLenb && buf.Some? then StoredBlock(buf.value)
    else if fixedOnly || staticLenb == optLenb then FixedBlock(ts)
    else DynamicBlock(trees, ts)
  }

  lemma ChoiceStands(fixedOnly: bool, buf: Option<seq<byte>>, storedLen: nat, optLenb: int, staticLenb: int, trees: Trees, ts: seq<Token>,
                     h: seq<byte>, level: nat)
    requires level == 0 ==> optLenb == staticLenb
    requires buf.Some? && level > 0 ==> h + buf.value == Expand(h, ts)
    ensures var blk := Choice(fixedOnly, buf, storedLen, optLenb, staticLenb, trees, ts);
            Stands(blk, buf, ts, level) && (level > 0 ==> BlockOut(h, blk) == Expand(h, ts)) && (blk.DynamicBlock? ==> blk.trees == trees)
  {
    hide Expand;
  }

  function Lesser(x: int, y: int): int { if y <= x then y else x }

  lemma ChoiceCheapest(fixedOnly: bool, buf: Option<seq<byte>>, storedLen: nat, optLenb: int, staticLenb: int, trees: Trees, ts: seq<Token>, h: seq<byte>)
    requires SizesOf(optLenb, staticLenb, trees, ts) && (buf.Some? ==> |buf.value| == storedLen)
    requires GoodBlock(h, Choice(fixedOnly, buf, storedLen, optLenb, staticLenb, trees, ts))
    ensures Cheapest(h, Choice(fixedOnly, buf, storedLen, optLenb, staticLenb, trees, ts), buf, ts, fixedOnly)
  {
    hide FixedCodes, GoodTrees, EncodesAll, BodyBits, HeaderBits, ValidTokens, StoredBits;
  }

  /** The block stands for the tallied tokens: it holds them, or the bytes they expand to. */
  ghost predicate Stands(blk: Block, buf: Option<seq<byte>>, ts: seq<Token>, level: nat) {
    match blk
    case StoredBlock(bytes) => buf == Some(bytes)
    case FixedBlock(tokens) => tokens == ts
    case DynamicBlock(_, tokens) => tokens == ts && level > 0
  }

  /** Counted in whole bytes, dynamic trees are used only if they are shorter than the static trees, and a stored block
      only if neither is shorter than its bytes and their two lengths. */
  ghost predicate Cheapest(h: seq<byte>, blk: Block, buf: Option<seq<byte>>, ts: seq<Token>, fixedOnly: bool)
    requires GoodBlock(h, blk)
  {
    EncodesAll(FixedCodes(), ts) &&
    var bits, fixed := |BlockBits(h, blk, false, 0)|, 3 + |BodyBits(FixedCodes(), ts)|;
    && (blk.DynamicBlock? ==> Bytes(bits) < Bytes(fixed))
    && (blk.StoredBlock? ==> |blk.bytes| + 4 <= Bytes(fixed))
    && (blk.FixedBlock? ==> bits == fixed)
    && (buf.Some? && !blk.StoredBlock? && !fixedOnly ==> Bytes(bits) < |buf.value| + 4)
  }

  /** The number of bytes that n bits fill. */
  function Bytes(n: nat): nat { (n + 7) / 8 }

  lemma DynamicJoin(s: seq<bool>, t: seq<bool>, a: seq<bool>, b: seq<bool>)
    ensures s + t + a + b == s + (t + (a + b))
  {
  }

  lemma DescSizes()
    ensures LDesc().elems == L_CODES && DDesc().elems == D_CODES && BlDesc().elems == BL_CODES
    ensures LDesc().stree == Some(FixedCodes().lit) && DDesc().stree == Some(FixedCodes().dist)
  {
    hide FixedCodes;
  }

  lemma MadeEnd(ts: seq<Token>, lf: seq<nat>, ldl: seq<nat>, lMax: nat)
    requires AllValid(ts) && LitFreqs(lf, ts) && lMax < |ldl| && BuiltLengths(LDesc(), lf, ldl[..lMax + 1])
    ensures lMax >= 256 && ldl[256] != 0
  {
    hide FixedCodes, Kraft;
    EndUsed(ts);
  }

  lemma MadeValid(d: Desc, f: seq<nat>, lens: seq<nat>)
    requires BuiltLengths(d, f, lens)
    ensures ValidLens(lens)
  {
  }

  lemma GoodTablesAt(t: Tables)
    requires GoodTables(t)
    ensures |t.lengthCode| == 256 && |t.distCode| == 512
  {
  }

  lemma TokenSyms(t: Tables, dist: nat, lc: nat)
    requires GoodTables(t) && 1 <= dist <= MAX_WINDOW && lc < 256
    ensures |t.lengthCode| == 256 && |t.distCode| == 512
    ensures t.lengthCode[lc] + 257 == LengthSym(lc + 3) && DCode(t.distCode, dist - 1) == DistSym(dist)
  {
    DCodeIs(t.distCode, dist - 1);
  }
}
