/** The header of a block with dynamic trees (section 3.2.7 of RFC 1951): what send_all_trees sends and
    what the inflate machine reads out of it. */
module DynamicTrees {
  import opened Bits
  import opened Canonical
  import opened InfTrees
  import opened Traces
  import opened Machine
  import opened Runs
  import opened RunLength
  import opened Blocks

  /** The two codes of a block, the code length code, and how many of its lengths are sent. */
  datatype Trees = Trees(codes: Codes, bl: seq<nat>, blcodes: nat)

  function LensBits(bl: seq<nat>, from: nat, to: nat): seq<bool>
    requires |bl| == 19 && to <= 19
    decreases 19 - from
  {
    if from >= to || from >= 19 then [] else ToBits(bl[ORDER[from]], 3) + LensBits(bl, from + 1, to)
  }

  function CountsBits(t: Trees): seq<bool>
    requires |t.codes.lit| >= 257 && |t.codes.dist| >= 1 && t.blcodes >= 4
  {
    ToBits(|t.codes.lit| - 257, 5) + ToBits(|t.codes.dist| - 1, 5) + ToBits(t.blcodes - 4, 4)
  }

  ghost predicate GoodTrees(t: Trees)
    ensures GoodTrees(t) ==> |t.codes.lit| >= 257 && |t.codes.dist| >= 1 && 4 <= t.blcodes <= 19 && |t.bl| == 19
  {
    && GoodCodes(t.codes) && 257 <= |t.codes.lit| <= 286 && 1 <= |t.codes.dist| <= 30
    && |t.bl| == 19 && 4 <= t.blcodes <= 19 && Acceptable(CODES, t.bl)
    && (forall n | 0 <= n < 19 :: t.bl[n] < 8)
    && (forall r | t.blcodes <= r < 19 :: t.bl[ORDER[r]] == 0)
    && Coded(t.bl, AllSyms(t.codes.lit)) && Coded(t.bl, AllSyms(t.codes.dist))
  }

  function HeaderBits(t: Trees): seq<bool>
    requires |t.codes.lit| >= 257 && |t.codes.dist| >= 1 && 4 <= t.blcodes <= 19 && |t.bl| == 19
  {
    CountsBits(t) + (LensBits(t.bl, 0, t.blcodes) + (SymsBits(t.bl, AllSyms(t.codes.lit)) + SymsBits(t.bl, AllSyms(t.codes.dist))))
  }

  // ---- the counts

  lemma CountsRound(s: State, t: Trees, bits: seq<bool>, rest: seq<bool>)
    requires s.phase == Table && GoodTrees(t) && bits == CountsBits(t) + rest
    ensures Reaches(Conf(s, bits), Conf(At(s, LenLens(|t.codes.lit|, |t.codes.dist|, t.blcodes, [])), rest))
  {
    hide ToBits, Take, GoodCodes, Coded, Acceptable, AllSyms, ORDER, Pow2, Reaches;
    var a, b, c := |t.codes.lit| - 257, |t.codes.dist| - 1, t.blcodes - 4;
    var x := a + (b + c * 32) * 32;
    Pow2Values();
    ToBitsAppend(b, 5, c, 4);
    ToBitsAppend(a, 5, b + c * 32, 9);
    Associative(ToBits(a, 5), ToBits(b, 5), ToBits(c, 4));
    TakeFront(x, 14, bits, rest);
    CountsValue(s, a, b, c, x);
    ReachesNext(Conf(s, bits), Conf(At(s, LenLens(|t.codes.lit|, |t.codes.dist|, t.blcodes, [])), rest), 14);
  }

  lemma CountsValue(s: State, a: nat, b: nat, c: nat, x: nat)
    requires a < 30 && b < 30 && c < 16 && x == a + (b + c * 32) * 32
    ensures TableStep(s, x) == At(s, LenLens(a + 257, b + 1, c + 4, []))
    ensures x < 16384
  {
    assert x % 32 == a && x / 32 == b + c * 32;
    assert x / 32 % 32 == b && x / 1024 == c;
  }

  // ---- the code length code

  function Sent(bl: seq<nat>, k: nat): (s: seq<nat>)
    requires |bl| == 19 && k <= 19
    ensures |s| == k && forall r | 0 <= r < k :: s[r] == bl[ORDER[r]]
  {
    if k == 0 then [] else Sent(bl, k - 1) + [bl[ORDER[k - 1]]]
  }

  lemma OrderAt(k: nat)
    requires k < 19
    ensures |ORDER| == 19 && ORDER[k] < 19
  {
  }

  lemma LensStep(t: Trees, k: nat, rest: seq<bool>)
    requires GoodTrees(t) && k < t.blcodes
    ensures LensBits(t.bl, k, t.blcodes) + rest == ToBits(t.bl[ORDER[k]], 3) + (LensBits(t.bl, k + 1, t.blcodes) + rest)
    ensures t.bl[ORDER[k]] < Pow2(3) && Sent(t.bl, k + 1) == Sent(t.bl, k) + [t.bl[ORDER[k]]]
  {
    hide ToBits, GoodCodes, Coded, Acceptable, AllSyms, ORDER;
    Pow2Values();
    OrderAt(k);
    Associative(ToBits(t.bl[ORDER[k]], 3), LensBits(t.bl, k + 1, t.blcodes), rest);
  }

  lemma {:induction false} LensRound(s: State, t: Trees, k: nat, bits: seq<bool>, rest: seq<bool>)
    requires GoodTrees(t) && k <= t.blcodes
    requires s.phase == LenLens(|t.codes.lit|, |t.codes.dist|, t.blcodes, Sent(t.bl, k))
    requires bits == LensBits(t.bl, k, t.blcodes) + rest
    ensures Reaches(Conf(s, bits), Conf(At(s, LenLens(|t.codes.lit|, |t.codes.dist|, t.blcodes, Sent(t.bl, t.blcodes))), rest))
    decreases t.blcodes - k
  {
    hide ToBits, Take, GoodCodes, Coded, Acceptable, AllSyms, Reaches, Sent, ORDER, Pow2, Ordered;
    if k == t.blcodes {
      assert bits == rest;
      ReachesSelf(Conf(s, bits));
    } else {
      var tail := LensBits(t.bl, k + 1, t.blcodes) + rest;
      LensStep(t, k, rest);
      OrderAt(k);
      TakeFront(t.bl[ORDER[k]], 3, bits, tail);
      var n := At(s, LenLens(|t.codes.lit|, |t.codes.dist|, t.blcodes, Sent(t.bl, k + 1)));
      ReachesNext(Conf(s, bits), Conf(n, tail), 3);
      LensRound(n, t, k + 1, tail, rest);
      ReachesTrans(Conf(s, bits), Conf(n, tail),
        Conf(At(s, LenLens(|t.codes.lit|, |t.codes.dist|, t.blcodes, Sent(t.bl, t.blcodes))), rest));
    }
  }

  /** Where the length of symbol n is sent. */
  function SentAt(n: nat): (r: nat)
    requires n < 19
    ensures r < 19 && ORDER[r] == n
  {
    if n >= 16 then n - 16 else if n == 0 then 3 else if n < 8 then 19 - 2 * n else 2 * n - 12
  }

  lemma {:induction false} LengthSentIs(bl: seq<nat>, k: nat, n: nat, j: nat)
    requires |bl| == 19 && j <= k <= 19 && n < 19
    ensures LengthSent(Sent(bl, k), n, j) == if exists r :: 0 <= r < j && ORDER[r] == n then bl[n] else 0
  {
    assert |ORDER| == 19;
    if j > 0 {
      LengthSentIs(bl, k, n, j - 1);
    }
  }

  /** The lengths left out are zero, so the decoder gets back all nineteen. */
  lemma OrderedSent(t: Trees)
    requires GoodTrees(t)
    ensures Ordered(Sent(t.bl, t.blcodes)) == t.bl
  {
    hide GoodCodes, Coded, Acceptable, AllSyms, LengthSent, Sent;
    assert |ORDER| == 19;
    forall n: nat | n < 19
      ensures LengthSent(Sent(t.bl, t.blcodes), n, t.blcodes) == t.bl[n]
    {
      LengthSentIs(t.bl, t.blcodes, n, t.blcodes);
      assert ORDER[SentAt(n)] == n;
    }
  }

  // ---- the code lengths

  lemma {:induction false} ExpandGrows(done: seq<nat>, rs: seq<RunSym>)
    requires Repeats(done, rs)
    ensures |ExpandSyms(done, rs)| >= |done| + |rs|
    decreases |rs|
  {
    if |rs| > 0 {
      ExpandGrows(ExpandSym(done, rs[0]), rs[1..]);
    }
  }

  lemma SymRound(s: State, bl: seq<nat>, nlen: nat, ndist: nat, done: seq<nat>, r: RunSym, bits: seq<bool>, rest: seq<bool>)
    requires s.phase == CodeLens(nlen, ndist, bl, done) && Decodable(bl) && |bl| == 19 && HasCode(bl, r.sym) && ValidSym(r)
    requires (r.sym == 16 ==> |done| > 0) && |ExpandSym(done, r)| <= nlen + ndist
    requires bits == SymBits(bl, r) + rest
    ensures Reaches(Conf(s, bits), Conf(At(s, CodeLens(nlen, ndist, bl, ExpandSym(done, r))), rest))
  {
    hide DecodeSymbol, SymbolBits, Decodable, ToBits, Take, Pow2, Reaches;
    var tail := CountBits(r) + rest;
    Associative(SymbolBits(bl, r.sym), CountBits(r), rest);
    DecodeFront(bl, r.sym, bits, tail);
    if r.sym < 16 {
      assert tail == rest;
      ReachesNext(Conf(s, bits), Conf(At(s, CodeLens(nlen, ndist, bl, ExpandSym(done, r))), rest), bl[r.sym]);
    } else {
      Pow2Values();
      TakeFront(r.count - RepeatBase(r.sym), RepeatBits(r.sym), tail, rest);
      assert bits[bl[r.sym] + RepeatBits(r.sym)..] == rest;
      ReachesNext(Conf(s, bits), Conf(At(s, CodeLens(nlen, ndist, bl, ExpandSym(done, r))), rest), bl[r.sym] + RepeatBits(r.sym));
    }
  }

  lemma {:induction false} SymsRound(s: State, bl: seq<nat>, nlen: nat, ndist: nat, done: seq<nat>, rs: seq<RunSym>,
                                     bits: seq<bool>, rest: seq<bool>)
    requires s.phase == CodeLens(nlen, ndist, bl, done) && Decodable(bl) && |bl| == 19 && Coded(bl, rs)
    requires Repeats(done, rs) && |ExpandSyms(done, rs)| <= nlen + ndist
    requires bits == SymsBits(bl, rs) + rest
    ensures Reaches(Conf(s, bits), Conf(At(s, CodeLens(nlen, ndist, bl, ExpandSyms(done, rs))), rest))
    decreases |rs|
  {
    hide Decodable, SymBits, ExpandSym, Reaches;
    if |rs| == 0 {
      assert bits == rest;
      ReachesSelf(Conf(s, bits));
    } else {
      var r, more := rs[0], rs[1..];
      var tail := SymsBits(bl, more) + rest;
      Associative(SymBits(bl, r), SymsBits(bl, more), rest);
      var d := ExpandSym(done, r);
      ExpandGrows(d, more);
      SymRound(s, bl, nlen, ndist, done, r, bits, tail);
      var n := At(s, CodeLens(nlen, ndist, bl, d));
      SymsRound(n, bl, nlen, ndist, d, more, tail, rest);
      ReachesTrans(Conf(s, bits), Conf(n, tail), Conf(At(s, CodeLens(nlen, ndist, bl, ExpandSyms(done, rs))), rest));
    }
  }

  /** The symbols of both trees, read as one list, give the lengths of the two codes. */
  lemma LengthsRound(s: State, t: Trees, bits: seq<bool>, rest: seq<bool>)
    requires GoodTrees(t) && s.phase == CodeLens(|t.codes.lit|, |t.codes.dist|, t.bl, [])
    requires bits == SymsBits(t.bl, AllSyms(t.codes.lit)) + SymsBits(t.bl, AllSyms(t.codes.dist)) + rest
    ensures Reaches(Conf(s, bits), Conf(At(s, Len(t.codes)), rest))
  {
    hide SymsBits, AllSyms, Coded, Acceptable, Kraft, Reaches, ValidLens, ExpandSyms, Repeats;
    var lit, dist := t.codes.lit, t.codes.dist;
    assert ValidLens(lit) && ValidLens(dist);
    AllSymsExpand([], lit);
    AllSymsExpand(lit, dist);
    assert [] + lit == lit;
    var rs := AllSyms(lit) + AllSyms(dist);
    ExpandConcat([], AllSyms(lit), AllSyms(dist));
    SymsBitsAppend(t.bl, AllSyms(lit), AllSyms(dist));
    CodedBoth(t.bl, AllSyms(lit), AllSyms(dist));
    BlDecodable(t);
    SymsRound(s, t.bl, |lit|, |dist|, [], rs, bits, rest);
    var n := At(s, CodeLens(|lit|, |dist|, t.bl, lit + dist));
    assert (lit + dist)[..|lit|] == lit && (lit + dist)[|lit|..] == dist;
    assert Acceptable(LENS, lit) && Acceptable(LENS, dist);
    AcceptKinds(dist);
    ReachesNext(Conf(n, rest), Conf(At(s, Len(t.codes)), rest), 0);
    ReachesTrans(Conf(s, bits), Conf(n, rest), Conf(At(s, Len(t.codes)), rest));
  }

  lemma CodedBoth(bl: seq<nat>, x: seq<RunSym>, y: seq<RunSym>)
    requires Coded(bl, x) && Coded(bl, y)
    ensures Coded(bl, x + y)
  {
  }

  lemma BlDecodable(t: Trees)
    requires GoodTrees(t)
    ensures Decodable(t.bl)
  {
    AcceptKinds(t.bl);
  }

  /** A dynamic header is read back as the two codes it was sent for, and nothing after it is touched. */
  lemma HeaderRound(s: State, t: Trees, bits: seq<bool>, rest: seq<bool>)
    requires s.phase == Table && GoodTrees(t) && bits == HeaderBits(t) + rest
    ensures Reaches(Conf(s, bits), Conf(At(s, Len(t.codes)), rest))
  {
    hide CountsBits, LensBits, SymsBits, AllSyms, GoodCodes, Coded, Acceptable, Reaches, ORDER;
    var syms := SymsBits(t.bl, AllSyms(t.codes.lit)) + SymsBits(t.bl, AllSyms(t.codes.dist));
    var b2 := syms + rest;
    var b1 := LensBits(t.bl, 0, t.blcodes) + b2;
    Associative(LensBits(t.bl, 0, t.blcodes), syms, rest);
    Associative(CountsBits(t), LensBits(t.bl, 0, t.blcodes) + syms, rest);
    CountsRound(s, t, bits, b1);
    var s1 := At(s, LenLens(|t.codes.lit|, |t.codes.dist|, t.blcodes, []));
    LensRound(s1, t, 0, b1, b2);
    var s2 := At(s, LenLens(|t.codes.lit|, |t.codes.dist|, t.blcodes, Sent(t.bl, t.blcodes)));
    OrderedSent(t);
    var s3 := At(s, CodeLens(|t.codes.lit|, |t.codes.dist|, t.bl, []));
    ReachesNext(Conf(s2, b2), Conf(s3, b2), 0);
    LengthsRound(s3, t, b2, rest);
    ReachesTrans(Conf(s, bits), Conf(s1, b1), Conf(s2, b2));
    ReachesTrans(Conf(s, bits), Conf(s2, b2), Conf(s3, b2));
    ReachesTrans(Conf(s, bits), Conf(s3, b2), Conf(At(s, Len(t.codes)), rest));
  }
}
