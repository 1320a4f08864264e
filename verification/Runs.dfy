/** Runs of the inflate machine: a step depends only on the bits it consumes, so a run on part of the
    stream is the beginning of the run on all of it. */
module Runs {
  import opened Bits
  import opened Canonical
  import opened InfTrees
  import opened Machine
  import opened Traces
  import StaticTables

  // ---- decoding a symbol

  lemma {:induction false} FromBitsLow(s: seq<bool>, n: nat)
    requires n <= |s|
    ensures Low(FromBits(s), n) == FromBits(s[..n])
  {
    ToFromBits(s);
    var x := FromBits(s);
    ToBitsSplit(x, n, |s| - n);
    assert ToBits(x, |s|)[..n] == ToBits(Low(x, n), n);
    FromToBitsExact(Low(x, n), n);
  }

  lemma WindowLow(bits: seq<bool>, n: nat)
    requires n <= |bits| && n <= MAX_BITS
    ensures Low(Window(bits), n) == FromBits(bits[..n])
  {
    var s := if |bits| > MAX_BITS then bits[..MAX_BITS] else bits;
    FromBitsLow(s, n);
    assert s[..n] == bits[..n];
  }

  /** A stream long enough starts with the code of n exactly when its window is covered by n. */
  lemma CodeStarts(lens: seq<nat>, bits: seq<bool>, n: nat)
    requires Kraft(lens) <= FULL && n < |lens| && 0 < lens[n] <= MAX_BITS && lens[n] <= |bits|
    ensures Covers(lens, n, Mirror(Window(bits))) <==> CodeBits(lens, n) == bits[..lens[n]]
  {
    hide Mirror, Window, Low, Canonical.Code;
    var l := lens[n];
    CodeCovers(lens, n, Window(bits));
    WindowLow(bits, l);
    ToFromBits(bits[..l]);
    FromToBitsExact(Canonical.Code(lens, n), l);
  }

  /** DecodeSymbol finds n exactly when the stream starts with the code of n. */
  lemma DecodeIff(lens: seq<nat>, bits: seq<bool>, n: nat)
    requires ValidLens(lens) && Kraft(lens) <= FULL && n < |lens|
    ensures DecodeSymbol(lens, bits) == Found(n) <==> 0 < lens[n] <= |bits| && CodeBits(lens, n) == bits[..lens[n]]
  {
    hide Mirror, Window, CodeBits;
    var v := Mirror(Window(bits));
    if 0 < lens[n] <= |bits| {
      CodeStarts(lens, bits, n);
      if Covers(lens, n, v) {
        assert HasSymbol(lens, v);
        CoversUnique(lens, n, SymbolOf(lens, v), v);
      }
    }
  }

  /** The lengths a decoding table can be built for. */
  ghost predicate Decodable(lens: seq<nat>) {
    ValidLens(lens) && Acceptable(LENS, lens)
  }

  lemma DecodableKraft(lens: seq<nat>)
    requires Decodable(lens)
    ensures Kraft(lens) <= FULL
    ensures Kraft(lens) == FULL || Kraft(lens) == 0 || Kraft(lens) == 16384
    ensures Kraft(lens) == 0 || Kraft(lens) == 16384 ==> forall v: nat | HasSymbol(lens, v) :: v < Kraft(lens)
  {
    hide First, Count, Covers;
    NoCodesMax(lens);
    if SingleBitCode(lens) {
      SingleBitMax(lens);
      Incomplete(lens);
    }
    forall v: nat | HasSymbol(lens, v)
      ensures v < Kraft(lens)
    {
      BelowKraft(lens, SymbolOf(lens, v), v);
    }
  }

  /** Whether any code can start the stream depends on its first bit only. */
  lemma NoCodeStable(lens: seq<nat>, x: nat, y: nat)
    requires Decodable(lens) && x < FULL && y < FULL && Low(x, 1) == Low(y, 1)
    requires !HasSymbol(lens, Mirror(x))
    ensures !HasSymbol(lens, Mirror(y))
  {
    hide Mirror, Low, First, Covers;
    DecodableKraft(lens);
    FirstBit(x);
    FirstBit(y);
    if Mirror(x) < Kraft(lens) {
      var n := CoversExists(lens, MAX_BITS + 1, Mirror(x));
    }
  }

  lemma DecodeStable(lens: seq<nat>, bits: seq<bool>, more: seq<bool>)
    requires Decodable(lens) && !DecodeSymbol(lens, bits).NeedMore?
    ensures DecodeSymbol(lens, bits + more) == DecodeSymbol(lens, bits)
  {
    hide Mirror, Window, CodeBits, Kraft;
    DecodableKraft(lens);
    var r := DecodeSymbol(lens, bits);
    if r.Found? {
      DecodeIff(lens, bits, r.sym);
      DecodeIff(lens, bits + more, r.sym);
      assert (bits + more)[..lens[r.sym]] == bits[..lens[r.sym]];
    } else {
      WindowLow(bits, 1);
      WindowLow(bits + more, 1);
      assert (bits + more)[..1] == bits[..1];
      NoCodeStable(lens, Window(bits), Window(bits + more));
    }
  }

  // ---- the fixed codes

  function Min(a: int, b: int): int { if a < b then a else b }
  function Clip(k: int, lo: int, hi: int): int { if k < lo then 0 else Min(k, hi) - lo }

  /** How many of the first k literal/length symbols have length l in the fixed code. */
  lemma {:induction false} FixedLitCount(k: nat, l: nat)
    requires k <= 288
    ensures Count(FixedCodes().lit[..k], l) ==
            if l == 7 then Clip(k, 256, 280) else if l == 8 then Clip(k, 0, 144) + Clip(k, 280, 288)
            else if l == 9 then Clip(k, 144, 256) else 0
  {
    if k > 0 {
      FixedLitCount(k - 1, l);
      CountStep(FixedCodes().lit, k - 1, l);
    }
  }

  lemma {:induction false} FixedDistCount(k: nat, l: nat)
    requires k <= 32
    ensures Count(FixedCodes().dist[..k], l) == if l == 5 then k else 0
  {
    if k > 0 {
      FixedDistCount(k - 1, l);
      CountStep(FixedCodes().dist, k - 1, l);
    }
  }

  lemma FirstNext(lens: seq<nat>, l: nat)
    requires 1 <= l
    ensures First(lens, l + 1) == First(lens, l) + Count(lens, l) * Unit(l)
  {
  }

  lemma Units()
    ensures Unit(5) == 1024 && Unit(7) == 256 && Unit(8) == 128 && Unit(9) == 64
  {
    Pow2Values();
  }

  lemma FixedCounts(l: nat)
    ensures Count(FixedCodes().lit, l) == if l == 7 then 24 else if l == 8 then 152 else if l == 9 then 112 else 0
    ensures Count(FixedCodes().dist, l) == if l == 5 then 32 else 0
  {
    var f := FixedCodes();
    assert f.lit[..288] == f.lit && f.dist[..32] == f.dist;
    FixedLitCount(288, l);
    FixedDistCount(32, l);
  }

  lemma FixedDecodable()
    ensures Decodable(FixedCodes().lit) && Decodable(FixedCodes().dist)
    ensures Kraft(FixedCodes().lit) == FULL && Kraft(FixedCodes().dist) == FULL
  {
    var f := FixedCodes();
    assert ValidLens(f.lit) && ValidLens(f.dist);
    FixedKraft(f.lit, f.dist);
  }

  lemma FixedKraft(lit: seq<nat>, dist: seq<nat>)
    requires lit == FixedCodes().lit && dist == FixedCodes().dist
    ensures Kraft(lit) == FULL && Kraft(dist) == FULL
  {
    hide First, Count, Unit, FixedCodes;
    forall l: nat
      ensures Count(lit, l) == if l == 7 then 24 else if l == 8 then 152 else if l == 9 then 112 else 0
      ensures Count(dist, l) == if l == 5 then 32 else 0
    {
      FixedCounts(l);
    }
    Units();
    NoneBelow(lit, 7);
    FirstNext(lit, 7);
    FirstNext(lit, 8);
    FirstNext(lit, 9);
    FirstBeyond(lit, 9, MAX_BITS + 1);
    NoneBelow(dist, 5);
    FirstNext(dist, 5);
    FirstBeyond(dist, 5, MAX_BITS + 1);
  }

  // ---- well-formed states

  ghost predicate GoodCodes(c: Codes) {
    Decodable(c.lit) && Decodable(c.dist) && |c.lit| <= 288 && |c.dist| <= 32
  }

  ghost predicate WellFormed(s: State) {
    match s.phase
    case LenLens(nlen, ndist, ncode, sent) =>
      257 <= nlen <= 286 && 1 <= ndist <= 30 && 4 <= ncode <= 19 && |sent| <= ncode && forall i | 0 <= i < |sent| :: sent[i] < 8
    case CodeLens(nlen, ndist, code, lens) =>
      257 <= nlen <= 286 && 1 <= ndist <= 30 && |lens| <= nlen + ndist && ValidLens(lens) && |code| == 19 && Decodable(code)
    case Len(c) => GoodCodes(c)
    case LenExt(c, length, extra) => GoodCodes(c) && 3 <= length && length + Pow2(extra) <= 259 && extra <= 5
    case Dist(c, length) => GoodCodes(c) && 3 <= length <= 258
    case DistExt(c, length, offset, extra) =>
      GoodCodes(c) && 3 <= length <= 258 && 1 <= offset && offset + Pow2(extra) <= 32769 && extra <= 13
    case MatchCopy(c, length, offset) => GoodCodes(c) && 1 <= length <= 258 && 1 <= offset <= 32768 && offset <= |s.out|
    case Lit(c, value) => GoodCodes(c) && value < 256
    case CopyBytes(length) => length < 65536
    case _ => true
  }

  lemma LengthEntry(sym: nat)
    requires 257 <= sym < 286
    ensures LengthBase(sym) >= 3 && LengthBase(sym) + Pow2(LengthExtra(sym)) <= 259 && LengthExtra(sym) <= 5
  {
    hide Pow2, StaticTables.Span;
    var c := sym - 257;
    if c < 28 {
      StaticTables.BaseLengthIs(c);
      StaticTables.LengthRange(c);
    } else {
      StaticTables.LastLength();
    }
  }

  lemma DistEntry(sym: nat)
    requires sym < 30
    ensures DistBase(sym) >= 1 && DistBase(sym) + Pow2(DistExtra(sym)) <= 32769 && DistExtra(sym) <= 13
  {
    hide Pow2, StaticTables.Span;
    StaticTables.BaseDistIs(sym);
    StaticTables.DistRange(sym);
  }

  lemma OrderedValid(sent: seq<nat>)
    requires forall i | 0 <= i < |sent| :: sent[i] < 8
    ensures ValidLens(Ordered(sent))
    ensures Acceptable(CODES, Ordered(sent)) ==> Decodable(Ordered(sent))
  {
    forall n: nat | n < 19
      ensures Ordered(sent)[n] < 8
    {
      SentBound(sent, n, |sent|);
    }
  }

  lemma {:induction false} SentBound(sent: seq<nat>, n: nat, k: nat)
    requires k <= |sent| && forall i | 0 <= i < |sent| :: sent[i] < 8
    ensures LengthSent(sent, n, k) < 8
  {
    if k > 0 {
      SentBound(sent, n, k - 1);
    }
  }

  lemma LengthSymbolKeeps(s: State, bits: seq<bool>, sym: nat, used: nat)
    requires WellFormed(s) && s.phase.CodeLens? && used <= |bits| && sym < 19
    requires |s.phase.lens| < s.phase.nlen + s.phase.ndist
    ensures var r := LengthSymbolStep(s, bits, sym, used); r.Next? ==> WellFormed(r.state) && r.used <= |bits|
  {
    hide Take, Acceptable;
  }

  lemma LenStepKeeps(s: State, bits: seq<bool>)
    requires WellFormed(s) && s.phase.Len?
    ensures var r := LenStep(s, bits); r.Next? ==> WellFormed(r.state) && r.used <= |bits|
  {
    hide Acceptable, Pow2, DecodeSymbol, LengthBase, LengthExtra;
    var d := DecodeSymbol(s.phase.codes.lit, bits);
    if d.Found? && 257 <= d.sym < 286 {
      LengthEntry(d.sym);
    }
  }

  lemma DistStepKeeps(s: State, bits: seq<bool>)
    requires WellFormed(s) && s.phase.Dist?
    ensures var r := DistStep(s, bits); r.Next? ==> WellFormed(r.state) && r.used <= |bits|
  {
    hide Acceptable, Pow2, DecodeSymbol, DistBase, DistExtra;
    var d := DecodeSymbol(s.phase.codes.dist, bits);
    if d.Found? && d.sym < 30 {
      DistEntry(d.sym);
    }
  }

  lemma FixedGood()
    ensures GoodCodes(FixedCodes())
  {
    hide Decodable, FixedCodes;
    FixedDecodable();
  }

  lemma TypeKeeps(s: State, t: nat)
    ensures WellFormed(TypeStep(s, t))
  {
    hide FixedCodes, GoodCodes;
    FixedGood();
  }

  lemma HeaderKeeps(s: State, h: nat)
    ensures var r := HeaderStep(s, h); r.Next? && WellFormed(r.state) && r.used <= 16
  {
  }

  lemma TableKeeps(s: State, t: nat)
    ensures WellFormed(TableStep(s, t))
  {
  }

  lemma LenLensKeeps(s: State, bits: seq<bool>)
    requires WellFormed(s) && s.phase.LenLens?
    ensures var r := LenLensNext(s, bits); r.Next? ==> WellFormed(r.state) && r.used <= |bits|
  {
    hide Acceptable, Take, Ordered, Pow2;
    Pow2Values();
    OrderedValid(s.phase.sent);
  }

  lemma CodeLensKeeps(s: State, bits: seq<bool>)
    requires WellFormed(s) && s.phase.CodeLens?
    ensures var r := CodeLensNext(s, bits); r.Next? ==> WellFormed(r.state) && r.used <= |bits|
  {
    hide Acceptable, LengthSymbolStep, DecodeSymbol;
    var p := s.phase;
    if |p.lens| < p.nlen + p.ndist {
      var d := DecodeSymbol(p.code, bits);
      if d.Found? {
        LengthSymbolKeeps(s, bits, d.sym, p.code[d.sym]);
      } else if d.NoCode? {
        LengthSymbolKeeps(s, bits, 0, 1);
      }
    } else {
      AcceptKinds(p.lens[p.nlen..]);
    }
  }

  lemma BlockKeeps(s: State, bits: seq<bool>)
    requires WellFormed(s)
    ensures var r := HeadNext(s, bits); r.Next? ==> WellFormed(r.state) && r.used <= |bits|
    ensures var r := TypeNext(s, bits); r.Next? ==> WellFormed(r.state) && r.used <= |bits|
    ensures var r := TableNext(s, bits); r.Next? ==> WellFormed(r.state) && r.used <= |bits|
  {
    hide HeaderStep, TypeStep, TableStep, Take, GoodCodes;
    HeaderKeeps(s, if |bits| < 16 then 0 else Take(bits, 16));
    TypeKeeps(s, if |bits| < 3 then 0 else Take(bits, 3));
    TableKeeps(s, if |bits| < 14 then 0 else Take(bits, 14));
  }

  lemma BytesKeep(s: State, bits: seq<bool>)
    requires WellFormed(s)
    ensures s.phase.Stored? ==> var r := StoredNext(s, bits); r.Next? ==> WellFormed(r.state) && r.used <= |bits|
    ensures s.phase.CopyBytes? ==> var r := CopyByteNext(s, bits); r.Next? ==> WellFormed(r.state) && r.used <= |bits|
    ensures var r := CheckNext(s, bits); r.Next? ==> WellFormed(r.state) && r.used <= |bits|
  {
    hide Take, GoodCodes, Pow2, Reverse4, Adler32.Adler, Adler32.Pack;
    Pow2Values();
  }

  lemma ExtrasKeep(s: State, bits: seq<bool>)
    requires WellFormed(s)
    ensures s.phase.LenExt? ==> var r := LenExtNext(s, bits); r.Next? ==> WellFormed(r.state) && r.used <= |bits|
    ensures s.phase.DistExt? ==> var r := DistExtNext(s, bits); r.Next? ==> WellFormed(r.state) && r.used <= |bits|
    ensures s.phase.MatchCopy? ==> var r := MatchNext(s); r.Next? ==> WellFormed(r.state) && r.used <= |bits|
  {
    hide Take, GoodCodes, Pow2;
  }

  /** Every step of a well-formed state leads to a well-formed state and consumes only bits that are there. */
  lemma StepKeeps(s: State, bits: seq<bool>)
    requires WellFormed(s)
    ensures var r := Step(s, bits); r.Next? ==> WellFormed(r.state) && r.used <= |bits|
  {
    hide HeadNext, TypeNext, StoredNext, CopyByteNext, TableNext, LenLensNext, CodeLensNext, LenExtNext, DistExtNext, MatchNext, CheckNext,
      LenStep, DistStep, GoodCodes, Pow2;
    match s.phase {
      case Len(_) => LenStepKeeps(s, bits);
      case Dist(_, _) => DistStepKeeps(s, bits);
      case CodeLens(_, _, _, _) => CodeLensKeeps(s, bits);
      case LenLens(_, _, _, _) => LenLensKeeps(s, bits);
      case _ =>
        BlockKeeps(s, bits);
        BytesKeep(s, bits);
        ExtrasKeep(s, bits);
    }
  }

  lemma AcceptKinds(lens: seq<nat>)
    ensures Acceptable(CODES, lens) ==> Acceptable(LENS, lens)
    ensures Acceptable(DISTS, lens) <==> Acceptable(LENS, lens)
  {
  }

  // ---- a step depends only on the bits it consumes

  lemma TakeStable(bits: seq<bool>, more: seq<bool>, from: nat, n: nat)
    requires from + n <= |bits|
    ensures Take((bits + more)[from..], n) == Take(bits[from..], n)
    ensures from == 0 ==> Take(bits + more, n) == Take(bits, n)
  {
    assert (bits + more)[from..][..n] == bits[from..][..n];
    if from == 0 {
      assert (bits + more)[..n] == bits[..n];
    }
  }

  lemma LengthSymbolStable(s: State, bits: seq<bool>, more: seq<bool>, sym: nat, used: nat)
    requires s.phase.CodeLens? && used <= |bits|
    requires LengthSymbolStep(s, bits, sym, used).Next?
    ensures LengthSymbolStep(s, bits + more, sym, used) == LengthSymbolStep(s, bits, sym, used)
  {
    hide Take;
    if sym >= 16 && used + RepeatBits(sym) <= |bits| {
      TakeStable(bits, more, used, RepeatBits(sym));
    }
  }

  lemma CodeLensStable(s: State, bits: seq<bool>, more: seq<bool>)
    requires WellFormed(s) && s.phase.CodeLens? && CodeLensNext(s, bits).Next?
    ensures CodeLensNext(s, bits + more) == CodeLensNext(s, bits)
  {
    hide Acceptable, LengthSymbolStep, DecodeSymbol, Decodable;
    var p := s.phase;
    if |p.lens| < p.nlen + p.ndist {
      var d := DecodeSymbol(p.code, bits);
      DecodeStable(p.code, bits, more);
      if d.Found? {
        LengthSymbolStable(s, bits, more, d.sym, p.code[d.sym]);
      } else {
        LengthSymbolStable(s, bits, more, 0, 1);
      }
    }
  }

  lemma LenLensStable(s: State, bits: seq<bool>, more: seq<bool>)
    requires s.phase.LenLens? && LenLensNext(s, bits).Next?
    ensures LenLensNext(s, bits + more) == LenLensNext(s, bits)
  {
    hide Acceptable, Ordered, Take;
    if |bits| >= 3 {
      TakeStable(bits, more, 0, 3);
    }
  }

  lemma HeadStable(s: State, bits: seq<bool>, more: seq<bool>)
    ensures HeadNext(s, bits).Next? ==> HeadNext(s, bits + more) == HeadNext(s, bits)
  {
    hide Take, HeaderStep;
    if |bits| >= 16 {
      TakeStable(bits, more, 0, 16);
    }
  }

  lemma TypeStable(s: State, bits: seq<bool>, more: seq<bool>)
    requires |more| % 8 == 0
    ensures TypeNext(s, bits).Next? ==> TypeNext(s, bits + more) == TypeNext(s, bits)
  {
    hide Take, TypeStep;
    if |bits| >= 3 {
      TakeStable(bits, more, 0, 3);
    }
  }

  lemma TableStable(s: State, bits: seq<bool>, more: seq<bool>)
    ensures TableNext(s, bits).Next? ==> TableNext(s, bits + more) == TableNext(s, bits)
  {
    hide Take, TableStep;
    if |bits| >= 14 {
      TakeStable(bits, more, 0, 14);
    }
  }

  lemma BytesStable(s: State, bits: seq<bool>, more: seq<bool>)
    requires |more| % 8 == 0
    ensures StoredNext(s, bits).Next? ==> StoredNext(s, bits + more) == StoredNext(s, bits)
    ensures s.phase.CopyBytes? && CopyByteNext(s, bits).Next? ==> CopyByteNext(s, bits + more) == CopyByteNext(s, bits)
    ensures CheckNext(s, bits).Next? ==> CheckNext(s, bits + more) == CheckNext(s, bits)
  {
    hide Take, Reverse4, Adler32.Adler, Adler32.Pack;
    if |bits| >= 8 {
      TakeStable(bits, more, 0, 8);
    }
    if |bits| >= 32 {
      TakeStable(bits, more, 0, 16);
      TakeStable(bits, more, 16, 16);
      TakeStable(bits, more, 0, 32);
    }
  }

  lemma ExtrasStable(s: State, bits: seq<bool>, more: seq<bool>)
    ensures s.phase.LenExt? && LenExtNext(s, bits).Next? ==> LenExtNext(s, bits + more) == LenExtNext(s, bits)
    ensures s.phase.DistExt? && DistExtNext(s, bits).Next? ==> DistExtNext(s, bits + more) == DistExtNext(s, bits)
  {
    hide Take;
    if (s.phase.LenExt? || s.phase.DistExt?) && s.phase.extra <= |bits| {
      TakeStable(bits, more, 0, s.phase.extra);
    }
  }

  lemma CodesStable(s: State, bits: seq<bool>, more: seq<bool>)
    requires WellFormed(s)
    ensures s.phase.Len? && LenStep(s, bits).Next? ==> LenStep(s, bits + more) == LenStep(s, bits)
    ensures s.phase.Dist? && DistStep(s, bits).Next? ==> DistStep(s, bits + more) == DistStep(s, bits)
  {
    hide DecodeSymbol, Decodable, LengthBase, LengthExtra, DistBase, DistExtra;
    if s.phase.Len? && LenStep(s, bits).Next? {
      DecodeStable(s.phase.codes.lit, bits, more);
    } else if s.phase.Dist? && DistStep(s, bits).Next? {
      DecodeStable(s.phase.codes.dist, bits, more);
    }
  }

  lemma StepStable(s: State, bits: seq<bool>, more: seq<bool>)
    requires WellFormed(s) && Step(s, bits).Next? && |more| % 8 == 0
    ensures Step(s, bits + more) == Step(s, bits)
  {
    hide HeadNext, TypeNext, StoredNext, CopyByteNext, TableNext, LenLensNext, CodeLensNext, LenExtNext, DistExtNext, MatchNext, CheckNext,
      LenStep, DistStep, WellFormed;
    match s.phase {
      case CodeLens(_, _, _, _) => CodeLensStable(s, bits, more);
      case LenLens(_, _, _, _) => LenLensStable(s, bits, more);
      case _ =>
        HeadStable(s, bits, more);
        TypeStable(s, bits, more);
        TableStable(s, bits, more);
        BytesStable(s, bits, more);
        ExtrasStable(s, bits, more);
        CodesStable(s, bits, more);
    }
  }

  // ---- runs

  /** A machine state with the bits of the stream it has not consumed. */
  datatype Conf = Conf(s: State, bits: seq<bool>)

  ghost function NextConf(c: Conf): Option<Conf> {
    match Step(c.s, c.bits)
    case Next(s, used) => if used <= |c.bits| then Some(Conf(s, c.bits[used..])) else None
    case _ => None
  }

  /** d is reached from c in n steps. */
  ghost predicate Reach(c: Conf, d: Conf, n: nat) { Steps(NextConf, c, d, n) }

  ghost predicate Reaches(c: Conf, d: Conf) { exists n: nat :: Reach(c, d, n) }

  ghost predicate Stuck(c: Conf) { NextConf(c).None? }

  ghost function More(c: Conf, more: seq<bool>): Conf { Conf(c.s, c.bits + more) }

  lemma ReachesTrans(c: Conf, d: Conf, e: Conf)
    requires Reaches(c, d) && Reaches(d, e)
    ensures Reaches(c, e)
  {
    hide NextConf;
    var m: nat :| Reach(c, d, m);
    var n: nat :| Reach(d, e, n);
    StepsTrans(NextConf, c, d, e, m, n);
    assert Reach(c, e, m + n);
  }

  lemma ReachesSelf(c: Conf)
    ensures Reaches(c, c)
  {
    hide NextConf;
    assert Reach(c, c, 0);
  }

  lemma ReachesStep(c: Conf, d: Conf)
    requires NextConf(c) == Some(d)
    ensures Reaches(c, d)
  {
    hide NextConf;
    assert Steps(NextConf, d, d, 0);
    assert Reach(c, d, 1);
  }

  lemma ReachesNext(c: Conf, d: Conf, used: nat)
    requires Step(c.s, c.bits) == Next(d.s, used) && used <= |c.bits| && d.bits == c.bits[used..]
    ensures Reaches(c, d)
  {
    hide Step;
    ReachesStep(c, d);
  }

  lemma NextMore(c: Conf, d: Conf, more: seq<bool>)
    requires WellFormed(c.s) && NextConf(c) == Some(d) && |more| % 8 == 0
    ensures NextConf(More(c, more)) == Some(More(d, more)) && WellFormed(d.s)
  {
    hide WellFormed, Step;
    StepKeeps(c.s, c.bits);
    StepStable(c.s, c.bits, more);
    var used := Step(c.s, c.bits).used;
    assert (c.bits + more)[used..] == c.bits[used..] + more;
  }

  /** A run is the beginning of the run on a longer stream. */
  lemma {:induction false} ReachMore(c: Conf, d: Conf, n: nat, more: seq<bool>)
    requires WellFormed(c.s) && Reach(c, d, n) && |more| % 8 == 0
    ensures Reach(More(c, more), More(d, more), n) && WellFormed(d.s)
    decreases n
  {
    hide WellFormed, NextConf;
    if n > 0 {
      var e := NextConf(c).value;
      NextMore(c, e, more);
      ReachMore(e, d, n - 1, more);
    }
  }

  lemma ReachesMore(c: Conf, d: Conf, more: seq<bool>)
    requires WellFormed(c.s) && Reaches(c, d) && |more| % 8 == 0
    ensures Reaches(More(c, more), More(d, more)) && WellFormed(d.s)
  {
    hide WellFormed, NextConf;
    var n: nat :| Reach(c, d, n);
    ReachMore(c, d, n, more);
  }

  /** There is one run only: two configurations at which it can get stuck are the same. */
  lemma EndsAgree(c: Conf, d: Conf, e: Conf)
    requires Reaches(c, d) && Reaches(c, e) && Stuck(d) && Stuck(e)
    ensures d == e
  {
    hide NextConf;
    var m: nat :| Reach(c, d, m);
    var n: nat :| Reach(c, e, n);
    if m <= n {
      StepsLinear(NextConf, c, d, e, m, n);
    } else {
      StepsLinear(NextConf, c, e, d, n, m);
    }
  }
}
