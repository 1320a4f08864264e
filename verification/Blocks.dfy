/** The bits of deflate blocks, and what the inflate machine reads out of them. */
module Blocks {
  import opened Bits
  import opened Canonical
  import opened InfTrees
  import opened StaticTables
  import opened Tokens
  import opened Traces
  import opened Machine
  import opened Runs
  import opened BitWriter
  import opened RunLength

  // ---- tokens

  /** The literal/length symbol of a match length and the value of its extra bits. */
  function LengthSym(length: nat): (n: nat)
    requires MIN_MATCH <= length <= MAX_MATCH
    ensures 257 <= n < 286
  {
    257 + LengthCode(length - 3)
  }

  function LengthRest(length: nat): nat
    requires MIN_MATCH <= length <= MAX_MATCH
  {
    var c := LengthCode(length - 3);
    if c < 28 then length - 3 - BaseLength(c) else 0
  }

  function DistSym(dist: nat): (n: nat)
    requires 1 <= dist <= MAX_WINDOW
    ensures n < 30
  {
    DistCode(dist - 1)
  }

  function DistRest(dist: nat): nat
    requires 1 <= dist <= MAX_WINDOW
  {
    dist - 1 - BaseDist(DistCode(dist - 1))
  }

  function LengthBits(c: Codes, length: nat): seq<bool>
    requires MIN_MATCH <= length <= MAX_MATCH
  {
    var n := LengthSym(length);
    SymbolBits(c.lit, n) + ToBits(LengthRest(length), LengthExtra(n))
  }

  function DistBits(c: Codes, dist: nat): seq<bool>
    requires 1 <= dist <= MAX_WINDOW
  {
    var n := DistSym(dist);
    SymbolBits(c.dist, n) + ToBits(DistRest(dist), DistExtra(n))
  }

  function TokenBits(c: Codes, t: Token): seq<bool>
    requires ValidToken(t)
  {
    match t
    case Literal(b) => SymbolBits(c.lit, b)
    case Match(length, dist) => LengthBits(c, length) + DistBits(c, dist)
  }

  ghost predicate HasCode(lens: seq<nat>, n: nat) { n < |lens| && 0 < lens[n] <= MAX_BITS }

  /** The codes have a code for every symbol of the token. */
  ghost predicate Encodes(c: Codes, t: Token) {
    ValidToken(t) &&
    match t
    case Literal(b) => HasCode(c.lit, b)
    case Match(length, dist) => HasCode(c.lit, LengthSym(length)) && HasCode(c.dist, DistSym(dist))
  }

  ghost predicate EncodesAll(c: Codes, ts: seq<Token>)
    ensures EncodesAll(c, ts) ==> forall i | 0 <= i < |ts| :: ValidToken(ts[i])
  {
    HasCode(c.lit, END_BLOCK) && forall i | 0 <= i < |ts| :: Encodes(c, ts[i])
  }

  function TokensBits(c: Codes, ts: seq<Token>): seq<bool>
    requires forall i | 0 <= i < |ts| :: ValidToken(ts[i])
  {
    if |ts| == 0 then [] else TokenBits(c, ts[0]) + TokensBits(c, ts[1..])
  }

  /** The tokens of a block and its end. */
  function BodyBits(c: Codes, ts: seq<Token>): seq<bool>
    requires forall i | 0 <= i < |ts| :: ValidToken(ts[i])
  {
    TokensBits(c, ts) + SymbolBits(c.lit, END_BLOCK)
  }

  // ---- reading tokens

  lemma DecodeFront(lens: seq<nat>, n: nat, bits: seq<bool>, rest: seq<bool>)
    requires Decodable(lens) && HasCode(lens, n) && bits == SymbolBits(lens, n) + rest
    ensures DecodeSymbol(lens, bits) == Found(n) && lens[n] <= |bits| && bits[lens[n]..] == rest
  {
    hide CodeBits, DecodeSymbol, Acceptable, Kraft;
    DecodableKraft(lens);
    DecodeIff(lens, bits, n);
  }

  lemma TakeFront(x: nat, n: nat, bits: seq<bool>, rest: seq<bool>)
    requires x < Pow2(n) && bits == ToBits(x, n) + rest
    ensures |bits| >= n && Take(bits, n) == x && bits[n..] == rest
  {
    hide ToBits, Pow2;
    FromToBitsExact(x, n);
    assert bits[..n] == ToBits(x, n);
  }

  lemma LiteralRound(s: State, c: Codes, b: byte, bits: seq<bool>, rest: seq<bool>)
    requires s.phase == Len(c) && GoodCodes(c) && HasCode(c.lit, b) && bits == SymbolBits(c.lit, b) + rest
    ensures Reaches(Conf(s, bits), Conf(Emit(s, Len(c), b), rest))
  {
    hide DecodeSymbol, SymbolBits, Decodable, LengthBase, LengthExtra;
    DecodeFront(c.lit, b, bits, rest);
    var m := Conf(At(s, Lit(c, b)), rest);
    ReachesNext(Conf(s, bits), m, c.lit[b]);
    ReachesNext(m, Conf(Emit(s, Len(c), b), rest), 0);
    ReachesTrans(Conf(s, bits), m, Conf(Emit(s, Len(c), b), rest));
  }

  lemma EndRound(s: State, c: Codes, bits: seq<bool>, rest: seq<bool>)
    requires s.phase == Len(c) && GoodCodes(c) && HasCode(c.lit, END_BLOCK) && bits == SymbolBits(c.lit, END_BLOCK) + rest
    ensures Reaches(Conf(s, bits), Conf(At(s, Type), rest))
  {
    hide DecodeSymbol, SymbolBits, Decodable, LengthBase, LengthExtra;
    DecodeFront(c.lit, END_BLOCK, bits, rest);
    ReachesNext(Conf(s, bits), Conf(At(s, Type), rest), c.lit[END_BLOCK]);
  }

  lemma LengthValue(length: nat)
    requires MIN_MATCH <= length <= MAX_MATCH
    ensures LengthRest(length) < Pow2(LengthExtra(LengthSym(length)))
    ensures LengthBase(LengthSym(length)) + LengthRest(length) == length
  {
    hide Pow2, BaseLength, LengthCode;
    LengthDecodes(length - 3);
  }

  lemma DistValue(dist: nat)
    requires 1 <= dist <= MAX_WINDOW
    ensures DistRest(dist) < Pow2(DistExtra(DistSym(dist)))
    ensures DistBase(DistSym(dist)) + DistRest(dist) == dist
  {
    hide Pow2, BaseDist, DistCode;
    DistDecodes(dist - 1);
  }

  lemma LengthRound(s: State, c: Codes, length: nat, bits: seq<bool>, rest: seq<bool>)
    requires s.phase == Len(c) && GoodCodes(c) && MIN_MATCH <= length <= MAX_MATCH && HasCode(c.lit, LengthSym(length))
    requires bits == LengthBits(c, length) + rest
    ensures Reaches(Conf(s, bits), Conf(At(s, Dist(c, length)), rest))
  {
    hide DecodeSymbol, SymbolBits, Decodable, LengthBase, LengthExtra, ToBits, Take, LengthSym, LengthRest, Pow2;
    var n, x := LengthSym(length), LengthRest(length);
    var extra := ToBits(x, LengthExtra(n)) + rest;
    Associative(SymbolBits(c.lit, n), ToBits(x, LengthExtra(n)), rest);
    DecodeFront(c.lit, n, bits, extra);
    LengthValue(length);
    TakeFront(x, LengthExtra(n), extra, rest);
    var m := Conf(At(s, LenExt(c, LengthBase(n), LengthExtra(n))), extra);
    var e := Conf(At(s, Dist(c, length)), rest);
    ReachesNext(Conf(s, bits), m, c.lit[n]);
    ReachesNext(m, e, LengthExtra(n));
    ReachesTrans(Conf(s, bits), m, e);
  }

  lemma DistRound(s: State, c: Codes, length: nat, dist: nat, bits: seq<bool>, rest: seq<bool>)
    requires s.phase == Dist(c, length) && GoodCodes(c) && 1 <= dist <= MAX_WINDOW && HasCode(c.dist, DistSym(dist))
    requires dist <= |s.out| && bits == DistBits(c, dist) + rest
    ensures Reaches(Conf(s, bits), Conf(At(s, MatchCopy(c, length, dist)), rest))
  {
    hide DecodeSymbol, SymbolBits, Decodable, DistBase, DistExtra, ToBits, Take, DistSym, DistRest, Pow2;
    var n, x := DistSym(dist), DistRest(dist);
    var extra := ToBits(x, DistExtra(n)) + rest;
    Associative(SymbolBits(c.dist, n), ToBits(x, DistExtra(n)), rest);
    DecodeFront(c.dist, n, bits, extra);
    DistValue(dist);
    TakeFront(x, DistExtra(n), extra, rest);
    var m := Conf(At(s, DistExt(c, length, DistBase(n), DistExtra(n))), extra);
    var e := Conf(At(s, MatchCopy(c, length, dist)), rest);
    ReachesNext(Conf(s, bits), m, c.dist[n]);
    ReachesNext(m, e, DistExtra(n));
    ReachesTrans(Conf(s, bits), m, e);
  }

  lemma {:induction false} CopyRound(s: State, c: Codes, length: nat, dist: nat, bits: seq<bool>)
    requires s.phase == MatchCopy(c, length, dist) && length >= 1 && 1 <= dist <= |s.out|
    ensures Reaches(Conf(s, bits), Conf(State(s.wrap, s.last, Len(c), Copy(s.out, dist, length)), bits))
    decreases length
  {
    var b := s.out[|s.out| - dist];
    var n := Emit(s, if length == 1 then Len(c) else MatchCopy(c, length - 1, dist), b);
    ReachesNext(Conf(s, bits), Conf(n, bits), 0);
    if length == 1 {
      assert Copy(s.out, dist, 1) == Copy(s.out + [b], dist, 0);
    } else {
      CopyRound(n, c, length - 1, dist, bits);
      ReachesTrans(Conf(s, bits), Conf(n, bits), Conf(State(s.wrap, s.last, Len(c), Copy(s.out, dist, length)), bits));
    }
  }

  ghost predicate Reachable(t: Token, h: seq<byte>) { t.Match? ==> t.dist <= |h| }

  lemma TokenRound(s: State, c: Codes, t: Token, bits: seq<bool>, rest: seq<bool>)
    requires s.phase == Len(c) && GoodCodes(c) && Encodes(c, t) && Reachable(t, s.out)
    requires bits == TokenBits(c, t) + rest
    ensures Reaches(Conf(s, bits), Conf(State(s.wrap, s.last, Len(c), Apply(s.out, t)), rest))
  {
    hide Reaches, GoodCodes, HasCode, SymbolBits, LengthBits, DistBits, Copy, LengthSym, DistSym;
    match t {
      case Literal(b) => LiteralRound(s, c, b, bits, rest);
      case Match(length, dist) =>
        Associative(LengthBits(c, length), DistBits(c, dist), rest);
        var tail := DistBits(c, dist) + rest;
        LengthRound(s, c, length, bits, tail);
        var d := At(s, Dist(c, length));
        DistRound(d, c, length, dist, tail, rest);
        var m := At(s, MatchCopy(c, length, dist));
        CopyRound(m, c, length, dist, rest);
        ReachesTrans(Conf(s, bits), Conf(d, tail), Conf(m, rest));
        ReachesTrans(Conf(s, bits), Conf(m, rest), Conf(State(s.wrap, s.last, Len(c), Apply(s.out, t)), rest));
    }
  }

  lemma ExpandFirst(h: seq<byte>, ts: seq<Token>)
    requires |ts| > 0
    ensures Expand(h, ts) == Expand(Apply(h, ts[0]), ts[1..])
    ensures ValidTokens(h, ts) <==> ValidTokens(h, [ts[0]]) && ValidTokens(Apply(h, ts[0]), ts[1..])
    ensures ValidTokens(h, [ts[0]]) ==> ValidToken(ts[0]) && Reachable(ts[0], h)
  {
    hide Apply;
    ExpandAppend(h, [ts[0]], ts[1..]);
    assert ts == [ts[0]] + ts[1..];
    assert [ts[0]][..0] == [];
  }

  lemma BodyFirst(c: Codes, ts: seq<Token>, rest: seq<bool>)
    requires |ts| > 0 && EncodesAll(c, ts)
    ensures EncodesAll(c, ts[1..]) && Encodes(c, ts[0])
    ensures BodyBits(c, ts) + rest == TokenBits(c, ts[0]) + (BodyBits(c, ts[1..]) + rest)
  {
    hide HasCode, TokenBits, SymbolBits;
    assert Encodes(c, ts[0]);
    var x, y, z := TokenBits(c, ts[0]), TokensBits(c, ts[1..]), SymbolBits(c.lit, END_BLOCK);
    assert x + y + z + rest == x + (y + z + rest);
  }

  lemma BodyLast(c: Codes, ts: seq<Token>, h: seq<byte>)
    requires |ts| == 0
    ensures BodyBits(c, ts) == SymbolBits(c.lit, END_BLOCK) && Expand(h, ts) == h
    ensures EncodesAll(c, ts) ==> HasCode(c.lit, END_BLOCK)
  {
  }

  /** The body of a block is read back as its tokens, up to the end-of-block symbol and not beyond. */
  lemma {:induction false} BodyRound(s: State, c: Codes, ts: seq<Token>, bits: seq<bool>, rest: seq<bool>)
    requires s.phase == Len(c) && GoodCodes(c) && EncodesAll(c, ts) && ValidTokens(s.out, ts)
    requires bits == BodyBits(c, ts) + rest
    ensures Reaches(Conf(s, bits), Conf(State(s.wrap, s.last, Type, Expand(s.out, ts)), rest))
    decreases |ts|
  {
    hide HasCode, GoodCodes, TokenBits, SymbolBits, Apply, Reaches, EncodesAll, Encodes, BodyBits, Expand, ValidTokens;
    if |ts| == 0 {
      BodyLast(c, ts, s.out);
      EndRound(s, c, bits, rest);
    } else {
      var tail := BodyBits(c, ts[1..]) + rest;
      BodyFirst(c, ts, rest);
      ExpandFirst(s.out, ts);
      TokenRound(s, c, ts[0], bits, tail);
      var n := State(s.wrap, s.last, Len(c), Apply(s.out, ts[0]));
      BodyRound(n, c, ts[1..], tail, rest);
      ReachesTrans(Conf(s, bits), Conf(n, tail), Conf(State(s.wrap, s.last, Type, Expand(s.out, ts)), rest));
    }
  }
}
