/** Writing blocks: the static trees, compress_block, send_all_trees, _tr_stored_block and _tr_align of trees.c. */
module BlockWriter {
  import opened Bits
  import opened Canonical
  import opened GenCodes
  import opened InfTrees
  import opened StaticTables
  import opened Tokens
  import opened Machine
  import opened BitWriter
  import opened RunLength
  import opened Blocks
  import opened DynamicTrees
  import opened Streams
  import Runs

  /** The constant tables of trees.c. */
  datatype Tables = Tables(lengthCode: seq<nat>, baseLength: seq<nat>, distCode: seq<nat>, baseDist: seq<nat>)

  ghost predicate GoodTables(t: Tables) {
    && |t.lengthCode| == 256 && |t.baseLength| == LENGTH_CODES && |t.baseDist| == D_CODES
    && (forall lc: nat | lc < 256 :: t.lengthCode[lc] == LengthCode(lc))
    && (forall c: nat | c < LENGTH_CODES :: t.baseLength[c] == BaseLength(c))
    && (forall c: nat | c < D_CODES :: t.baseDist[c] == BaseDist(c))
    && DistCodes(t.distCode)
  }

  method MakeTables() returns (t: Tables)
    ensures GoodTables(t)
  {
    hide LengthCode, BaseLength, BaseDist;
    var lengthCode, baseLength := LengthTables();
    var distCode, baseDist := DistTables();
    t := Tables(lengthCode[..], baseLength[..], distCode[..], baseDist[..]);
    assert DistCodes(t.distCode) ==> |t.distCode| == 512;
  }

  // ---- the static trees

  /** static_ltree[n++].Len = len, bl_count[len]++ for the symbols from..to. */
  method FillLens(dl: array<nat>, blCount: array<nat>, from: nat, to: nat, len: nat)
    requires dl != blCount && from <= to <= dl.Length && len < blCount.Length
    modifies dl, blCount
    ensures forall i: nat | i < dl.Length :: dl[i] == if from <= i < to then len else old(dl[i])
    ensures forall l: nat | l < blCount.Length :: blCount[l] == old(blCount[l]) + (if l == len then to - from else 0)
  {
    var n := from;
    while n < to
      invariant from <= n <= to
      invariant forall i: nat | i < dl.Length :: dl[i] == if from <= i < n then len else old(dl[i])
      invariant forall l: nat | l < blCount.Length :: blCount[l] == old(blCount[l]) + (if l == len then n - from else 0)
    {
      dl[n] := len;
      blCount[len] := blCount[len] + 1;
      n := n + 1;
    }
  }

  /** The static trees hold the codes of section 3.2.6 of RFC 1951. The distance tree has 30 entries only. */
  method StaticTrees() returns (lFc: array<nat>, lDl: array<nat>, dFc: array<nat>, dDl: array<nat>)
    ensures fresh({lFc, lDl, dFc, dDl}) && lDl.Length == 288 && dDl.Length == 30
    ensures HasCodes(lFc[..], lDl[..], FixedCodes().lit)
    ensures HasCodes(dFc[..], dDl[..], FixedCodes().dist)
    ensures forall n: nat | n < 288 :: lDl[n] == FixedCodes().lit[n]
    ensures forall n: nat | n < 30 :: dDl[n] == FixedCodes().dist[n]
  {
    hide Count, Canonical.Code, First, Rev, Kraft;
    lFc, lDl := new nat[288](_ => 0), new nat[288](_ => 0);
    var blCount := new nat[MAX_BITS + 1](_ => 0);
    FillLens(lDl, blCount, 0, 144, 8);
    FillLens(lDl, blCount, 144, 256, 9);
    FillLens(lDl, blCount, 256, 280, 7);
    FillLens(lDl, blCount, 280, 288, 8);
    assert lDl[..288] == FixedCodes().lit;
    forall l: nat | l <= MAX_BITS
      ensures blCount[l] == Count(FixedCodes().lit, l)
    {
      Runs.FixedCounts(l);
    }
    Runs.FixedDecodable();
    GenCodes.GenCodes(lFc, lDl, 287, blCount);
    assert lDl[..288] == lDl[..];
    assert HasCodes(lFc[..], lDl[..], FixedCodes().lit);
    dFc, dDl := new nat[30](_ => 0), new nat[30](_ => 0);
    var n: nat := 0;
    while n < 30
      invariant n <= 30
      invariant lDl[..288] == FixedCodes().lit && HasCodes(lFc[..], lDl[..], FixedCodes().lit)
      invariant forall k: nat | k < n :: dDl[k] == 5 && dFc[k] == Rev(k, 5)
    {
      dDl[n] := 5;
      dFc[n] := BiReverse(n, 5);
      n := n + 1;
    }
    forall n: nat | n < 30
      ensures Canonical.Code(FixedCodes().dist, n) == Rev(n, 5)
    {
      FixedDistCode(n);
    }
  }

  lemma FixedDistCode(n: nat)
    requires n < 32
    ensures Canonical.Code(FixedCodes().dist, n) == Rev(n, 5)
  {
    var d := FixedCodes().dist;
    Runs.FixedDistCount(n, 5);
    FirstCodeZero(d, 5);
  }

  lemma {:induction false} FirstCodeZero(d: seq<nat>, l: nat)
    requires d == FixedCodes().dist && l <= 5
    ensures FirstCode(d, l) == 0
  {
    if l > 1 {
      FirstCodeZero(d, l - 1);
      Runs.FixedCounts(l - 1);
    }
  }

  // ---- compress_block

  /** An entry of d_buf and l_buf. */
  function TokenOf(dist: nat, lc: nat): Token {
    if dist == 0 then Literal(ByteOf(lc)) else Match(lc + MIN_MATCH, dist)
  }

  function Tallied(ds: seq<nat>, ls: seq<nat>): (ts: seq<Token>)
    requires |ds| == |ls|
    ensures |ts| == |ds|
  {
    seq(|ds|, i requires 0 <= i < |ds| => TokenOf(ds[i], ls[i]))
  }

  lemma {:induction false} TokensBitsSnoc(c: Codes, ts: seq<Token>, t: Token)
    requires ValidToken(t) && forall i | 0 <= i < |ts| :: ValidToken(ts[i])
    ensures TokensBits(c, ts + [t]) == TokensBits(c, ts) + TokenBits(c, t)
  {
    hide TokenBits;
    if |ts| == 0 {
      assert ts + [t] == [t] && [t][1..] == [];
    } else {
      TokensBitsSnoc(c, ts[1..], t);
      assert (ts + [t])[1..] == ts[1..] + [t];
      Associative(TokenBits(c, ts[0]), TokensBits(c, ts[1..]), TokenBits(c, t));
    }
  }

  lemma LengthLookup(t: Tables, lc: nat)
    requires GoodTables(t) && lc < 256
    ensures |t.lengthCode| == 256 && |t.baseLength| == LENGTH_CODES && t.lengthCode[lc] < LENGTH_CODES
    ensures var c := t.lengthCode[lc];
            && c + 257 == LengthSym(lc + 3) && LengthExtra(c + 257) == EXTRA_LBITS[c] <= 5
            && (EXTRA_LBITS[c] != 0 ==> t.baseLength[c] <= lc && lc - t.baseLength[c] == LengthRest(lc + 3))
  {
    hide BaseLength, BaseDist, LengthCode, DistCodes, LengthExtra;
    LengthExtras(lc);
  }

  /** The length part of a match: its code and its extra bits. */
  method SendLength(b: BitBuffer, t: Tables, lc0: nat, fc: array<nat>, dl: array<nat>, ghost c: Codes)
    requires b.Valid() && GoodTables(t) && lc0 < 256 && dl.Length >= 286 && HasCodes(fc[..], dl[..], c.lit)
    requires HasCode(c.lit, LengthSym(lc0 + 3))
    modifies b
    ensures |b.pending| >= old(|b.pending|)
    ensures b.Valid() && b.Sent() == old(b.Sent()) + LengthBits(c, lc0 + 3)
  {
    hide ToBits, SymbolBits, HasCodes, Pow2, GoodTables, LengthSym, LengthRest, LengthExtra, BitBuffer.Valid, BitBuffer.Sent;
    var lc := lc0;
    LengthValue(lc0 + 3);
    LengthLookup(t, lc);
    var code := t.lengthCode[lc];
    ghost var sent := b.Sent();
    SendCode(b, code + 257, fc, dl, c.lit);
    var extra := EXTRA_LBITS[code];
    ghost var value := LengthRest(lc0 + 3);
    Associative(sent, SymbolBits(c.lit, code + 257), ToBits(value, extra));
    if extra != 0 {
      lc := lc - t.baseLength[code];
      b.SendBits(lc, extra);
    } else {
      NoBits(value, b.Sent());
    }
  }

  lemma NoBits(x: nat, s: seq<bool>)
    ensures s + ToBits(x, 0) == s
  {
  }

  lemma LengthExtras(lc: nat)
    requires lc < 256
    ensures var c := LengthCode(lc);
            LengthExtra(257 + c) == EXTRA_LBITS[c] <= 5 && (EXTRA_LBITS[c] != 0 ==> c < 28 && BaseLength(c) <= lc)
  {
    hide Pow2, Span, BaseLength;
    var c := LengthCode(lc);
    if c < 28 {
      BaseLengthIs(c);
    } else {
      LastLength();
    }
  }

  lemma DistExtras(dist: nat)
    requires 1 <= dist <= MAX_WINDOW
    ensures var c := DistSym(dist); DistExtra(c) == EXTRA_DBITS[c] <= 13 && BaseDist(c) <= dist - 1
  {
    hide Pow2, Span, BaseDist;
    BaseDistIs(DistSym(dist));
  }

  lemma DCodeIs(distCode: seq<nat>, d: nat)
    requires DistCodes(distCode) && d < 32768
    ensures |distCode| == 512 && DCode(distCode, d) == DistCode(d)
  {
  }

  method SendDist(b: BitBuffer, t: Tables, dist0: nat, fc: array<nat>, dl: array<nat>, ghost c: Codes)
    requires b.Valid() && GoodTables(t) && 1 <= dist0 <= MAX_WINDOW && dl.Length >= 30 && HasCodes(fc[..], dl[..], c.dist)
    requires HasCode(c.dist, DistSym(dist0))
    modifies b
    ensures |b.pending| >= old(|b.pending|)
    ensures b.Valid() && b.Sent() == old(b.Sent()) + DistBits(c, dist0)
  {
    hide ToBits, SymbolBits, HasCodes, Pow2, LengthCode, BaseDist, DistCode, DistCodes, BitBuffer.Valid, BitBuffer.Sent;
    var dist := dist0 - 1;
    DistValue(dist0);
    DistExtras(dist0);
    DCodeIs(t.distCode, dist);
    var code := DCode(t.distCode, dist);
    ghost var sent := b.Sent();
    SendCode(b, code, fc, dl, c.dist);
    var extra := EXTRA_DBITS[code];
    ghost var value := DistRest(dist0);
    Associative(sent, SymbolBits(c.dist, code), ToBits(value, extra));
    if extra != 0 {
      dist := dist - t.baseDist[code];
      b.SendBits(dist, extra);
    } else {
      NoBits(value, b.Sent());
    }
  }

  method SendToken(b: BitBuffer, t: Tables, dist: nat, lc: nat,
                   lFc: array<nat>, lDl: array<nat>, dFc: array<nat>, dDl: array<nat>, ghost c: Codes)
    requires b.Valid() && GoodTables(t) && lc < 256 && lDl.Length >= 286 && dDl.Length >= 30
    requires HasCodes(lFc[..], lDl[..], c.lit) && HasCodes(dFc[..], dDl[..], c.dist)
    requires Encodes(c, TokenOf(dist, lc))
    modifies b
    ensures |b.pending| >= old(|b.pending|)
    ensures b.Valid() && b.Sent() == old(b.Sent()) + TokenBits(c, TokenOf(dist, lc))
  {
    hide SymbolBits, HasCodes, GoodTables, LengthBits, DistBits, LengthSym, DistSym, BitBuffer.Valid, BitBuffer.Sent;
    ghost var sent := b.Sent();
    if dist == 0 {
      SendCode(b, lc, lFc, lDl, c.lit);
    } else {
      SendLength(b, t, lc, lFc, lDl, c);
      SendDist(b, t, dist, dFc, dDl, c);
      Associative(sent, LengthBits(c, lc + 3), DistBits(c, dist));
    }
  }

  /** Sends the tallied tokens and the end-of-block symbol; returns the length of the latter. */
  method CompressBlock(b: BitBuffer, t: Tables, dBuf: array<nat>, lBuf: array<nat>, lastLit: nat,
                       lFc: array<nat>, lDl: array<nat>, dFc: array<nat>, dDl: array<nat>, ghost c: Codes)
    returns (lastEobLen: nat)
    requires b.Valid() && GoodTables(t) && lDl.Length >= 286 && dDl.Length >= 30
    requires HasCodes(lFc[..], lDl[..], c.lit) && HasCodes(dFc[..], dDl[..], c.dist)
    requires lastLit <= dBuf.Length && lastLit <= lBuf.Length && forall i | 0 <= i < lastLit :: lBuf[i] < 256
    requires EncodesAll(c, Tallied(dBuf[..lastLit], lBuf[..lastLit]))
    modifies b
    ensures |b.pending| >= old(|b.pending|)
    ensures b.Valid() && b.Sent() == old(b.Sent()) + BodyBits(c, Tallied(dBuf[..lastLit], lBuf[..lastLit]))
    ensures lastEobLen == c.lit[END_BLOCK]
  {
    hide SymbolBits, GoodTables, TokenBits, TokensBits, Encodes, BitBuffer.Valid, BitBuffer.Sent;
    ghost var ts := Tallied(dBuf[..lastLit], lBuf[..lastLit]);
    ghost var sent := b.Sent();
    BodyStart(c, ts, sent);
    var lx: nat := 0;
    while lx < lastLit
      invariant lx <= lastLit && b.Valid()
      invariant |b.pending| >= old(|b.pending|)
      invariant b.Sent() == sent + TokensBits(c, ts[..lx])
    {
      assert ts[lx] == TokenOf(dBuf[lx], lBuf[lx]);
      SendToken(b, t, dBuf[lx], lBuf[lx], lFc, lDl, dFc, dDl, c);
      TokensBitsSnoc(c, ts[..lx], ts[lx]);
      assert ts[..lx] + [ts[lx]] == ts[..lx + 1];
      Associative(sent, TokensBits(c, ts[..lx]), TokenBits(c, ts[lx]));
      lx := lx + 1;
    }
    assert ts[..lx] == ts;
    SendCode(b, END_BLOCK, lFc, lDl, c.lit);
    Associative(sent, TokensBits(c, ts), SymbolBits(c.lit, END_BLOCK));
    lastEobLen := lDl[END_BLOCK];
    assert lDl[END_BLOCK] == c.lit[END_BLOCK];
  }

  lemma BodyStart(c: Codes, ts: seq<Token>, sent: seq<bool>)
    ensures TokensBits(c, ts[..0]) == [] && sent + TokensBits(c, ts[..0]) == sent
  {
  }

  // ---- send_all_trees

  lemma LensBitsSnoc(bl: seq<nat>, from: nat, k: nat)
    requires |bl| == 19 && from <= k < 19
    ensures ORDER[k] < 19 && LensBits(bl, from, k + 1) == LensBits(bl, from, k) + ToBits(bl[ORDER[k]], 3)
    decreases k - from
  {
    hide ToBits, ORDER;
    OrderAt(k);
    OrderAt(from);
    if from < k {
      LensBitsSnoc(bl, from + 1, k);
      Associative(ToBits(bl[ORDER[from]], 3), LensBits(bl, from + 1, k), ToBits(bl[ORDER[k]], 3));
    }
  }

  /** The lengths of the code length code, in the order of the format. */
  method SendLens(b: BitBuffer, blcodes: nat, blDl: array<nat>, ghost bl: seq<nat>)
    requires b.Valid() && blDl.Length >= 19 && blDl[..19] == bl && blcodes <= 19 && forall n | 0 <= n < 19 :: bl[n] < 8
    modifies b
    ensures |b.pending| >= old(|b.pending|)
    ensures b.Valid() && b.Sent() == old(b.Sent()) + LensBits(bl, 0, blcodes)
  {
    hide ToBits, BitBuffer.Valid, BitBuffer.Sent, ORDER;
    ghost var sent := b.Sent();
    assert sent + LensBits(bl, 0, 0) == sent;
    Pow2Values();
    var rank: nat := 0;
    while rank < blcodes
      invariant rank <= blcodes && b.Valid()
      invariant |b.pending| >= old(|b.pending|)
      invariant b.Sent() == sent + LensBits(bl, 0, rank)
    {
      OrderAt(rank);
      LensBitsSnoc(bl, 0, rank);
      Associative(sent, LensBits(bl, 0, rank), ToBits(bl[ORDER[rank]], 3));
      b.SendBits(blDl[ORDER[rank]], 3);
      rank := rank + 1;
    }
  }

  method SendAllTrees(b: BitBuffer, lcodes: nat, dcodes: nat, blcodes: nat, lDl: array<nat>, dDl: array<nat>,
                      blFc: array<nat>, blDl: array<nat>, ghost t: Trees)
    requires b.Valid() && GoodTrees(t) && lcodes == |t.codes.lit| && dcodes == |t.codes.dist| && blcodes == t.blcodes
    requires lcodes < lDl.Length && lDl[..lcodes] == t.codes.lit && lDl[lcodes] == GUARD
    requires dcodes < dDl.Length && dDl[..dcodes] == t.codes.dist && dDl[dcodes] == GUARD
    requires blDl.Length >= 19 && blDl[..19] == t.bl && HasCodes(blFc[..], blDl[..], t.bl)
    modifies b
    ensures |b.pending| >= old(|b.pending|)
    ensures b.Valid() && b.Sent() == old(b.Sent()) + HeaderBits(t)
  {
    hide ToBits, BitBuffer.Valid, BitBuffer.Sent, LensBits, HasCodes, SymsBits, AllSyms, Coded, Runs.GoodCodes, Acceptable, ORDER;
    ghost var sent := b.Sent();
    TreesValid(t);
    Pow2Values();
    b.SendBits(lcodes - 257, 5);
    b.SendBits(dcodes - 1, 5);
    b.SendBits(blcodes - 4, 4);
    SendLens(b, blcodes, blDl, t.bl);
    SendTree(b, lDl, lcodes - 1, blFc, blDl, t.bl);
    SendTree(b, dDl, dcodes - 1, blFc, blDl, t.bl);
    HeaderJoin(sent, ToBits(lcodes - 257, 5), ToBits(dcodes - 1, 5), ToBits(blcodes - 4, 4), LensBits(t.bl, 0, blcodes),
               SymsBits(t.bl, AllSyms(t.codes.lit)), SymsBits(t.bl, AllSyms(t.codes.dist)));
  }

  lemma TreesValid(t: Trees)
    requires GoodTrees(t)
    ensures ValidLens(t.codes.lit) && ValidLens(t.codes.dist)
  {
  }

  lemma HeaderJoin(s: seq<bool>, a: seq<bool>, b: seq<bool>, c: seq<bool>, d: seq<bool>, e: seq<bool>, f: seq<bool>)
    ensures s + a + b + c + d + e + f == s + (a + b + c + (d + (e + f)))
  {
  }

  // ---- stored blocks and alignment

  method TrStoredBlock(b: BitBuffer, buf: seq<byte>, eof: bool)
    requires b.Valid() && |buf| < 65536
    modifies b
    ensures |b.pending| >= old(|b.pending|)
    ensures b.Valid() && b.biValid == 0 && b.Sent() == old(b.Sent()) + BlockBits([], StoredBlock(buf), eof, |old(b.Sent())|)
  {
    hide ToBits, BitBuffer.Valid, BitBuffer.Sent, BytesBits, Zeros;
    ghost var sent := b.Sent();
    Pow2Values();
    b.SendBits(if eof then 1 else 0, 3);
    b.CopyBlock(buf);
    var p := |sent| + 3;
    StoredJoin(sent, TypeBits(0, eof), Padding(p), ToBits(|buf|, 16), ToBits(65535 - |buf|, 16), BytesBits(buf));
  }

  lemma StoredJoin(s: seq<bool>, t: seq<bool>, a: seq<bool>, b: seq<bool>, c: seq<bool>, d: seq<bool>)
    ensures s + t + a + b + c + d == s + (t + (a + b + c + d))
  {
  }

  lemma EmptyFixed()
    ensures GoodBlock([], FixedBlock([]))
    ensures BodyBits(FixedCodes(), []) == SymbolBits(FixedCodes().lit, END_BLOCK) && |BodyBits(FixedCodes(), [])| == 7
  {
    assert FixedCodes().lit[END_BLOCK] == 7;
  }

  /** One empty static block. */
  method SendEmpty(b: BitBuffer, lFc: array<nat>, lDl: array<nat>)
    requires b.Valid() && lDl.Length >= 286 && HasCodes(lFc[..], lDl[..], FixedCodes().lit)
    modifies b
    ensures |b.pending| >= old(|b.pending|)
    ensures GoodBlock([], FixedBlock([]))
    ensures b.Valid() && b.Sent() == old(b.Sent()) + BlockBits([], FixedBlock([]), false, 0)
    ensures |b.Sent()| == |old(b.Sent())| + 10 && b.biValid == |b.Sent()| % 8
  {
    hide ToBits, BitBuffer.Valid, BitBuffer.Sent, SymbolBits, HasCodes, GoodBlock, BodyBits;
    EmptyFixed();
    ghost var sent := b.Sent();
    Pow2Values();
    b.SendBits(2, 3);
    assert 0 < FixedCodes().lit[END_BLOCK] <= MAX_BITS;
    SendCode(b, END_BLOCK, lFc, lDl, FixedCodes().lit);
    Associative(sent, TypeBits(1, false), BodyBits(FixedCodes(), []));
    b.BiFlush();
    b.Residue();
  }

  /** How many empty static blocks _tr_align writes after so many bits, when the last end-of-block code had that length:
      the fewest after which the lookahead for the last real code, in whole bytes, has nine bits. */
  function Markers(lastEobLen: nat, sent: nat): nat {
    if 1 + lastEobLen + 10 - (sent + 10) % 8 >= 9 then 1 else 2
  }

  lemma MarkersSuffice(lastEobLen: nat, sent: nat)
    ensures var n := Markers(lastEobLen, sent); 1 + lastEobLen + 10 * n - (sent + 10 * n) % 8 >= 9
  {
  }

  /** _tr_align: one empty static block, or two when the first may leave inflate too little lookahead. */
  method TrAlign(b: BitBuffer, lastEobLen: nat, lFc: array<nat>, lDl: array<nat>) returns (eobLen: nat, ghost n: nat)
    requires b.Valid() && lDl.Length >= 286 && HasCodes(lFc[..], lDl[..], FixedCodes().lit)
    modifies b
    ensures |b.pending| >= old(|b.pending|)
    ensures GoodBlock([], FixedBlock([])) && eobLen == 7 && n == Markers(lastEobLen, |old(b.Sent())|) && b.biValid < 8
    ensures b.Valid()
    ensures var e := BlockBits([], FixedBlock([]), false, 0);
            b.Sent() == if n == 1 then old(b.Sent()) + e else old(b.Sent()) + e + e
  {
    hide BitBuffer.Valid, BitBuffer.Sent, HasCodes, GoodBlock, FixedCodes, BlockBits;
    SendEmpty(b, lFc, lDl);
    n := 1;
    if 1 + lastEobLen + 10 - b.biValid < 9 {
      SendEmpty(b, lFc, lDl);
      n := 2;
    }
    eobLen := 7;
  }
}
