/** Whole deflate and zlib streams: a list of blocks of the three kinds, and the round trip through the
    inflate machine. */
module Streams {
  import opened Bits
  import opened Canonical
  import opened Tokens
  import opened Traces
  import opened Machine
  import opened Runs
  import opened BitWriter
  import opened Blocks
  import opened DynamicTrees
  import opened InfTrees
  import opened RunLength
  import opened Adler32

  datatype Block = StoredBlock(bytes: seq<byte>) | FixedBlock(tokens: seq<Token>) | DynamicBlock(trees: Trees, tokens: seq<Token>)

  /** The block can follow the output h. */
  ghost predicate GoodBlock(h: seq<byte>, b: Block)
    ensures GoodBlock(h, b) && !b.StoredBlock? ==> forall i | 0 <= i < |b.tokens| :: ValidToken(b.tokens[i])
  {
    match b
    case StoredBlock(bytes) => |bytes| < 65536
    case FixedBlock(ts) => ValidTokens(h, ts) && EncodesAll(FixedCodes(), ts)
    case DynamicBlock(t, ts) => GoodTrees(t) && ValidTokens(h, ts) && EncodesAll(t.codes, ts)
  }

  function BlockOut(h: seq<byte>, b: Block): seq<byte> {
    match b
    case StoredBlock(bytes) => h + bytes
    case FixedBlock(ts) => Expand(h, ts)
    case DynamicBlock(_, ts) => Expand(h, ts)
  }

  function TypeBits(kind: nat, last: bool): seq<bool> { ToBits(2 * kind + (if last then 1 else 0), 3) }

  /** The zero bits up to the next byte boundary after p bits. */
  function Padding(p: nat): seq<bool> { Zeros((8 - p % 8) % 8) }

  function StoredBits(bytes: seq<byte>, p: nat): seq<bool>
    requires |bytes| < 65536
  {
    Padding(p) + ToBits(|bytes|, 16) + ToBits(65535 - |bytes|, 16) + BytesBits(bytes)
  }

  /** A block that starts after p bits of the stream. */
  ghost function BlockBits(h: seq<byte>, b: Block, last: bool, p: nat): seq<bool>
    requires GoodBlock(h, b)
  {
    match b
    case StoredBlock(bytes) => TypeBits(0, last) + StoredBits(bytes, p + 3)
    case FixedBlock(ts) => TypeBits(1, last) + BodyBits(FixedCodes(), ts)
    case DynamicBlock(t, ts) => TypeBits(2, last) + (HeaderBits(t) + BodyBits(t.codes, ts))
  }

  /** The bits of a block depend on the history and the place only by the padding of stored blocks. */
  lemma BitsSince(h: seq<byte>, k: seq<byte>, blk: Block, eof: bool, p: nat, bytes: nat)
    requires GoodBlock(h, blk) && GoodBlock(k, blk) && 8 * bytes <= p
    ensures BlockBits(h, blk, eof, p) == BlockBits(k, blk, eof, p - 8 * bytes)
  {
    hide GoodBlock, TypeBits, HeaderBits, BodyBits, ToBits, BytesBits;
    if blk.StoredBlock? {
      SamePadding(p + 3, bytes);
    }
  }

  lemma SamePadding(p: nat, bytes: nat)
    requires 8 * bytes <= p
    ensures Padding(p - 8 * bytes) == Padding(p)
  {
    DivMod(p - 8 * bytes, 8, p / 8 - bytes, p % 8);
  }

  // ---- reading one block

  lemma TypeRound(s: State, kind: nat, last: bool, bits: seq<bool>, rest: seq<bool>)
    requires s.phase == Type && !s.last && kind < 3 && bits == TypeBits(kind, last) + rest
    ensures Reaches(Conf(s, bits), Conf(State(s.wrap, last, TypePhase(kind), s.out), rest))
  {
    hide ToBits, Take, Reaches, FixedCodes;
    var x := 2 * kind + (if last then 1 else 0);
    Pow2Values();
    TakeFront(x, 3, bits, rest);
    assert x / 2 == kind && (x % 2 == 1 <==> last);
    ReachesNext(Conf(s, bits), Conf(State(s.wrap, last, TypePhase(kind), s.out), rest), 3);
  }

  lemma {:induction false} CopyBytesRound(s: State, bytes: seq<byte>, bits: seq<bool>, rest: seq<bool>)
    requires s.phase == CopyBytes(|bytes|) && bits == BytesBits(bytes) + rest
    ensures Reaches(Conf(s, bits), Conf(State(s.wrap, s.last, Type, s.out + bytes), rest))
    decreases |bytes|
  {
    hide ToBits, Take, Reaches;
    if |bytes| == 0 {
      assert bits == rest && s.out + bytes == s.out;
      ReachesNext(Conf(s, bits), Conf(At(s, Type), rest), 0);
    } else {
      var tail := BytesBits(bytes[1..]) + rest;
      Associative(ToBits(bytes[0], 8), BytesBits(bytes[1..]), rest);
      Pow2Values();
      TakeFront(bytes[0], 8, bits, tail);
      var n := Emit(s, CopyBytes(|bytes| - 1), bytes[0]);
      ReachesNext(Conf(s, bits), Conf(n, tail), 8);
      CopyBytesRound(n, bytes[1..], tail, rest);
      assert s.out + [bytes[0]] + bytes[1..] == s.out + bytes;
      ReachesTrans(Conf(s, bits), Conf(n, tail), Conf(State(s.wrap, s.last, Type, s.out + bytes), rest));
    }
  }

  lemma AlignRound(s: State, p: nat, bits: seq<bool>, rest: seq<bool>)
    requires s.phase == Stored && (p + |bits|) % 8 == 0 && bits == Padding(p) + rest
    ensures Reaches(Conf(s, bits), Conf(s, rest)) && |rest| % 8 == 0
  {
    hide ToBits, Take, Reaches;
    assert |bits| % 8 == (8 - p % 8) % 8;
    assert bits[|bits| % 8..] == rest;
    if |bits| % 8 == 0 {
      assert bits == rest;
      ReachesSelf(Conf(s, bits));
    } else {
      ReachesNext(Conf(s, bits), Conf(s, rest), |bits| % 8);
    }
  }

  lemma StoredRound(s: State, bytes: seq<byte>, p: nat, bits: seq<bool>, rest: seq<bool>)
    requires s.phase == Stored && |bytes| < 65536 && (p + |bits|) % 8 == 0 && bits == StoredBits(bytes, p) + rest
    ensures Reaches(Conf(s, bits), Conf(State(s.wrap, s.last, Type, s.out + bytes), rest))
  {
    hide ToBits, Take, Reaches, Padding, BytesBits;
    var n := |bytes|;
    var b3 := BytesBits(bytes) + rest;
    var b2 := ToBits(65535 - n, 16) + b3;
    var b1 := ToBits(n, 16) + b2;
    assert bits == Padding(p) + b1;
    AlignRound(s, p, bits, b1);
    Pow2Values();
    TakeFront(n, 16, b1, b2);
    TakeFront(65535 - n, 16, b2, b3);
    assert b1[32..] == b3 by {
      assert b1[32..] == b2[16..];
    }
    assert |b1| == 32 + |b3|;
    var c := At(s, CopyBytes(n));
    ReachesNext(Conf(s, b1), Conf(c, b3), 32);
    CopyBytesRound(c, bytes, b3, rest);
    ReachesTrans(Conf(s, bits), Conf(s, b1), Conf(c, b3));
    ReachesTrans(Conf(s, bits), Conf(c, b3), Conf(State(s.wrap, s.last, Type, s.out + bytes), rest));
  }

  /** A block, wherever it starts, is read back as the output it stands for, and nothing after it is touched. */
  lemma BlockRound(s: State, b: Block, last: bool, p: nat, bits: seq<bool>, rest: seq<bool>)
    requires s.phase == Type && !s.last && GoodBlock(s.out, b) && (p + |bits|) % 8 == 0
    requires bits == BlockBits(s.out, b, last, p) + rest
    ensures Reaches(Conf(s, bits), Conf(State(s.wrap, last, Type, BlockOut(s.out, b)), rest))
  {
    hide ToBits, Reaches, StoredBits, BodyBits, HeaderBits, GoodTrees, GoodCodes, FixedCodes, EncodesAll, ValidTokens, Expand;
    var end := Conf(State(s.wrap, last, Type, BlockOut(s.out, b)), rest);
    match b {
      case StoredBlock(bytes) =>
        var tail := StoredBits(bytes, p + 3) + rest;
        Associative(TypeBits(0, last), StoredBits(bytes, p + 3), rest);
        TypeRound(s, 0, last, bits, tail);
        var n := State(s.wrap, last, Stored, s.out);
        StoredRound(n, bytes, p + 3, tail, rest);
        ReachesTrans(Conf(s, bits), Conf(n, tail), end);
      case FixedBlock(ts) =>
        var tail := BodyBits(FixedCodes(), ts) + rest;
        Associative(TypeBits(1, last), BodyBits(FixedCodes(), ts), rest);
        TypeRound(s, 1, last, bits, tail);
        FixedGood();
        var n := State(s.wrap, last, Len(FixedCodes()), s.out);
        BodyRound(n, FixedCodes(), ts, tail, rest);
        ReachesTrans(Conf(s, bits), Conf(n, tail), end);
      case DynamicBlock(t, ts) =>
        DynamicRound(s, t, ts, last, bits, rest);
    }
  }

  lemma DynamicRound(s: State, t: Trees, ts: seq<Token>, last: bool, bits: seq<bool>, rest: seq<bool>)
    requires s.phase == Type && !s.last && GoodTrees(t) && ValidTokens(s.out, ts) && EncodesAll(t.codes, ts)
    requires bits == TypeBits(2, last) + (HeaderBits(t) + BodyBits(t.codes, ts)) + rest
    ensures Reaches(Conf(s, bits), Conf(State(s.wrap, last, Type, Expand(s.out, ts)), rest))
  {
    hide ToBits, Reaches, BodyBits, HeaderBits, GoodCodes, FixedCodes, EncodesAll, ValidTokens, Expand, Coded, Acceptable;
    var body := BodyBits(t.codes, ts);
    var b2 := body + rest;
    var b1 := HeaderBits(t) + b2;
    Associative(HeaderBits(t), body, rest);
    Associative(TypeBits(2, last), HeaderBits(t) + body, rest);
    TypeRound(s, 2, last, bits, b1);
    var s1 := State(s.wrap, last, Table, s.out);
    HeaderRound(s1, t, b1, b2);
    var s2 := State(s.wrap, last, Len(t.codes), s.out);
    BodyRound(s2, t.codes, ts, b2, rest);
    ReachesTrans(Conf(s, bits), Conf(s1, b1), Conf(s2, b2));
    ReachesTrans(Conf(s, bits), Conf(s2, b2), Conf(State(s.wrap, last, Type, Expand(s.out, ts)), rest));
  }

  // ---- reading a stream

  /** Each block can follow the output of the blocks before it. */
  ghost predicate GoodBlocks(h: seq<byte>, bs: seq<Block>)
    decreases |bs|
  {
    |bs| == 0 || (GoodBlock(h, bs[0]) && GoodBlocks(BlockOut(h, bs[0]), bs[1..]))
  }

  function BlocksOut(h: seq<byte>, bs: seq<Block>): seq<byte>
    decreases |bs|
  {
    if |bs| == 0 then h else BlocksOut(BlockOut(h, bs[0]), bs[1..])
  }

  /** Blocks that start after p bits; with final set the last one is marked as the last of the stream. */
  ghost function BlocksBits(h: seq<byte>, bs: seq<Block>, final: bool, p: nat): seq<bool>
    requires GoodBlocks(h, bs)
    decreases |bs|
  {
    if |bs| == 0 then []
    else
      var b := BlockBits(h, bs[0], final && |bs| == 1, p);
      b + BlocksBits(BlockOut(h, bs[0]), bs[1..], final, p + |b|)
  }

  /** One more block at the end. */
  lemma {:induction false} BlocksSnoc(h: seq<byte>, bs: seq<Block>, b: Block, final: bool, p: nat)
    requires GoodBlocks(h, bs) && GoodBlock(BlocksOut(h, bs), b)
    ensures GoodBlocks(h, bs + [b]) && BlocksOut(h, bs + [b]) == BlockOut(BlocksOut(h, bs), b)
    ensures BlocksBits(h, bs + [b], final, p)
         == BlocksBits(h, bs, false, p) + BlockBits(BlocksOut(h, bs), b, final, p + |BlocksBits(h, bs, false, p)|)
    decreases |bs|
  {
    hide GoodBlock, BlockBits, BlockOut;
    if |bs| == 0 {
      BlocksOne(h, bs, b, final, p);
    } else {
      var o, x := BlockOut(h, bs[0]), BlockBits(h, bs[0], false, p);
      assert (bs + [b])[1..] == bs[1..] + [b];
      BlocksSnoc(o, bs[1..], b, final, p + |x|);
      var y := BlocksBits(o, bs[1..], false, p + |x|);
      Associative(x, y, BlockBits(BlocksOut(h, bs), b, final, p + |x| + |y|));
    }
  }

  /** Each block can follow the output of those before it. */
  lemma {:induction false} GoodAt(h: seq<byte>, bs: seq<Block>, i: nat)
    requires GoodBlocks(h, bs) && i < |bs|
    ensures GoodBlock(BlocksOut(h, bs[..i]), bs[i])
    decreases i
  {
    hide GoodBlock, BlockOut;
    if i > 0 {
      GoodAt(BlockOut(h, bs[0]), bs[1..], i - 1);
      assert bs[..i][1..] == bs[1..][..i - 1];
    }
  }

  lemma TokensValid(h: seq<byte>, b: Block)
    requires GoodBlock(h, b) && !b.StoredBlock?
    ensures ValidTokens(h, b.tokens)
  {
  }

  lemma BlocksOne(h: seq<byte>, bs: seq<Block>, b: Block, final: bool, p: nat)
    requires |bs| == 0 && GoodBlock(h, b)
    ensures GoodBlocks(h, bs + [b]) && BlocksOut(h, bs + [b]) == BlockOut(h, b)
    ensures BlocksBits(h, bs + [b], final, p) == [] + BlockBits(h, b, final, p)
  {
    hide GoodBlock, BlockBits, BlockOut;
    assert bs + [b] == [b] && [b][1..] == [];
    assert BlocksOut(BlockOut(h, b), []) == BlockOut(h, b);
    assert BlocksBits(BlockOut(h, b), [], final, p + |BlockBits(h, b, final, p)|) == [];
  }

  lemma {:induction false} BlocksRound(s: State, bs: seq<Block>, final: bool, p: nat, bits: seq<bool>, rest: seq<bool>)
    requires s.phase == Type && !s.last && GoodBlocks(s.out, bs) && (p + |bits|) % 8 == 0
    requires bits == BlocksBits(s.out, bs, final, p) + rest
    ensures Reaches(Conf(s, bits), Conf(State(s.wrap, final && |bs| > 0, Type, BlocksOut(s.out, bs)), rest))
    decreases |bs|
  {
    hide Reaches, BlockBits, GoodBlock, BlockOut;
    if |bs| == 0 {
      assert bits == rest;
      ReachesSelf(Conf(s, bits));
    } else {
      var last := final && |bs| == 1;
      var b := BlockBits(s.out, bs[0], last, p);
      var o := BlockOut(s.out, bs[0]);
      var tail := BlocksBits(o, bs[1..], final, p + |b|) + rest;
      Associative(b, BlocksBits(o, bs[1..], final, p + |b|), rest);
      BlockRound(s, bs[0], last, p, bits, tail);
      var n := State(s.wrap, last, Type, o);
      if |bs| > 1 {
        BlocksRound(n, bs[1..], final, p + |b|, tail, rest);
        ReachesTrans(Conf(s, bits), Conf(n, tail), Conf(State(s.wrap, final, Type, BlocksOut(o, bs[1..])), rest));
      } else {
        assert tail == rest;
      }
    }
  }

  /** The blocks of a finished stream, padded to a whole number of bytes. */
  ghost function DeflateBits(bs: seq<Block>, p: nat): seq<bool>
    requires GoodBlocks([], bs)
  {
    Padded(BlocksBits([], bs, true, p), p)
  }

  function Padded(b: seq<bool>, p: nat): (r: seq<bool>)
    ensures (p + |r|) % 8 == 0
  {
    PadMod(p + |b|);
    b + Padding(p + |b|)
  }

  lemma PadMod(q: nat)
    ensures (q + (8 - q % 8) % 8) % 8 == 0
  {
    var r := q % 8;
    assert q == 8 * (q / 8) + r;
  }

  function ByteAt(x: nat, k: nat): byte
    requires k > 0
  {
    x / k % 256
  }

  /** put_short_msb twice: the most significant byte first. */
  function TrailerBits(x: nat): (r: seq<bool>)
    ensures |r| == 32
  {
    BytesBits([ByteAt(x, 16777216), ByteAt(x, 65536), ByteAt(x, 256), ByteAt(x, 1)])
  }

  lemma TrailerTake(x: nat, bits: seq<bool>, rest: seq<bool>)
    requires x < 0x1_0000_0000 && bits == TrailerBits(x) + rest
    ensures |bits| >= 32 && Reverse4(Take(bits, 32)) == x && bits[32..] == rest
  {
    hide ToBits, Take, Reverse4;
    var a, b, c, d := ByteAt(x, 16777216), ByteAt(x, 65536), ByteAt(x, 256), ByteAt(x, 1);
    FourBytes(a, b, c, d);
    var y: nat := Little(a, b, c, d);
    TakeFront(y, 32, bits, rest);
    ReverseFour(x);
  }

  function Little(a: nat, b: nat, c: nat, d: nat): nat { a + (b + (c + d * 256) * 256) * 256 }

  lemma ReverseFour(x: nat)
    requires x < 0x1_0000_0000
    ensures Reverse4(Little(ByteAt(x, 16777216), ByteAt(x, 65536), ByteAt(x, 256), ByteAt(x, 1))) == x
  {
    hide Little, Reverse4;
    var a: nat, b: nat, c: nat, d: nat := ByteAt(x, 16777216), ByteAt(x, 65536), ByteAt(x, 256), ByteAt(x, 1);
    ReverseLittle(a, b, c, d);
    var h := x / 65536;
    assert x / 256 / 256 == h && h / 256 == a;
    assert x == h * 65536 + x % 65536;
    assert h == a * 256 + b;
    assert x % 65536 == c * 256 + d;
  }

  lemma ReverseLittle(a: nat, b: nat, c: nat, d: nat)
    requires a < 256 && b < 256 && c < 256 && d < 256
    ensures Reverse4(Little(a, b, c, d)) == a * 16777216 + b * 65536 + c * 256 + d
  {
    var y2 := c + d * 256;
    var y1 := b + y2 * 256;
    var y := a + y1 * 256;
    assert y / 256 == y1 && y1 / 256 == y2 && y2 / 256 == d;
    assert y / 65536 == y2 && y / 16777216 == d;
  }

  lemma FourBytes(a: byte, b: byte, c: byte, d: byte)
    ensures BytesBits([a, b, c, d]) == ToBits(Little(a, b, c, d), 32)
    ensures Little(a, b, c, d) < Pow2(32)
  {
    hide ToBits, Pow2, BytesBits;
    Pow2Values();
    var x: nat, y: nat, z: nat, w: nat := a, b, c, d;
    ToBitsAppend(z, 8, w, 8);
    ToBitsAppend(y, 8, z + w * 256, 16);
    ToBitsAppend(x, 8, y + (z + w * 256) * 256, 24);
    Pow2Add(16, 16);
    BytesBitsAppend([a], [b, c, d]);
    BytesBitsAppend([b], [c, d]);
    BytesBitsAppend([c], [d]);
    assert [a] + [b, c, d] == [a, b, c, d] && [b] + [c, d] == [b, c, d] && [c] + [d] == [c, d];
    OneByte(a);
    OneByte(b);
    OneByte(c);
    OneByte(d);
  }

  lemma OneByte(a: nat)
    ensures BytesBits([a]) == ToBits(a, 8)
  {
    hide ToBits;
    assert [a][1..] == [];
    assert ToBits(a, 8) + [] == ToBits(a, 8);
  }

  lemma AlignEnd(s: State, p: nat, bits: seq<bool>, rest: seq<bool>)
    requires s.phase == Type && s.last && |rest| % 8 == 0 && bits == Padding(p) + rest && (p + |Padding(p)|) % 8 == 0
    ensures Reaches(Conf(s, bits), Conf(At(s, Check), rest))
  {
    hide Reaches;
    assert |Padding(p)| < 8;
    assert bits[|bits| % 8..] == rest;
    ReachesNext(Conf(s, bits), Conf(At(s, Check), rest), |bits| % 8);
  }

  /** The blocks of a stream, then its padding, bring the machine from the first block to the trailer. */
  lemma DeflateRound(wrap: bool, bs: seq<Block>, p: nat, bits: seq<bool>, rest: seq<bool>)
    requires |bs| > 0 && GoodBlocks([], bs) && |rest| % 8 == 0 && bits == DeflateBits(bs, p) + rest
    ensures Reaches(Conf(State(wrap, false, Type, []), bits), Conf(State(wrap, true, Check, BlocksOut([], bs)), rest))
  {
    hide Reaches, BlocksBits, BlocksOut, GoodBlocks, Padding;
    var b := BlocksBits([], bs, true, p);
    var tail := Padding(p + |b|) + rest;
    assert (p + |b| + |Padding(p + |b|)|) % 8 == 0;
    Associative(b, Padding(p + |b|), rest);
    var s := State(wrap, false, Type, []);
    BlocksRound(s, bs, true, p, bits, tail);
    var n := State(wrap, true, Type, BlocksOut([], bs));
    AlignEnd(n, p + |b|, tail, rest);
    ReachesTrans(Conf(s, bits), Conf(n, tail), Conf(At(n, Check), rest));
  }

  lemma RawEnds(o: seq<byte>, bits: seq<bool>, rest: seq<bool>)
    ensures Reaches(Conf(State(false, false, Head, []), bits), Conf(State(false, false, Type, []), bits))
    ensures Reaches(Conf(State(false, true, Check, o), rest), Conf(State(false, true, Done, o), rest))
  {
    hide Reaches;
    ReachesNext(Conf(State(false, false, Head, []), bits), Conf(State(false, false, Type, []), bits), 0);
    ReachesNext(Conf(State(false, true, Check, o), rest), Conf(State(false, true, Done, o), rest), 0);
  }

  /** Raw streams round-trip: inflate ends after exactly the bytes of the stream with the output of its blocks. */
  lemma RawRound(bs: seq<Block>, rest: seq<bool>)
    requires |bs| > 0 && GoodBlocks([], bs) && |rest| % 8 == 0
    ensures Reaches(Conf(State(false, false, Head, []), DeflateBits(bs, 0) + rest),
                    Conf(State(false, true, Done, BlocksOut([], bs)), rest))
  {
    hide Reaches, DeflateBits, BlocksOut, GoodBlocks;
    var bits := DeflateBits(bs, 0) + rest;
    var o := BlocksOut([], bs);
    var c0 := Conf(State(false, false, Head, []), bits);
    var c1 := Conf(State(false, false, Type, []), bits);
    var c2 := Conf(State(false, true, Check, o), rest);
    RawEnds(o, bits, rest);
    DeflateRound(false, bs, 0, bits, rest);
    ReachesTrans(c0, c1, c2);
    ReachesTrans(c0, c2, Conf(State(false, true, Done, o), rest));
  }

  /** The zlib header deflate writes, with the window size and the level flags, as a 16-bit big-endian number. */
  function ZlibHeader(wbits: nat, level: nat): nat {
    var h := (8 + (if wbits >= 8 then wbits - 8 else 0) * 16) * 256 + level * 64;
    h + 31 - h % 31
  }

  function ZlibHeaderBits(wbits: nat, level: nat): seq<bool> {
    BytesBits([ZlibHeader(wbits, level) / 256, ZlibHeader(wbits, level) % 256])
  }

  lemma HeaderValue(wbits: nat, level: nat)
    requires 8 <= wbits <= 15 && level < 4
    ensures ZlibHeader(wbits, level) / 256 == 8 + (wbits - 8) * 16
    ensures ZlibHeader(wbits, level) % 31 == 0
    ensures ZlibHeader(wbits, level) % 256 / 32 % 2 == 0
  {
    var g := 8 + (wbits - 8) * 16;
    var h := g * 256 + level * 64;
    var q, r := h / 31, h % 31;
    assert h == 31 * q + r;
    HeaderParts(g, level, 31 - r, ZlibHeader(wbits, level));
    DivMod(ZlibHeader(wbits, level), 31, q + 1, 0);
  }

  lemma HeaderParts(g: nat, level: nat, check: nat, h: nat)
    requires level < 4 && 1 <= check <= 31 && h == g * 256 + level * 64 + check
    ensures h / 256 == g && h % 256 / 32 % 2 == 0
  {
    var e := level * 64 + check;
    assert h % 256 == e && e / 32 == 2 * level + check / 32;
  }

  lemma HeaderRead(s: State, wbits: nat, level: nat, bits: seq<bool>, rest: seq<bool>)
    requires s.wrap && s.phase == Head && 8 <= wbits <= 15 && level < 4 && bits == ZlibHeaderBits(wbits, level) + rest
    ensures Reaches(Conf(s, bits), Conf(At(s, Type), rest))
  {
    hide Reaches, ToBits, Take, ZlibHeader;
    var h := ZlibHeader(wbits, level);
    var hi, lo := h / 256, h % 256;
    HeaderValue(wbits, level);
    BytesBitsAppend([hi], [lo]);
    assert [hi] + [lo] == [hi, lo];
    OneByte(hi);
    OneByte(lo);
    Pow2Values();
    ToBitsAppend(hi, 8, lo, 8);
    assert BytesBits([hi, lo]) == ToBits(hi + lo * 256, 16);
    TakeFront(hi + lo * 256, 16, bits, rest);
    HeaderFields(wbits, hi, lo);
    assert HeaderStep(s, hi + lo * 256) == Next(At(s, Type), 16);
    ReachesNext(Conf(s, bits), Conf(At(s, Type), rest), 16);
  }

  lemma HeaderFields(wbits: nat, hi: nat, lo: nat)
    requires 8 <= wbits <= 15 && hi == 8 + (wbits - 8) * 16 && lo < 256
    ensures (hi + lo * 256) % 256 == hi && (hi + lo * 256) / 256 == lo
    ensures (hi + lo * 256) % 16 == 8 && (hi + lo * 256) / 16 % 16 == wbits - 8 && (hi + lo * 256) / 8192 == lo / 32
  {
  }

  /** A zlib stream: header, blocks, and the Adler-32 of the data. */
  ghost function ZlibBits(wbits: nat, level: nat, bs: seq<Block>): seq<bool>
    requires GoodBlocks([], bs)
  {
    ZlibHeaderBits(wbits, level) + (DeflateBits(bs, 16) + TrailerBits(Pack(Adler(BlocksOut([], bs)))))
  }

  lemma TrailerRound(o: seq<byte>, bits: seq<bool>, rest: seq<bool>)
    requires bits == TrailerBits(Pack(Adler(o))) + rest
    ensures Reaches(Conf(State(true, true, Check, o), bits), Conf(State(true, true, Done, o), rest))
  {
    hide Reaches, TrailerBits, Adler32.Adler, Pack, Take, Reverse4;
    PackFits(o);
    TrailerTake(Pack(Adler(o)), bits, rest);
    ReachesNext(Conf(State(true, true, Check, o), bits), Conf(State(true, true, Done, o), rest), 32);
  }

  /** Zlib streams round-trip, with the check value accepted. */
  lemma ZlibRound(wbits: nat, level: nat, bs: seq<Block>, rest: seq<bool>)
    requires 8 <= wbits <= 15 && level < 4 && |bs| > 0 && GoodBlocks([], bs) && |rest| % 8 == 0
    ensures Reaches(Conf(State(true, false, Head, []), ZlibBits(wbits, level, bs) + rest),
                    Conf(State(true, true, Done, BlocksOut([], bs)), rest))
  {
    hide Reaches, DeflateBits, BlocksOut, GoodBlocks, TrailerBits, ZlibHeaderBits, Adler32.Adler, Pack;
    var o := BlocksOut([], bs);
    var b2 := TrailerBits(Pack(Adler(o))) + rest;
    var b1 := DeflateBits(bs, 16) + b2;
    var bits := ZlibBits(wbits, level, bs) + rest;
    Associative(DeflateBits(bs, 16), TrailerBits(Pack(Adler(o))), rest);
    Associative(ZlibHeaderBits(wbits, level), DeflateBits(bs, 16) + TrailerBits(Pack(Adler(o))), rest);
    var c0, c1 := Conf(State(true, false, Head, []), bits), Conf(State(true, false, Type, []), b1);
    var c2, c3 := Conf(State(true, true, Check, o), b2), Conf(State(true, true, Done, o), rest);
    HeaderRead(c0.s, wbits, level, bits, b1);
    DeflateRound(true, bs, 16, b1, b2);
    TrailerRound(o, b2, rest);
    ReachesTrans(c0, c1, c2);
    ReachesTrans(c0, c2, c3);
  }

  lemma TrailerWrong(o: seq<byte>, t: seq<bool>, rest: seq<bool>)
    requires |t| == 32 && Reverse4(Take(t, 32)) != Pack(Adler(o))
    ensures Reaches(Conf(State(true, true, Check, o), t + rest), Conf(State(true, true, Bad, o), t + rest))
  {
    hide Reaches, Adler32.Adler, Pack, Take, Reverse4;
    var s, bits := State(true, true, Check, o), t + rest;
    TakeStable(t, rest, 0, 32);
    assert bits[0..] == bits;
    ReachesNext(Conf(s, bits), Conf(State(true, true, Bad, o), bits), 0);
  }

  /** With any other check value the stream is rejected, after all of its output. */
  lemma ZlibRejects(wbits: nat, level: nat, bs: seq<Block>, t: seq<bool>, rest: seq<bool>)
    requires 8 <= wbits <= 15 && level < 4 && |bs| > 0 && GoodBlocks([], bs) && |rest| % 8 == 0
    requires |t| == 32 && Reverse4(Take(t, 32)) != Pack(Adler(BlocksOut([], bs)))
    ensures Reaches(Conf(State(true, false, Head, []), ZlibHeaderBits(wbits, level) + (DeflateBits(bs, 16) + (t + rest))),
                    Conf(State(true, true, Bad, BlocksOut([], bs)), t + rest))
  {
    hide Reaches, DeflateBits, BlocksOut, GoodBlocks, ZlibHeaderBits, Adler32.Adler, Pack, Take, Reverse4;
    var o, b1 := BlocksOut([], bs), DeflateBits(bs, 16) + (t + rest);
    var bits := ZlibHeaderBits(wbits, level) + b1;
    var c0, c1 := Conf(State(true, false, Head, []), bits), Conf(State(true, false, Type, []), b1);
    var c2, c3 := Conf(State(true, true, Check, o), t + rest), Conf(State(true, true, Bad, o), t + rest);
    HeaderRead(c0.s, wbits, level, bits, b1);
    DeflateRound(true, bs, 16, b1, t + rest);
    TrailerWrong(o, t, rest);
    ReachesTrans(c0, c1, c2);
    ReachesTrans(c0, c2, c3);
  }

  /** What comes before the first block brings the machine to it. */
  lemma OriginRound(wrap: bool, wbits: nat, level: nat, bits: seq<bool>, rest: seq<bool>)
    requires 8 <= wbits <= 15 && level < 4 && bits == (if wrap then ZlibHeaderBits(wbits, level) else []) + rest
    ensures Reaches(Conf(State(wrap, false, Head, []), bits), Conf(State(wrap, false, Type, []), rest))
  {
    hide Reaches, ZlibHeaderBits;
    if wrap {
      HeaderRead(State(true, false, Head, []), wbits, level, bits, rest);
    } else {
      assert bits == rest;
      RawEnds([], bits, rest);
    }
  }

  /** A stream that has not been finished: inflate gets the output of all its blocks. */
  lemma OpenRound(wrap: bool, wbits: nat, level: nat, bs: seq<Block>, bits: seq<bool>)
    requires 8 <= wbits <= 15 && level < 4 && GoodBlocks([], bs) && |bits| % 8 == 0
    requires var origin := if wrap then ZlibHeaderBits(wbits, level) else []; bits == origin + BlocksBits([], bs, false, |origin|)
    ensures Reaches(Conf(State(wrap, false, Head, []), bits), Conf(State(wrap, false, Type, BlocksOut([], bs)), []))
  {
    hide Reaches, ZlibHeaderBits, BlocksBits, BlocksOut, GoodBlocks;
    var origin := if wrap then ZlibHeaderBits(wbits, level) else [];
    var b := BlocksBits([], bs, false, |origin|);
    var s := State(wrap, false, Type, []);
    OriginRound(wrap, wbits, level, bits, b);
    assert b + [] == b;
    BlocksRound(s, bs, false, |origin|, b, []);
    ReachesTrans(Conf(State(wrap, false, Head, []), bits), Conf(s, b), Conf(State(wrap, false, Type, BlocksOut([], bs)), []));
  }

  lemma PackFits(o: seq<byte>)
    ensures Pack(Adler(o)) < 0x1_0000_0000
  {
    UpdateInRange(Sums(1, 0), o);
  }
}
