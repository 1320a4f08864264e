/** deflate() of deflate.c: header, blocks, flush markers and trailer, and the whole-stream theorem: what it writes
    inflates to what it read. */
module Compressor {
  import opened Bits
  import opened Tokens
  import opened Traces
  import opened Machine
  import opened Runs
  import opened Chains
  import opened Matcher
  import opened Picks
  import opened BitWriter
  import opened Streams
  import opened BlockWriter
  import opened Encoder
  import opened Deflater
  import Adler32

  /** A row of configuration_table. */
  datatype Config = Config(good: nat, lazy: nat, nice: nat, chain: nat, slow: bool)

  function Configuration(level: nat): (c: Config)
    requires 1 <= level <= 9
    ensures c.chain >= 4 && c.good >= 4 && 8 <= c.nice <= 258 && 4 <= c.lazy <= 258
  {
    if level == 1 then Config(4, 4, 8, 4, false)
    else if level == 2 then Config(4, 5, 16, 8, false)
    else if level == 3 then Config(4, 6, 32, 32, false)
    else if level == 4 then Config(4, 4, 16, 16, true)
    else if level == 5 then Config(8, 16, 32, 32, true)
    else if level == 6 then Config(8, 16, 128, 128, true)
    else if level == 7 then Config(8, 32, 128, 256, true)
    else if level == 8 then Config(32, 128, 258, 1024, true)
    else Config(32, 258, 258, 4096, true)
  }

  /** level_flags of the zlib header. */
  function LevelFlags(level: nat, strategy: Strategy): (f: nat)
    ensures f < 4
  {
    if strategy.HuffmanOnly? || strategy.Rle? || strategy.FixedStrategy? || level < 2 then 0
    else if level < 6 then 1 else if level == 6 then 2 else 3
  }

  /** What deflate returns. */
  datatype Code = Ok | StreamEnd | StreamError | BufError

  /** The call was refused. */
  predicate Refused(c: Code) { c == StreamError || c == BufError }

  /** What comes before the first block. */
  function Origin(wrap: bool, wbits: nat, flags: nat): seq<bool> { if wrap then ZlibHeaderBits(wbits, flags) else [] }

  /** The order of the flush values. */
  function Rank(f: Flush): nat {
    match f case NoFlush => 0 case PartialFlush => 1 case SyncFlush => 2 case FullFlush => 3 case Finish => 4
  }

  /** The greatest distance for a window of 2^wbits bytes. */
  function Farthest(wbits: nat): int { Pow2(wbits) - MIN_LOOKAHEAD }

  /** A finished stream: header, blocks and trailer. No match in it reaches back farther than the window that its header
      declares, less the lookahead. */
  ghost predicate Whole(wrap: bool, wbits: nat, flags: nat, bits: seq<bool>, blocks: seq<Block>, x: seq<byte>) {
    && |blocks| > 0 && GoodBlocks([], blocks) && BlocksOut([], blocks) == x && NearBlocks(blocks, Farthest(wbits))
    && bits == if wrap then ZlibBits(wbits, flags, blocks) else DeflateBits(blocks, 0)
  }

  /** The last block and the padding, then the trailer, finish the stream. */
  lemma WroteAll(wrap: bool, wbits: nat, flags: nat, bits: seq<bool>, blocks: seq<Block>, x: seq<byte>)
    requires Wrote(bits, Origin(wrap, wbits, flags), blocks, x, |x|, true, Farthest(wbits))
    ensures !wrap ==> Whole(wrap, wbits, flags, bits, blocks, x)
    ensures wrap ==> Whole(wrap, wbits, flags, bits + TrailerBits(Adler32.Pack(Adler32.Adler(x))), blocks, x)
  {
    hide GoodBlocks, BlocksOut, BlocksBits, NearBlocks, TrailerBits, Adler32.Pack, Adler32.Adler;
    assert x[..|x|] == x;
    var p := |Origin(wrap, wbits, flags)|;
    var b := BlocksBits([], blocks, true, p);
    if wrap {
      assert p == 16;
      PaddedAfter(ZlibHeaderBits(wbits, flags), b);
      Associative(ZlibHeaderBits(wbits, flags), DeflateBits(blocks, 16), TrailerBits(Adler32.Pack(Adler32.Adler(x))));
    } else {
      assert [] + b == b;
    }
  }

  lemma ByteParts(x: nat)
    requires x < 0x1_0000_0000
    ensures x / 65536 / 256 == ByteAt(x, 16777216) && x / 65536 % 256 == ByteAt(x, 65536)
    ensures x % 65536 / 256 == ByteAt(x, 256) && x % 65536 % 256 == ByteAt(x, 1)
  {
    var h, l := x / 65536, x % 65536;
    HighByte(x, h, l);
    LowBytes(x, h, l);
  }

  lemma HighByte(x: nat, h: nat, l: nat)
    requires x == h * 65536 + l && l < 65536 && h < 65536
    ensures x / 16777216 == h / 256
  {
    var a, b := h / 256, h % 256;
    assert x == a * 16777216 + (b * 65536 + l);
  }

  lemma LowBytes(x: nat, h: nat, l: nat)
    requires x == h * 65536 + l && l < 65536
    ensures x / 256 % 256 == l / 256 && x % 256 == l % 256
  {
    var a, b := l / 256, l % 256;
    assert x == (h * 256 + a) * 256 + b;
  }

  /** The four bytes of the check value after whole bytes. */
  lemma TrailerSent(p: seq<nat>, q: seq<nat>, x: nat)
    requires x < 0x1_0000_0000 && q == p + [x / 65536 / 256, x / 65536 % 256] + [x % 65536 / 256, x % 65536 % 256]
    ensures BytesBits(q) == BytesBits(p) + TrailerBits(x)
  {
    hide BytesBits, ByteAt;
    ByteParts(x);
    var t := [ByteAt(x, 16777216), ByteAt(x, 65536), ByteAt(x, 256), ByteAt(x, 1)];
    assert q == p + t;
    BytesBitsAppend(p, t);
  }

  lemma PaddedAfter(h: seq<bool>, b: seq<bool>)
    ensures Padded(h + b, 0) == h + Padded(b, |h|)
  {
  }

  /** The theorem: inflating a finished stream gives the input back, accepts the check value, and leaves whatever
      follows the stream unread. */
  lemma InflatesBack(wrap: bool, wbits: nat, flags: nat, bits: seq<bool>, blocks: seq<Block>, x: seq<byte>, rest: seq<bool>)
    requires Whole(wrap, wbits, flags, bits, blocks, x) && 8 <= wbits <= 15 && flags < 4 && |rest| % 8 == 0
    ensures Reaches(Conf(State(wrap, false, Head, []), bits + rest), Conf(State(wrap, true, Done, x), rest))
  {
    hide Reaches, DeflateBits, ZlibBits, BlocksOut, GoodBlocks;
    if wrap {
      ZlibRound(wbits, flags, blocks, rest);
    } else {
      RawRound(blocks, rest);
    }
  }

  /** Which parts of the stream have been written. */
  datatype Status = Busy | Finishing | Finished

  /** The part of a finished stream after the restart: raw blocks that stand for the input since then, and the trailer. */
  ghost predicate Reopens(bits: seq<bool>, trailer: seq<bool>, blocks: seq<Block>, x: seq<byte>, low: nat, cut: nat, bytes: nat) {
    && low <= |x| && cut < |blocks| && 8 * bytes <= |bits| && GoodBlocks([], blocks[cut..]) && BlocksOut([], blocks[cut..]) == x[low..]
    && bits[8 * bytes..] == DeflateBits(blocks[cut..], 0) + trailer
  }

  lemma ReopensRound(bits: seq<bool>, trailer: seq<bool>, blocks: seq<Block>, x: seq<byte>, low: nat, cut: nat, bytes: nat, rest: seq<bool>)
    requires Reopens(bits, trailer, blocks, x, low, cut, bytes) && |trailer| % 8 == 0 && |rest| % 8 == 0
    ensures low <= |x| && 8 * bytes <= |bits|
    ensures Reaches(Conf(State(false, false, Head, []), bits[8 * bytes..] + rest), Conf(State(false, true, Done, x[low..]), trailer + rest))
  {
    hide Reaches, DeflateBits, GoodBlocks, BlocksOut;
    var bs := blocks[cut..];
    Associative(DeflateBits(bs, 0), trailer, rest);
    RawRound(bs, trailer + rest);
  }

  lemma JournalReopens(t: Tuning, bits: seq<bool>, trailer: seq<bool>, low: nat, ends: set<nat>, cut: nat, bytes: nat, blocks: seq<Block>, done: seq<seq<Pick>>, x: seq<byte>)
    requires GoodTuning(t) && Journal(t, bits, low, ends, cut, bytes, blocks, done, x, |x|, true)
    ensures Reopens(bits + trailer, trailer, blocks, x, low, cut, bytes) && Explained(t, x, blocks, done)
    ensures forall i | cut <= i < |done| :: AllKnow(t, done[i], low, ends)
  {
    hide GoodBlocks, BlocksOut, BlocksBits, NearBlocks, Explained, Padded, AllKnow;
    var y, bs := x[low..], blocks[cut..];
    assert y[..|y|] == y;
    assert [] + BlocksBits([], bs, true, 0) == BlocksBits([], bs, true, 0);
    assert (bits + trailer)[8 * bytes..] == bits[8 * bytes..] + trailer;
  }

  class Compressor {
    const wrap: bool
    const wbits: nat
    const flags: nat
    const slow: bool
    const d: Deflater
    var status: Status
    /** The flush value of the last call, or -1 after a call that ran out of room. */
    var lastFlush: int

    ghost predicate Running()
      reads d`matchLength, d`matchAvailable, d`blocks, d`done, d`picks, d`last, d`ends, d`ended, d`availOut, d`flushed, d`span, d.m, d.m.window, d.m.head, d.m.prev, d.m.restart,
        d.c`lastLit, d.c`optLen, d.c`staticLen, d.c.b, d.c.Work(), d.c.Static()
    {
      && (if slow then d.SlowOk() else d.FastOk())
      && d.m.wrap == wrap && d.m.g.wsize == Pow2(wbits) && d.origin == Origin(wrap, wbits, flags) && 8 <= wbits <= 15 && flags < 4
      && (d.ended ==> d.BlockAt() == |d.m.input| && d.m.lookahead == 0)
    }

    ghost predicate Valid()
      reads `status, d`matchLength, d`matchAvailable, d`blocks, d`done, d`picks, d`last, d`ends, d`ended, d`availOut, d`flushed, d`span, d.m, d.m.window, d.m.head, d.m.prev, d.m.restart,
        d.c`lastLit, d.c`optLen, d.c`staticLen, d.c.b, d.c.Work(), d.c.Static()
    {
      match status
      case Busy => Running() && !d.ended
      case Finishing => Running() && d.ended
      case Finished => d.Flow() && d.c.b.biValid == 0 && d.m.lookahead == 0 && 8 <= wbits <= 15 && flags < 4 && Complete()
    }

    /** The stream is whole, its part since the restart can be read alone, and all of its tokens have their reasons. */
    ghost predicate Complete()
      reads d`blocks, d`done, d`ends, d.m`input, d.m.restart, d.c.b
    {
      && Whole(wrap, wbits, flags, d.c.b.Sent(), d.blocks, d.m.input)
      && Reopens(d.c.b.Sent(), CheckBits(), d.blocks, d.m.input, d.m.restart.at, d.m.restart.blocks, d.m.restart.bytes)
      && GoodTuning(d.Tune()) && Explained(d.Tune(), d.m.input, d.blocks, d.done) && Informed()
    }

    /** What the searches behind the tokens since the restart could know. */
    ghost predicate Informed()
      reads d`done, d`ends, d.m.restart
    {
      forall i | d.m.restart.blocks <= i < |d.done| :: AllKnow(d.Tune(), d.done[i], d.m.restart.at, d.ends)
    }

    /** The trailer. */
    ghost function CheckBits(): seq<bool>
      reads d.m`input
    {
      if wrap then TrailerBits(Adler32.Pack(Adler32.Adler(d.m.input))) else []
    }

    /** All of the input is in blocks that end on a byte boundary. */
    ghost predicate Settled()
      reads `status, d.m`base, d.m`blockStart, d.m`input, d.c.b
    {
      status == Busy && d.BlockAt() == |d.m.input| && d.c.b.biValid == 0
    }

    lemma SettledFacts()
      requires Valid() && Settled()
      ensures d.Written() && !d.ended && d.c.b.biValid == 0 && d.BlockAt() == |d.m.input|
      ensures d.origin == Origin(wrap, wbits, flags) && 8 <= wbits <= 15 && flags < 4
    {
      hide Deflater.SlowOk, Deflater.FastOk, Deflater.Written, Origin, Complete;
      d.Facts();
    }

    /** Everything written so far. */
    ghost function Sent(): seq<bool>
      reads d.c.b
    {
      d.c.b.Sent()
    }

    constructor (d: Deflater, wrap: bool, wbits: nat, flags: nat, slow: bool)
      requires (if slow then d.SlowOk() else d.FastOk()) && !d.ended && d.m.wrap == wrap && d.m.g.wsize == Pow2(wbits) && d.origin == Origin(wrap, wbits, flags)
      requires 8 <= wbits <= 15 && flags < 4
      ensures Valid() && status == Busy && this.d == d && this.wrap == wrap && this.wbits == wbits && this.flags == flags && this.slow == slow && lastFlush == 0
    {
      hide Deflater.SlowOk, Deflater.FastOk;
      this.wrap, this.wbits, this.flags, this.slow, this.d, this.status := wrap, wbits, flags, slow, d, Busy;
      lastFlush := 0;
      new;
      assert forall o: object | o in d.c.Work() + d.c.Static() :: o != this;
    }

    /** One run of the compressor over what there is of the input. */
    method Run(nextIn: seq<byte>, flush: Flush) returns (rest: seq<byte>, state: BlockState)
      requires Running() && !d.ended
      modifies this`status, d, d.m, d.m.window, d.m.head, d.m.prev, d.c`lastLit, d.c`matches, d.c`optLen, d.c`staticLen, d.c`lastEobLen,
        d.c.b, d.c.Work()
      ensures Running() && Consumed(nextIn, rest, old(d.m.input), d.m.input)
      ensures d.ended <==> state.FinishStarted? || state.FinishDone?
      ensures status == if d.ended then Finishing else old(status)
      ensures d.ended ==> flush == Finish
      ensures flush == Finish ==> !state.BlockDone?
      ensures !state.NeedMore? ==> rest == [] && d.BlockAt() == |d.m.input| && d.m.lookahead == 0
      ensures state.NeedMore? || state.FinishStarted? ==> d.availOut == 0 || (flush == NoFlush && rest == [])
      ensures state.BlockDone? || state.FinishDone? ==> d.availOut > 0 && d.flushed == |d.c.b.pending| && flush != NoFlush
      ensures d.span == old(d.span) && (!state.NeedMore? ==> d.c.lastLit == 0)
      ensures d.ends == old(d.ends) || (flush != NoFlush && rest == [] && d.ends == old(d.ends) + {|d.m.input|})
    {
      hide Deflater.SlowOk, Deflater.FastOk, Consumed, Origin;
      if slow {
        rest, state := d.DeflateSlow(nextIn, flush);
      } else {
        rest, state := d.DeflateFast(nextIn, flush);
      }
      Apart();
      if state.FinishStarted? || state.FinishDone? {
        status := Finishing;
      }
    }

    lemma Flowing()
      requires Valid()
      ensures d.Flow()
    {
      hide Deflater.SlowOk, Deflater.FastOk, Whole;
      if status != Finished {
        d.Facts();
      }
    }

    /** The compressor is not one of the arrays of its parts. */
    lemma Apart()
      ensures forall o: object | o in d.c.Work() + d.c.Static() :: o != this
    {
    }

    /** Writes the check value. */
    method Trailer()
      requires Running() && d.ended && wrap
      modifies this`status, d.c.b`pending
      ensures Valid() && status == Finished && d.span == old(d.span)
    {
      hide Deflater.SlowOk, Deflater.FastOk, Whole, Reopens, Wrote, Journal, ZlibHeader, TrailerBits, Adler32.Pack, Adler32.Adler, BytesBits;
      ghost var sent := Sent();
      var x := d.m.adler;
      d.Facts();
      PackFits(d.m.input);
      assert x == Adler32.Pack(Adler32.Adler(d.m.input));
      assert d.c.b.biValid == 0;
      WroteAll(wrap, wbits, flags, sent, d.blocks, d.m.input);
      JournalReopens(d.Tune(), sent, CheckBits(), d.m.restart.at, d.ends, d.m.restart.blocks, d.m.restart.bytes, d.blocks, d.done, d.m.input);
      PutShortMsb(d.c.b, x / 65536);
      PutShortMsb(d.c.b, x % 65536);
      status := Finished;
      TrailerSent(old(d.c.b.pending), d.c.b.pending, x);
      assert Sent() == sent + TrailerBits(x);
    }

    /** How many bytes have been written and not put out. */
    ghost function Lag(): int
      reads d`flushed, d.c.b`pending
    {
      |d.c.b.pending| - d.flushed
    }

    /** There is no room; or there is nothing to do, and the last call has done it already; or there is more input after
        the end, which is noticed once the rest has been put out. */
    ghost predicate Idles(nextIn: seq<byte>, room: nat, flush: Flush)
      reads `status, `lastFlush, d`flushed, d.c.b`pending
    {
      || room == 0 || (Lag() == 0 && nextIn == [] && flush != Finish && Rank(flush) <= lastFlush)
      || (status != Busy && nextIn != [] && (Lag() == 0 || room > Lag()))
    }

    /** deflate. room is the space at next_out, of which availOut is left at the end; what is put there are the pending
        bytes from the old value of flushed to the new one. A call is refused for the stated reasons only. After a full
        flush that is complete, the restart is at the end of what has been read and written; no other call moves it. Only
        the input of a call with a flush value comes to an end that the searches notice. */
    method Deflate(nextIn: seq<byte>, room: nat, flush: Flush) returns (rest: seq<byte>, code: Code)
      requires Valid()
      modifies this`status, this`lastFlush, d, d.m, d.m.window, d.m.head, d.m.prev, d.m.restart,
        d.c`lastLit, d.c`matches, d.c`optLen, d.c`staticLen, d.c`lastEobLen, d.c.b, d.c.Work()
      ensures Valid() && Consumed(nextIn, rest, old(d.m.input), d.m.input)
      ensures d.availOut + d.flushed == room + old(d.flushed) && old(d.flushed) <= d.flushed <= |d.c.b.pending|
      ensures code == StreamEnd ==> status == Finished && rest == [] && flush == Finish && d.flushed == |d.c.b.pending|
      ensures code == StreamError <==> old(status) != Busy && flush != Finish
      ensures code == BufError <==> code != StreamError && old(Idles(nextIn, room, flush))
      ensures lastFlush == if code == StreamError || room == 0 then old(lastFlush)
                           else if code == Ok && d.availOut == 0 && (status != Finished || old(status) == Finished) then -1 else Rank(flush)
      ensures Refused(code) || old(status) == Finished ==> rest == nextIn && status == old(status) && Sent() == old(Sent())
      ensures old(status) != Busy && flush != Finish ==> Refused(code)
      ensures old(status) == Busy && status != Busy ==> flush == Finish && rest == []
      ensures code == Ok && d.availOut > 0 ==> rest == [] && flush != Finish
      ensures code == Ok && d.availOut > 0 && (flush == SyncFlush || flush == FullFlush) ==> Settled() && d.flushed == |d.c.b.pending|
      ensures room > 0 && flush == Finish && (old(status) == Busy || nextIn == []) ==> code == Ok || code == StreamEnd
      ensures old(status) == Busy && room > 0 && nextIn != [] ==> !Refused(code)
      ensures unchanged(d.m.restart) || (flush == FullFlush && d.AtRestart())
      ensures code == Ok && d.availOut > 0 && flush == FullFlush ==> d.AtRestart()
      ensures d.ends == old(d.ends) || (flush != NoFlush && rest == [] && d.ends == old(d.ends) + {|d.m.input|})
    {
      hide Journal, Reopens, Explained, AllKnow, Deflater.SlowOk, Deflater.FastOk, Whole, Wrote, Consumed, BitBuffer.Sent, Origin;
      rest := nextIn;
      ConsumedNone(nextIn, d.m.input);
      Apart();
      SetRoom(room);
      Flowing();
      if status != Busy && flush != Finish {
        return rest, StreamError;
      }
      if room == 0 {
        return rest, BufError;
      }
      var stop;
      stop, code := FlushFirst(nextIn, flush);
      if !stop {
        rest, code := Proceed(nextIn, flush);
      }
      Flowing();
    }

    /** Puts out what is pending; without anything to do the call is refused. */
    method FlushFirst(nextIn: seq<byte>, flush: Flush) returns (stop: bool, code: Code)
      requires Valid() && d.availOut > 0
      modifies this`lastFlush, d`availOut, d`flushed
      ensures Valid()
      ensures if stop then code == BufError || (code == Ok && d.availOut == 0) else code == Ok && d.availOut > 0 && d.flushed == |d.c.b.pending| && (status == Busy || nextIn == [])
      ensures code == BufError <==> old(Idles(nextIn, d.availOut, flush))
      ensures lastFlush == if stop && code == Ok then -1 else Rank(flush)
    {
      hide Journal, Reopens, Explained, AllKnow, Deflater.SlowOk, Deflater.FastOk, Whole, Deflater.Flow;
      Apart();
      var oldFlush := lastFlush;
      lastFlush := Rank(flush);
      if d.flushed != |d.c.b.pending| {
        FlushOut();
        if d.availOut == 0 {
          lastFlush := -1;
          return true, Ok;
        }
      } else if nextIn == [] && Rank(flush) <= oldFlush && flush != Finish {
        return true, BufError;
      }
      if status != Busy && nextIn != [] {
        return true, BufError;
      }
      return false, Ok;
    }

    /** The rest of deflate: a run of the compressor if there is something to do, and the end of the stream. */
    method Proceed(nextIn: seq<byte>, flush: Flush) returns (rest: seq<byte>, code: Code)
      requires Valid() && d.availOut > 0 && d.flushed == |d.c.b.pending| && (status == Busy || (nextIn == [] && flush == Finish))
      modifies this`status, this`lastFlush, d, d.m, d.m.window, d.m.head, d.m.prev, d.m.restart,
        d.c`lastLit, d.c`matches, d.c`optLen, d.c`staticLen, d.c`lastEobLen, d.c.b, d.c.Work()
      ensures Valid() && Consumed(nextIn, rest, old(d.m.input), d.m.input) && d.span == old(d.span)
      ensures code == StreamEnd ==> status == Finished && rest == [] && flush == Finish && d.flushed == |d.c.b.pending|
      ensures code == Ok || code == StreamEnd
      ensures lastFlush == if code == Ok && d.availOut == 0 && (status != Finished || old(status) == Finished) then -1 else old(lastFlush)
      ensures old(status) == Finished ==> rest == nextIn && status == Finished && Sent() == old(Sent())
      ensures old(status) == Busy && status != Busy ==> flush == Finish && rest == []
      ensures code == Ok && d.availOut > 0 ==> rest == [] && flush != Finish
      ensures code == Ok && d.availOut > 0 && (flush == SyncFlush || flush == FullFlush) ==> Settled() && d.flushed == |d.c.b.pending|
      ensures unchanged(d.m.restart) || (flush == FullFlush && d.AtRestart())
      ensures code == Ok && d.availOut > 0 && flush == FullFlush ==> d.AtRestart()
      ensures d.ends == old(d.ends) || (flush != NoFlush && rest == [] && d.ends == old(d.ends) + {|d.m.input|})
    {
      hide Journal, Reopens, Explained, AllKnow, Deflater.SlowOk, Deflater.FastOk, Whole, Wrote, Consumed, BitBuffer.Sent, Origin, Deflater.Flow;
      rest := nextIn;
      ConsumedNone(nextIn, d.m.input);
      Idle();
      if nextIn != [] || d.m.lookahead != 0 || (flush != NoFlush && status == Busy) {
        var stop;
        rest, stop := Compress(nextIn, flush);
        if stop {
          return rest, Ok;
        }
      }
      if flush != Finish {
        return rest, Ok;
      }
      code := Close();
    }

    /** After the last block there is no input left. */
    lemma Idle()
      requires Valid()
      ensures status != Busy ==> d.m.lookahead == 0
    {
      hide Journal, Reopens, Explained, AllKnow, Deflater.SlowOk, Deflater.FastOk, Whole;
    }

    /** The caller's room for output. */
    method SetRoom(room: nat)
      requires Valid()
      modifies d`availOut, d`span
      ensures Valid() && d.availOut == room && d.span == Span(d.flushed, room + d.flushed)
    {
      hide Journal, Reopens, Explained, AllKnow, Deflater.SlowOk, Deflater.FastOk, Whole;
      Flowing();
      d.SetRoom(room);
    }

    method FlushOut()
      requires Valid()
      modifies d`availOut, d`flushed
      ensures Valid() && d.flushed >= old(d.flushed) && (d.availOut > 0 ==> d.flushed == |d.c.b.pending|)
      ensures d.availOut > 0 <==> old(d.availOut) > old(Lag())
    {
      hide Journal, Reopens, Explained, AllKnow, Deflater.SlowOk, Deflater.FastOk, Whole;
      Flowing();
      d.PutOut();
    }

    /** A run of the compressor, and the marker after a flush; stop says that deflate returns after it. */
    method Compress(nextIn: seq<byte>, flush: Flush) returns (rest: seq<byte>, stop: bool)
      requires Valid() && status == Busy
      modifies this`status, this`lastFlush, d, d.m, d.m.window, d.m.head, d.m.prev, d.m.restart,
        d.c`lastLit, d.c`matches, d.c`optLen, d.c`staticLen, d.c`lastEobLen, d.c.b, d.c.Work()
      ensures Valid() && Consumed(nextIn, rest, old(d.m.input), d.m.input) && d.span == old(d.span)
      ensures status == Busy || (status == Finishing && rest == [] && flush == Finish)
      ensures if stop then d.availOut == 0 || (flush == NoFlush && rest == []) else rest == [] && d.availOut > 0 && d.flushed == |d.c.b.pending|
      ensures !stop && flush == Finish ==> status == Finishing
      ensures lastFlush == if stop && d.availOut == 0 then -1 else old(lastFlush)
      ensures !stop && (flush == SyncFlush || flush == FullFlush) ==> Settled()
      ensures unchanged(d.m.restart) || (flush == FullFlush && d.AtRestart())
      ensures !stop && flush == FullFlush ==> d.AtRestart()
      ensures d.ends == old(d.ends) || (flush != NoFlush && rest == [] && d.ends == old(d.ends) + {|d.m.input|})
    {
      hide Journal, Reopens, Explained, AllKnow, Deflater.SlowOk, Deflater.FastOk, Whole, Wrote, Consumed, BitBuffer.Sent, Origin;
      var state: BlockState;
      Apart();
      rest, state := Run(nextIn, flush);
      if state.NeedMore? || state.FinishStarted? {
        if d.availOut == 0 {
          lastFlush := -1;
        }
        return rest, true;
      }
      if state.BlockDone? {
        d.Flushed(flush);
        FlushOut();
        if d.availOut == 0 {
          lastFlush := -1;
          return rest, true;
        }
      }
      stop := false;
    }

    /** The end of the stream: the trailer is written once. */
    method Close() returns (code: Code)
      requires Valid() && status != Busy
      modifies this`status, d`availOut, d`flushed, d.c.b`pending
      ensures Valid() && status == Finished && d.flushed >= old(d.flushed) && (code == StreamEnd || (code == Ok && d.availOut == 0))
      ensures code == StreamEnd && old(d.flushed == |d.c.b.pending|) ==> d.flushed == |d.c.b.pending|
      ensures old(status) == Finished ==> Sent() == old(Sent()) && code == StreamEnd
      ensures d.span == old(d.span)
    {
      hide Journal, Reopens, Explained, AllKnow, Deflater.SlowOk, Deflater.FastOk, Whole, Wrote, Origin;
      if status == Finished {
        return StreamEnd;
      }
      if !wrap {
        d.Facts();
        WroteAll(wrap, wbits, flags, Sent(), d.blocks, d.m.input);
        JournalReopens(d.Tune(), Sent(), [], d.m.restart.at, d.ends, d.m.restart.blocks, d.m.restart.bytes, d.blocks, d.done, d.m.input);
        assert Sent() + [] == Sent();
        status := Finished;
        return StreamEnd;
      }
      Trailer();
      FlushOut();
      code := if d.flushed != |d.c.b.pending| then Ok else StreamEnd;
    }

    /** All matches of a finished stream stay in the window that its header declares. */
    lemma Distances(i: nat, j: nat)
      requires Valid() && status == Finished && i < |d.blocks| && !d.blocks[i].StoredBlock? && j < |d.blocks[i].tokens|
      requires d.blocks[i].tokens[j].Match?
      ensures d.blocks[i].tokens[j].dist <= Farthest(wbits)
    {
      hide GoodBlocks, BlocksOut, ZlibBits, DeflateBits;
      assert NearBlock(d.blocks[i], Farthest(wbits));
    }

    /** After a full flush decompression can start anew: a raw decoder that begins with the first byte after it gets exactly
        the input since then, and stops before the trailer. */
    lemma RestartTrip(rest: seq<bool>)
      requires Valid() && status == Finished && |rest| % 8 == 0
      ensures d.m.restart.at <= |d.m.input| && 8 * d.m.restart.bytes <= |Sent()|
      ensures Reaches(Conf(State(false, false, Head, []), Sent()[8 * d.m.restart.bytes..] + rest),
                      Conf(State(false, true, Done, d.m.input[d.m.restart.at..]), CheckBits() + rest))
    {
      hide Reaches, Reopens, TrailerBits, Whole, Explained, Adler32.Pack, Adler32.Adler;
      var r := d.m.restart;
      ReopensRound(d.c.b.Sent(), CheckBits(), d.blocks, d.m.input, r.at, r.blocks, r.bytes, rest);
    }

    /** In every state all tokens written have their reasons. */
    lemma AllExplained()
      requires Valid()
      ensures GoodTuning(d.Tune()) && Explained(d.Tune(), d.m.input, d.blocks, d.done) && GoodBlocks([], d.blocks) && Informed()
    {
      hide Deflater.SlowOk, Deflater.FastOk, Explained, GoodBlocks, ZlibBits, DeflateBits, BlocksBits, BlocksOut, Reopens;
      if status != Finished {
        d.Facts();
      }
    }

    /** The reason of a token is a search at the position where it stands. Since the restart it knew all strings from there on
        but those it skipped, and 262 bytes ahead unless a call with a flush value ended before. */
    lemma TokenReason(i: nat, j: nat)
      requires Valid() && i < |d.blocks| && !d.blocks[i].StoredBlock? && j < |d.blocks[i].tokens|
      ensures GoodTuning(d.Tune()) && i < |d.done| && j < |d.done[i]| && Fits(d.Tune(), d.m.input, d.done[i][j], d.blocks[i].tokens[j])
      ensures d.done[i][j].found.at == |Expand(BlocksOut([], d.blocks[..i]), d.blocks[i].tokens[..j])|
      ensures d.m.restart.blocks <= i ==> KnowsBoth(d.Tune(), d.done[i][j], d.m.restart.at, d.ends)
    {
      hide Valid, Reasoned, Fits, GoodBlocks, BlocksOut, GoodBlock, Expand, ValidTokens;
      AllExplained();
      GoodAt([], d.blocks, i);
      assert ExplainedAt(d.Tune(), d.m.input, d.blocks, d.done[i], i);
      TokensValid(BlocksOut([], d.blocks[..i]), d.blocks[i]);
      EachFits(d.Tune(), d.m.input, BlocksOut([], d.blocks[..i]), d.done[i], d.blocks[i].tokens, |BlocksOut([], d.blocks[..i + 1])|, j);
    }

    /** Why a byte is written as a literal although three bytes could be seen: within reach nothing agrees in three bytes,
        or the match was given up or put off. */
    lemma LiteralWritten(i: nat, j: nat)
      requires Valid() && i < |d.blocks| && !d.blocks[i].StoredBlock? && j < |d.blocks[i].tokens| && d.blocks[i].tokens[j].Literal?
      requires i < |d.done| && j < |d.done[i]| && d.done[i][j].found.at + 2 < |d.done[i][j].found.x| && Searching(d.Tune())
      ensures GoodTuning(d.Tune()) && d.done[i][j].found.x <= d.m.input
      ensures d.m.restart.blocks <= i ==> Knows(d.Tune(), d.done[i][j].found, d.m.restart.at, d.ends)
      ensures var p := d.done[i][j]; NoRepeat(d.Tune(), p.found, MIN_MATCH) || GivenUp(d.Tune(), p.found) || Deferred(p)
    {
      hide Valid, NoRepeat, Justified, GivenUp;
      TokenReason(i, j);
      LiteralReason(d.Tune(), d.m.input, d.done[i][j], d.blocks[i].tokens[j]);
    }

    /** A match is the longest within reach, unless it is nice, and the nearest of the longest looked at; and deflate_slow
        has found nothing longer at the next position. */
    lemma MatchWritten(i: nat, j: nat)
      requires Valid() && i < |d.blocks| && !d.blocks[i].StoredBlock? && j < |d.blocks[i].tokens| && d.blocks[i].tokens[j].Match?
      ensures GoodTuning(d.Tune()) && i < |d.done| && j < |d.done[i]| && d.done[i][j].found.x <= d.m.input
      ensures var t, s := d.blocks[i].tokens[j], d.done[i][j].found;
        && s.at - t.dist >= s.low && Repeated(s.x, s.at, s.at - t.dist, t.length, Far(d.Tune()))
        && Nearest(s.x, s.at, Looked(d.Tune(), s), s.at - t.dist, t.length)
        && (Searching(d.Tune()) && t.length < d.m.niceMatch ==> NoRepeat(d.Tune(), s, t.length + 1))
    {
      hide Valid, NoRepeat, Justified, GivenUp, Nearest, Repeated, Looked;
      TokenReason(i, j);
      MatchReason(d.Tune(), d.m.input, d.done[i][j], d.blocks[i].tokens[j]);
    }

    /** The round trip for the whole compressor: once it is finished, inflate returns the input. */
    lemma RoundTrip(rest: seq<bool>)
      requires Valid() && status == Finished && |rest| % 8 == 0
      ensures Reaches(Conf(State(wrap, false, Head, []), Sent() + rest), Conf(State(wrap, true, Done, d.m.input), rest))
    {
      InflatesBack(wrap, wbits, flags, Sent(), d.blocks, d.m.input, rest);
    }
  }

  /** The size of the window: the smallest is not used. */
  function WindowBits(bits: nat): nat { if bits == 8 then 9 else bits }

  /** The compressor has the parameters that the arguments of deflateInit2_ ask for, and nothing but the header is written. */
  ghost predicate Configured(z: Compressor, level: nat, bits: nat, memLevel: nat, strategy: Strategy)
    requires 1 <= level <= 9
    reads z.d.c.b, z.d`ends, z.d.m.restart, z`lastFlush
  {
    var cfg := Configuration(level);
    && z.wbits == WindowBits(bits) && z.flags == LevelFlags(level, strategy) && z.slow == cfg.slow
    && z.d.Tune() == Tuning(Geometry(memLevel + 7, (memLevel + 9) / 3, Pow2(WindowBits(bits))), strategy, cfg.slow, cfg.lazy, cfg.chain, cfg.good, cfg.nice)
    && z.d.c.litBufsize == Pow2(memLevel + 6) && (z.d.c.fixedOnly <==> strategy == FixedStrategy) && z.d.c.level == level
    && z.lastFlush == 0 && z.Sent() == Origin(z.wrap, z.wbits, z.flags) && z.d.ends == {} && z.d.m.restart.at == 0 && z.d.m.restart.blocks == 0
  }

  lemma OriginBytes(wrap: bool, wbits: nat, flags: nat)
    ensures |Origin(wrap, wbits, flags)| == 8 * if wrap then 2 else 0
  {
  }

  /** A compressor for checked parameters. The header, which deflate writes in its first call, is written at once. */
  method NewCompressor(level: nat, windowBits: nat, memLevel: nat, strategy: Strategy, wrap: bool) returns (z: Compressor)
    requires 1 <= level <= 9 && 8 <= windowBits <= 15 && 1 <= memLevel <= 9
    ensures z.Valid() && z.status == Busy && z.d.m.input == [] && z.d.flushed == 0 && z.wrap == wrap
    ensures Configured(z, level, windowBits, memLevel, strategy)
    ensures fresh(z) && fresh(z.d) && fresh(z.d.m) && fresh(z.d.m.window) && fresh(z.d.m.head) && fresh(z.d.m.prev) && fresh(z.d.m.restart)
    ensures fresh(z.d.c) && fresh(z.d.c.b) && fresh(z.d.c.Work())
  {
    hide TreeCoder.Valid, TreeCoder.Tallies, TreeCoder.Work, TreeCoder.Static, BitBuffer.Valid, BitBuffer.Sent, ZlibHeaderBits,
      Deflater.SlowOk, Deflater.FastOk, Matcher.Valid, Compressor.Valid, Origin;
    Pow2Values();
    var wbits := WindowBits(windowBits);
    var flags := LevelFlags(level, strategy);
    var cfg := Configuration(level);
    OriginBytes(wrap, wbits, flags);
    var m := new Matcher(Geometry(memLevel + 7, (memLevel + 9) / 3, Pow2(wbits)), wrap, cfg.chain, cfg.good, cfg.nice, if wrap then 2 else 0);
    var c := NewCoder(level, memLevel, strategy, wrap, wbits, flags);
    var d := new Deflater(m, c, strategy, cfg.slow, cfg.lazy, Origin(wrap, wbits, flags));
    z := new Compressor(d, wrap, wbits, flags, cfg.slow);
  }

  /** The encoder, with the header written. */
  method NewCoder(level: nat, memLevel: nat, strategy: Strategy, wrap: bool, wbits: nat, flags: nat) returns (c: TreeCoder)
    requires 1 <= memLevel <= 9 && wbits <= 15 && flags < 4
    ensures c.Valid() && c.Tallies() == [] && c.lastLit == 0 && c.b.Sent() == Origin(wrap, wbits, flags)
    ensures c.level == level && (c.fixedOnly <==> strategy == FixedStrategy) && c.litBufsize == Pow2(memLevel + 6)
    ensures fresh(c) && fresh(c.b) && fresh(c.Work()) && fresh(c.Static())
  {
    hide TreeCoder.Valid, TreeCoder.Tallies, TreeCoder.Work, TreeCoder.Static, BitBuffer.Valid, BitBuffer.Sent, ZlibHeaderBits;
    Pow2Values();
    c := new TreeCoder(level, strategy == FixedStrategy, Pow2(memLevel + 6));
    if wrap {
      WriteHeader(c, wbits, flags);
    }
  }

  /** The parameters that deflateInit2_ accepts, for streams without a gzip wrapper. */
  predicate Accepted(level: int, windowBits: int, memLevel: int) {
    1 <= memLevel <= 9 && (8 <= windowBits <= 15 || -15 <= windowBits <= -8) && -1 <= level <= 9
  }

  /** deflateInit2_: null stands for Z_STREAM_ERROR. */
  method DeflateInit2(level: int, windowBits: int, memLevel: int, strategy: Strategy) returns (z: Compressor?)
    requires level != 0 && windowBits <= 15
    ensures z == null <==> !Accepted(level, windowBits, memLevel)
    ensures z != null ==> z.Valid() && z.status == Busy && z.d.m.input == [] && z.d.flushed == 0 && (z.wrap <==> windowBits > 0)
    ensures z != null ==> Configured(z, if level == -1 then 6 else level, if windowBits < 0 then -windowBits else windowBits, memLevel, strategy)
    ensures z != null ==> fresh(z) && fresh(z.d) && fresh(z.d.m) && fresh(z.d.m.window) && fresh(z.d.m.head) && fresh(z.d.m.prev) && fresh(z.d.m.restart)
    ensures z != null ==> fresh(z.d.c) && fresh(z.d.c.b) && fresh(z.d.c.Work())
  {
    hide Compressor.Valid, TreeCoder.Work, Configured;
    var wrap, bits, quality := true, windowBits, if level == -1 then 6 else level;
    if bits < 0 {
      wrap, bits := false, -bits;
    }
    if memLevel < 1 || memLevel > 9 || bits < 8 || bits > 15 || quality < 0 || quality > 9 {
      return null;
    }
    z := NewCompressor(quality, bits, memLevel, strategy, wrap);
  }

  /** The two bytes of the zlib header. */
  method WriteHeader(c: TreeCoder, wbits: nat, flags: nat)
    requires wbits <= 15 && flags < 4 && c.Valid() && c.b.Sent() == []
    modifies c.b
    ensures c.Valid() && c.b.Sent() == ZlibHeaderBits(wbits, flags) && c.Tallies() == old(c.Tallies())
  {
    hide ZlibHeader;
    assert c.b.biValid == 0 && c.b.pending == [];
    HeaderFits(wbits, flags);
    PutShortMsb(c.b, ZlibHeader(wbits, flags));
    assert c.b.pending == [ZlibHeader(wbits, flags) / 256, ZlibHeader(wbits, flags) % 256];
    assert c.b.Sent() == BytesBits(c.b.pending) + [];
  }

  lemma HeaderFits(wbits: nat, flags: nat)
    requires wbits <= 15 && flags < 4
    ensures ZlibHeader(wbits, flags) < 65536
  {
  }

  /** putShortMSB: the more significant byte first. */
  method PutShortMsb(b: BitBuffer, x: nat)
    requires x < 65536
    modifies b`pending
    ensures b.pending == old(b.pending) + [x / 256, x % 256]
  {
    b.PutByte(x / 256);
    b.PutByte(x % 256);
  }
}
