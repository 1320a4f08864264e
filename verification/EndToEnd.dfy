/** deflate() and inflate() together: whatever the compressor was given comes out of the decoder, however both were
    called. */
module EndToEnd {
  import opened Bits
  import opened Traces
  import opened Machine
  import opened Runs
  import opened Streams
  import opened BitSource
  import opened Modes
  import opened Inflater
  import opened Chunking
  import Adler32
  import Compressor
  import Deflater
  import Picks
  import InfTrees

  /** The stream is exactly one that inflates to x. */
  ghost predicate Restores(wrap: bool, stream: seq<byte>, x: seq<byte>) {
    Reaches(Conf(StartState(wrap), BytesBits(stream)), Conf(State(wrap, true, Done, x), []))
  }

  /** What a finished compressor has written restores what it has read. */
  lemma WroteRestores(z: Compressor.Compressor)
    requires z.Valid() && z.status == Compressor.Finished
    ensures Restores(z.wrap, z.d.c.b.pending, z.d.m.input)
  {
    hide Reaches;
    z.RoundTrip([]);
    assert z.Sent() + [] == BytesBits(z.d.c.b.pending);
  }

  lemma StartFormed(wrap: bool)
    ensures WellFormed(StartState(wrap))
  {
  }

  /** What follows the stream is left unread. */
  lemma WithTail(wrap: bool, s: seq<byte>, x: seq<byte>, tail: seq<byte>)
    requires Restores(wrap, s, x)
    ensures Reaches(Conf(StartState(wrap), BytesBits(s + tail)), Conf(State(wrap, true, Done, x), BytesBits(tail)))
    ensures Stuck(Conf(State(wrap, true, Done, x), BytesBits(tail)))
  {
    hide Reaches, WellFormed, BytesBits;
    StartFormed(wrap);
    BytesBitsAppend(s, tail);
    ReachesMore(Conf(StartState(wrap), BytesBits(s)), Conf(State(wrap, true, Done, x), []), BytesBits(tail));
    assert [] + BytesBits(tail) == BytesBits(tail);
    DoneStuck(State(wrap, true, Done, x), BytesBits(tail));
  }

  lemma DoneStuck(s: State, r: seq<bool>)
    requires s.phase.Done?
    ensures Stuck(Conf(s, r))
  {
    hide LenStep, DistStep, CodeLensStep, HeaderStep, TypeStep, TableStep, Take;
  }

  /** The decoder that has come to an end has the input, and has read the stream and no more. */
  lemma Restored(i: Inflater, s: seq<byte>, x: seq<byte>, tail: seq<byte>)
    requires i.Inv() && i.src.stream == s + tail && Restores(i.wrap, s, x) && i.o.Valid() && Ended(i)
    ensures i.st.mode == DONE && i.o.Out() == x && i.src.base + i.src.next == |s| && i.src.bits == 0
  {
    hide Inflater.Inv, Stuck, Reaches, Starved, BitSource.Rest, Ended, PhaseOf, Restores;
    ReachedBy(i);
    EndedStuck(i);
    WithTail(i.wrap, s, x, tail);
    EndsAgree(Conf(StartState(i.wrap), BytesBits(i.src.stream)), Conf(Abs(i.wrap, i.st, i.o.Out()), i.src.Rest()),
              Conf(State(i.wrap, true, Done, x), BytesBits(tail)));
    DonePhase(i.st);
    DoneReads(i, tail);
  }

  lemma DonePhase(st: Regs)
    requires PhaseOf(st).Done?
    ensures st.mode == DONE
  {
  }

  lemma DoneThrifty(s: State, acc: seq<bool>)
    ensures Thrifty(DONE, s, acc) ==> |acc| == 0
  {
    hide Step;
  }

  lemma DoneReads(i: Inflater, tail: seq<byte>)
    requires i.Inv() && i.st.mode == DONE && i.src.Rest() == BytesBits(tail)
    ensures i.src.bits == 0 && i.src.base + i.src.next == |i.src.stream| - |tail|
  {
    hide On, BitSource.Valid, BytesBits, Inflater.Parts, Inflater.TablesOk, Inflater.History, Abs, Thrifty, RestOf;
    i.src.Fits();
    DoneThrifty(Abs(i.wrap, i.st, i.o.Out()), i.src.Acc());
  }

  /** At any time the decoder has the beginning of the input, and no error. */
  lemma NoError(i: Inflater, s: seq<byte>, x: seq<byte>, tail: seq<byte>)
    requires i.Inv() && i.src.stream == s + tail && Restores(i.wrap, s, x)
    ensures i.o.Valid() && i.o.Out() <= x && i.st.mode != BAD && i.st.mode != DICTID
  {
    hide Inflater.Inv, Stuck, Reaches, Starved, BitSource.Rest, PhaseOf, Restores;
    ReachedBy(i);
    WithTail(i.wrap, s, x, tail);
    BeforeEnd(Conf(StartState(i.wrap), BytesBits(i.src.stream)), Conf(Abs(i.wrap, i.st, i.o.Out()), i.src.Rest()),
              Conf(State(i.wrap, true, Done, x), BytesBits(tail)));
    if Final(i.st.mode) {
      Restored(i, s, x, tail);
    }
  }

  // ---- a decoder that has something to write

  /** The next step writes a byte. */
  predicate Writing(p: Phase) { (p.CopyBytes? && p.length > 0) || p.MatchCopy? || p.Lit? }

  lemma WritingWrites(s: State, r: seq<bool>)
    requires Writing(s.phase) && WellFormed(s) && Step(s, r).Next?
    ensures |Step(s, r).state.out| == |s.out| + 1
  {
    hide LenStep, DistStep, CodeLensStep, HeaderStep, TypeStep, TableStep, Take, GoodCodes;
  }

  lemma CodesGoOn(s: State, r: seq<bool>)
    ensures s.phase.Len? && LenStep(s, r).Next? ==> LenStep(s, r).state.wrap == s.wrap && !LenStep(s, r).state.phase.Done?
    ensures s.phase.Dist? && DistStep(s, r).Next? ==> DistStep(s, r).state.wrap == s.wrap && !DistStep(s, r).state.phase.Done?
  {
    hide DecodeSymbol, LengthBase, LengthExtra, DistBase, DistExtra;
  }

  lemma LengthsGoOn(s: State, r: seq<bool>)
    ensures s.phase.CodeLens? && CodeLensStep(s, r).Next? ==> CodeLensStep(s, r).state.wrap == s.wrap && !CodeLensStep(s, r).state.phase.Done?
  {
    hide DecodeSymbol, Take, Repeat;
  }

  lemma HeadsGoOn(s: State, h: nat)
    ensures HeaderStep(s, h).Next? && HeaderStep(s, h).state.wrap == TypeStep(s, h).wrap == TableStep(s, h).wrap == s.wrap
    ensures !HeaderStep(s, h).state.phase.Done? && !TypeStep(s, h).phase.Done? && !TableStep(s, h).phase.Done?
  {
    hide FixedCodes;
  }

  /** The last step of a run with a trailer reads the trailer. */
  lemma StepTrailer(s: State, r: seq<bool>)
    requires s.wrap && Step(s, r).Next?
    ensures Step(s, r).state.wrap && (Step(s, r).state.phase.Done? ==> Step(s, r).used == 32)
  {
    hide LenStep, DistStep, CodeLensStep, HeaderStep, TypeStep, TableStep, InfTrees.Acceptable, Take, Adler32.Adler, Adler32.Pack, Ordered, Reverse4;
    CodesGoOn(s, r);
    LengthsGoOn(s, r);
    forall h: nat {
      HeadsGoOn(s, h);
    }
  }

  lemma {:induction false} TrailerLeft(c: Conf, d: Conf, n: nat)
    requires Reach(c, d, n) && c.s.wrap && !c.s.phase.Done? && d.s.phase.Done?
    ensures |c.bits| >= |d.bits| + 32
    decreases n
  {
    hide Step;
    if n > 0 {
      StepTrailer(c.s, c.bits);
      var e := NextConf(c).value;
      if e.s.phase.Done? {
        DoneStuck(e.s, e.bits);
        assert Stuck(e) && Reach(e, d, n - 1);
      } else {
        TrailerLeft(e, d, n - 1);
      }
    }
  }

  /** From a state that writes and is not stuck, the run to the end writes more. */
  lemma MoreOutput(d: Conf, e: Conf)
    requires Reaches(d, e) && Stuck(e) && !Stuck(d) && Writing(d.s.phase) && WellFormed(d.s)
    ensures |d.s.out| < |e.s.out|
  {
    hide Step, WellFormed;
    var n: nat :| Reach(d, e, n);
    var f := NextConf(d).value;
    WritingWrites(d.s, d.bits);
    RunGrows(f, e, n - 1);
  }

  /** From a state that writes, the run to DONE writes more and reads the trailer. */
  lemma MoreToCome(d: Conf, e: Conf)
    requires Reaches(d, e) && Stuck(e) && e.s.phase.Done? && Writing(d.s.phase) && WellFormed(d.s)
    ensures |d.s.out| < |e.s.out| && (d.s.wrap ==> |d.bits| >= |e.bits| + 32)
  {
    hide Step, WellFormed;
    var n: nat :| Reach(d, e, n);
    assert Reach(d, e, n) && n > 0;
    MoreOutput(d, e);
    if d.s.wrap {
      TrailerLeft(d, e, n);
    }
  }

  /** Before something is written the accumulator holds less than a byte. */
  lemma WaitingFew(i: Inflater)
    requires i.Inv() && i.Waiting()
    ensures i.src.bits < 8 && i.o.Valid() && WellFormed(Abs(i.wrap, i.st, i.o.Out())) && Writing(PhaseOf(i.st))
  {
    hide Reaches, WellFormed, BitSource.Valid, BitSource.Rest, BytesBits, Inflater.Parts, Inflater.TablesOk, Inflater.History, GoodCodes, Take;
  }

  /** A decoder that waits for room has not got all of the input, and has not read all of the stream. */
  lemma RoomWanted(i: Inflater, s: seq<byte>, x: seq<byte>, tail: seq<byte>)
    requires i.Inv() && i.src.stream == s + tail && Restores(i.wrap, s, x) && i.Waiting()
    ensures i.o.Valid() && |i.o.Out()| < |x| && (i.wrap ==> i.src.base + i.src.next < |s|)
  {
    hide Inflater.Inv, Stuck, Reaches, Restores, WellFormed, Writing, PhaseOf, BytesBits, BitSource.Valid, BitSource.Rest;
    WithTail(i.wrap, s, x, tail);
    ReachedBy(i);
    WaitingFew(i);
    var c, d, e := Conf(StartState(i.wrap), BytesBits(i.src.stream)), Conf(Abs(i.wrap, i.st, i.o.Out()), i.src.Rest()),
                   Conf(State(i.wrap, true, Done, x), BytesBits(tail));
    Onward(c, d, e);
    MoreToCome(d, e);
  }

  /** With a part of the stream missing there is no verdict, and the decoder has the beginning of the input. */
  lemma Truncated(i: Inflater, s: seq<byte>, x: seq<byte>)
    requires i.Inv() && i.src.stream < s && Restores(i.wrap, s, x)
    ensures !Final(i.st.mode) && i.o.Valid() && i.o.Out() <= x && (i.Waiting() ==> |i.o.Out()| < |x|)
  {
    hide Inflater.Inv, Stuck, Reaches, Restores, WellFormed, Writing, PhaseOf, BytesBits, BitSource.Valid, BitSource.Rest;
    var more := s[|i.src.stream|..];
    WithTail(i.wrap, s, x, []);
    assert s + [] == s == i.src.stream + more;
    BytesBitsAppend(i.src.stream, more);
    ReachedBy(i);
    StartFormed(i.wrap);
    var c, d, e := Conf(StartState(i.wrap), BytesBits(s)), Conf(Abs(i.wrap, i.st, i.o.Out()), i.src.Rest() + BytesBits(more)),
                   Conf(State(i.wrap, true, Done, x), BytesBits([]));
    ReachesMore(Conf(StartState(i.wrap), BytesBits(i.src.stream)), Conf(Abs(i.wrap, i.st, i.o.Out()), i.src.Rest()), BytesBits(more));
    if Final(i.st.mode) {
      FinalStuck(i.wrap, i.st, i.o.Out(), d.bits);
      assert |d.bits| > 0;
      EndsAgree(c, d, e);
    }
    BeforeEnd(c, d, e);
    if i.Waiting() {
      WaitingFew(i);
      Onward(c, d, e);
      MoreToCome(d, e);
    }
  }

  // ---- any end

  /** A state that writes is stuck only while stored bytes are copied. */
  lemma StuckWriting(s: State, r: seq<bool>)
    requires Writing(s.phase) && WellFormed(s) && Stuck(Conf(s, r))
    ensures s.phase.CopyBytes? && |r| < 8
  {
    hide HeadNext, TypeNext, StoredNext, TableNext, LenLensNext, CodeLensNext, LenExtNext, DistExtNext, CheckNext, LenStep, DistStep, Take, GoodCodes;
  }

  lemma CopyHoldsNothing(i: Inflater)
    requires i.Inv() && i.st.mode == COPY
    ensures i.src.bits == 0
  {
    hide On, BitSource.Valid, BytesBits, Inflater.Parts, Inflater.TablesOk, Inflater.History, Abs, RestOf, Step;
  }

  lemma CopyMode(st: Regs)
    ensures PhaseOf(st).CopyBytes? ==> st.mode == COPY
  {
  }

  /** Whatever the stream is: a decoder that has come to an end is where the run of the machine over the whole stream
      ends; one that waits for room has less output than that run, or there is nothing left to read. */
  lemma EndsWhere(i: Inflater, e: Conf)
    requires i.Inv() && Reaches(Conf(StartState(i.wrap), BytesBits(i.src.stream)), e) && Stuck(e) && i.o.Valid()
    ensures Ended(i) ==> e == Conf(Abs(i.wrap, i.st, i.o.Out()), i.src.Rest())
    ensures i.Waiting() && |i.o.Out()| >= |e.s.out| ==>
      e == Conf(Abs(i.wrap, i.st, i.o.Out()), i.src.Rest()) && i.st.mode == COPY && i.src.base + i.src.next == |i.src.stream|
  {
    hide Inflater.Inv, Stuck, Reaches, WellFormed, Writing, PhaseOf, BytesBits, BitSource.Valid, BitSource.Rest, Starved, Ended;
    ReachedBy(i);
    var c, d := Conf(StartState(i.wrap), BytesBits(i.src.stream)), Conf(Abs(i.wrap, i.st, i.o.Out()), i.src.Rest());
    if Ended(i) {
      EndedStuck(i);
      EndsAgree(c, d, e);
    }
    if i.Waiting() {
      WaitingFew(i);
      if Stuck(d) {
        EndsAgree(c, d, e);
        StuckWriting(d.s, d.bits);
        CopyMode(i.st);
        CopyHoldsNothing(i);
      } else {
        Onward(c, d, e);
        MoreOutput(d, e);
      }
    }
  }

  // ---- flushing

  /** What a flushed compressor has written decodes to all that it has read. */
  lemma FlushedRun(z: Compressor.Compressor)
    requires z.Valid() && z.Settled()
    ensures Reaches(Conf(StartState(z.wrap), BytesBits(z.d.c.b.pending)), Conf(State(z.wrap, false, Type, z.d.m.input), []))
  {
    hide Compressor.Compressor.Valid, Compressor.Compressor.Settled, Deflater.Journal, Picks.Explained, Reaches, GoodBlocks, BlocksBits, BlocksOut, ZlibHeaderBits, Deflater.NearBlocks;
    z.SettledFacts();
    var bits := z.Sent();
    assert bits == BytesBits(z.d.c.b.pending) + ToBits(z.d.c.b.biBuf, 0) == BytesBits(z.d.c.b.pending);
    assert z.d.m.input[..|z.d.m.input|] == z.d.m.input;
    assert BlocksOut([], z.d.blocks) == z.d.m.input;
    OpenRound(z.wrap, z.wbits, z.flags, z.d.blocks, bits);
  }

  /** After a sync or full flush a decoder that has come to the end of what has been put out has all of the input. */
  lemma FlushRestores(z: Compressor.Compressor, i: Inflater)
    requires z.Valid() && z.Settled() && i.Inv() && i.wrap == z.wrap && i.src.stream == z.d.c.b.pending && i.o.Valid() && Ended(i)
    ensures i.o.Out() == z.d.m.input && i.src.bits == 0 && !Final(i.st.mode)
  {
    hide Inflater.Inv, Stuck, Reaches, Starved, BitSource.Rest, Ended, PhaseOf, Compressor.Compressor.Valid, Compressor.Compressor.Settled;
    FlushedRun(z);
    ReachedBy(i);
    EndedStuck(i);
    TypeStuck(z.wrap, z.d.m.input);
    EndsAgree(Conf(StartState(i.wrap), BytesBits(i.src.stream)), Conf(Abs(i.wrap, i.st, i.o.Out()), i.src.Rest()),
              Conf(State(z.wrap, false, Type, z.d.m.input), []));
    TypePhase(i.st);
  }

  // ---- starting anew after a full flush

  /** The bytes from the restart on, of a whole stream. */
  lemma RestartBits(z: Compressor.Compressor)
    requires z.Valid() && 8 * z.d.m.restart.bytes <= |z.Sent()| && z.d.c.b.biValid == 0
    ensures z.d.m.restart.bytes <= |z.d.c.b.pending| && z.Sent()[8 * z.d.m.restart.bytes..] == BytesBits(z.d.c.b.pending[z.d.m.restart.bytes..])
  {
    hide Compressor.Compressor.Valid, BytesBits;
    assert z.Sent() == BytesBits(z.d.c.b.pending) + ToBits(z.d.c.b.biBuf, 0) == BytesBits(z.d.c.b.pending);
    BytesBitsDrop(z.d.c.b.pending, z.d.m.restart.bytes);
  }

  /** A raw decoder that is given a finished stream from the first byte after a full flush on, and that has come to an end,
      has exactly the input since that flush, whatever became of the part before. */
  lemma RestartRestores(z: Compressor.Compressor, i: Inflater)
    requires z.Valid() && z.status == Compressor.Finished && z.d.m.restart.bytes <= |z.d.c.b.pending|
    requires i.Inv() && !i.wrap && i.src.stream == z.d.c.b.pending[z.d.m.restart.bytes..] && i.o.Valid() && Ended(i)
    ensures i.st.mode == DONE && z.d.m.restart.at <= |z.d.m.input| && i.o.Out() == z.d.m.input[z.d.m.restart.at..]
  {
    hide Inflater.Inv, Stuck, Reaches, Starved, BitSource.Rest, Ended, PhaseOf, BytesBits, Compressor.Compressor.Valid;
    FinishedBits(z);
    z.RestartTrip([]);
    RestartBits(z);
    assert z.Sent()[8 * z.d.m.restart.bytes..] + [] == z.Sent()[8 * z.d.m.restart.bytes..];
    ReachedBy(i);
    EndedStuck(i);
    var done := State(false, true, Done, z.d.m.input[z.d.m.restart.at..]);
    DoneStuck(done, z.CheckBits() + []);
    EndsAgree(Conf(StartState(i.wrap), BytesBits(i.src.stream)), Conf(Abs(i.wrap, i.st, i.o.Out()), i.src.Rest()), Conf(done, z.CheckBits() + []));
    DonePhase(i.st);
  }

  lemma FinishedBits(z: Compressor.Compressor)
    requires z.Valid() && z.status == Compressor.Finished
    ensures z.d.c.b.biValid == 0
  {
  }

  /** After a later flush the same decoder has all of the input since the restart. */
  lemma RestartFlushed(z: Compressor.Compressor, i: Inflater)
    requires z.Valid() && z.Settled() && z.d.m.restart.bytes <= |z.d.c.b.pending|
    requires i.Inv() && !i.wrap && i.src.stream == z.d.c.b.pending[z.d.m.restart.bytes..] && i.o.Valid() && Ended(i)
    ensures z.d.m.restart.at <= |z.d.m.input| && i.o.Out() == z.d.m.input[z.d.m.restart.at..] && !Final(i.st.mode)
  {
    hide Inflater.Inv, Stuck, Reaches, Starved, BitSource.Rest, Ended, PhaseOf, BytesBits, Compressor.Compressor.Valid, Compressor.Compressor.Settled;
    RestartRun(z);
    ReachedBy(i);
    EndedStuck(i);
    TypeStuck(false, z.d.m.input[z.d.m.restart.at..]);
    EndsAgree(Conf(StartState(i.wrap), BytesBits(i.src.stream)), Conf(Abs(i.wrap, i.st, i.o.Out()), i.src.Rest()),
              Conf(State(false, false, Type, z.d.m.input[z.d.m.restart.at..]), []));
    TypePhase(i.st);
  }

  lemma RestartRun(z: Compressor.Compressor)
    requires z.Valid() && z.Settled()
    ensures z.d.m.restart.at <= |z.d.m.input| && z.d.m.restart.bytes <= |z.d.c.b.pending|
    ensures Reaches(Conf(StartState(false), BytesBits(z.d.c.b.pending[z.d.m.restart.bytes..])), Conf(State(false, false, Type, z.d.m.input[z.d.m.restart.at..]), []))
  {
    hide Compressor.Compressor.Valid, Compressor.Compressor.Settled, Reaches, GoodBlocks, BlocksBits, BlocksOut, Picks.Explained, BytesBits, Deflater.Journal, Deflater.Wrote, Deflater.Deflater.Flow;
    z.SettledFacts();
    var r := z.d.m.restart;
    Deflater.JournalOpen(z.d.Tune(), z.Sent(), r.at, z.d.ends, r.blocks, r.bytes, z.d.blocks, z.d.done, z.d.m.input);
    RestartBits(z);
    OpenRound(false, 15, 0, z.d.blocks[r.blocks..], z.Sent()[8 * r.bytes..]);
  }

  lemma TypeStuck(wrap: bool, out: seq<byte>)
    ensures Stuck(Conf(State(wrap, false, Type, out), []))
  {
    hide Take, TypeStep;
  }

  lemma TypePhase(st: Regs)
    ensures PhaseOf(st).Type? ==> !Final(st.mode)
  {
  }
}
