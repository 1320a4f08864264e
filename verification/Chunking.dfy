/** However a stream is cut into calls of inflate(), the output and the verdict are the same. */
module Chunking {
  import opened Bits
  import opened Traces
  import opened Machine
  import opened Runs
  import opened BitSource
  import opened Modes
  import opened Inflater
  import InfTrees
  import Adler32

  /** All has been read and more is needed, or the verdict is final. */
  ghost predicate Ended(z: Inflater)
    requires z.o.Valid()
    reads z, z.src, z.o, z.o.buf
  {
    Final(z.st.mode) || (z.src.base + z.src.next == |z.src.stream| && Starved(Abs(z.wrap, z.st, z.o.Out()), z.src.Acc()))
  }

  lemma FinalStuck(wrap: bool, st: Regs, out: seq<byte>, r: seq<bool>)
    requires Final(st.mode)
    ensures Stuck(Conf(Abs(wrap, st, out), r))
  {
    hide LenStep, DistStep, CodeLensStep, HeaderStep, TypeStep, TableStep, InfTrees.Acceptable, Take, Adler32.Adler, Ordered, Reverse4;
  }

  lemma StarvedStuck(s: State, r: seq<bool>)
    requires Starved(s, r)
    ensures Stuck(Conf(s, r))
  {
    hide Step;
  }

  /** Where the run over the whole stream has come to. */
  lemma ReachedBy(z: Inflater)
    requires z.Inv()
    ensures z.o.Valid() && z.src.base + z.src.next <= |z.src.stream|
    ensures Reaches(Conf(StartState(z.wrap), BytesBits(z.src.stream)), Conf(Abs(z.wrap, z.st, z.o.Out()), z.src.Rest()))
  {
    hide Reaches, WellFormed, Thrifty, BitSource.Rest;
    z.src.Fits();
  }

  lemma EndedStuck(z: Inflater)
    requires z.Inv() && z.o.Valid() && Ended(z)
    ensures Stuck(Conf(Abs(z.wrap, z.st, z.o.Out()), z.src.Rest()))
  {
    hide Inflater.Inv, Stuck, Step, Abs;
    var s := Abs(z.wrap, z.st, z.o.Out());
    if Final(z.st.mode) {
      FinalStuck(z.wrap, z.st, z.o.Out(), z.src.Rest());
    } else {
      assert z.src.Rest() == z.src.Acc();
      StarvedStuck(s, z.src.Acc());
    }
  }

  /** Chunking independence: two decoders of the same stream that have come to an end have the same output, are in the
      same state and have consumed the same number of bits. */
  lemma SameEnd(a: Inflater, b: Inflater)
    requires a.Inv() && b.Inv() && a.wrap == b.wrap && a.src.stream == b.src.stream
    requires a.o.Valid() && b.o.Valid() && Ended(a) && Ended(b)
    ensures a.o.Out() == b.o.Out() && PhaseOf(a.st) == PhaseOf(b.st)
    ensures 8 * (a.src.base + a.src.next) - a.src.bits == 8 * (b.src.base + b.src.next) - b.src.bits
    ensures Final(a.st.mode) ==> a.st.mode == b.st.mode
  {
    hide Inflater.Inv, Stuck, Reaches, Starved, BitSource.Rest, Ended, PhaseOf;
    ReachedBy(a);
    ReachedBy(b);
    EndedStuck(a);
    EndedStuck(b);
    EndsAgree(Conf(StartState(a.wrap), BytesBits(a.src.stream)), Conf(Abs(a.wrap, a.st, a.o.Out()), a.src.Rest()),
              Conf(Abs(b.wrap, b.st, b.o.Out()), b.src.Rest()));
    if Final(a.st.mode) {
      FinalPhase(a.st, b.st);
    }
  }

  lemma FinalPhase(a: Regs, b: Regs)
    requires Final(a.mode) && PhaseOf(a) == PhaseOf(b)
    ensures a.mode == b.mode
  {
  }

  // ---- before the end

  /** The steps that read a code write nothing. */
  lemma CodeStepsQuiet(s: State, r: seq<bool>)
    ensures s.phase.Len? && LenStep(s, r).Next? ==> LenStep(s, r).state.out == s.out
    ensures s.phase.Dist? && DistStep(s, r).Next? ==> DistStep(s, r).state.out == s.out
  {
    hide DecodeSymbol, LengthBase, LengthExtra, DistBase, DistExtra;
  }

  lemma LengthStepsQuiet(s: State, r: seq<bool>)
    ensures s.phase.CodeLens? && CodeLensStep(s, r).Next? ==> CodeLensStep(s, r).state.out == s.out
  {
    hide DecodeSymbol, Take, Repeat;
  }

  lemma HeadStepsQuiet(s: State, h: nat)
    ensures HeaderStep(s, h).Next? && HeaderStep(s, h).state.out == s.out && TypeStep(s, h).out == s.out && TableStep(s, h).out == s.out
  {
    hide FixedCodes;
  }

  lemma StepGrows(s: State, r: seq<bool>)
    requires Step(s, r).Next?
    ensures s.out <= Step(s, r).state.out
  {
    hide LenStep, DistStep, CodeLensStep, HeaderStep, TypeStep, TableStep, InfTrees.Acceptable, Take, Adler32.Adler, Ordered, Reverse4;
    CodeStepsQuiet(s, r);
    LengthStepsQuiet(s, r);
    forall h: nat {
      HeadStepsQuiet(s, h);
    }
  }

  lemma {:induction false} RunGrows(c: Conf, d: Conf, n: nat)
    requires Reach(c, d, n)
    ensures c.s.out <= d.s.out
    decreases n
  {
    hide Step;
    if n > 0 {
      StepGrows(c.s, c.bits);
      RunGrows(NextConf(c).value, d, n - 1);
    }
  }

  /** Nothing comes after the end of a run. */
  lemma Onward(c: Conf, d: Conf, e: Conf)
    requires Reaches(c, d) && Reaches(c, e) && Stuck(e)
    ensures Reaches(d, e)
  {
    hide NextConf;
    var m: nat :| Reach(c, d, m);
    var n: nat :| Reach(c, e, n);
    if m <= n {
      StepsLinear(NextConf, c, d, e, m, n);
      assert Reach(d, e, n - m);
    } else {
      StepsLinear(NextConf, c, e, d, n, m);
    }
  }

  lemma BeforeEnd(c: Conf, d: Conf, e: Conf)
    requires Reaches(c, d) && Reaches(c, e) && Stuck(e)
    ensures d.s.out <= e.s.out
  {
    hide NextConf, Stuck;
    Onward(c, d, e);
    var n: nat :| Reach(d, e, n);
    RunGrows(d, e, n);
  }

  /** At any time the output is the beginning of the output that any decoder of the stream ends with. */
  lemma Beginning(a: Inflater, b: Inflater)
    requires a.Inv() && b.Inv() && a.wrap == b.wrap && a.src.stream == b.src.stream
    requires a.o.Valid() && b.o.Valid() && Ended(b)
    ensures a.o.Out() <= b.o.Out()
  {
    hide Inflater.Inv, Stuck, Reaches, Starved, BitSource.Rest, Ended, PhaseOf;
    ReachedBy(a);
    ReachedBy(b);
    EndedStuck(b);
    BeforeEnd(Conf(StartState(a.wrap), BytesBits(a.src.stream)), Conf(Abs(a.wrap, a.st, a.o.Out()), a.src.Rest()),
              Conf(Abs(b.wrap, b.st, b.o.Out()), b.src.Rest()));
  }
}
