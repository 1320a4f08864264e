/** The modes of inflate(): what each reads from the input and what it sets. */
module Modes {
  import opened Bits
  import opened Canonical
  import opened InfTrees
  import opened Machine
  import opened Runs
  import opened DynamicTrees
  import opened Lookup
  import opened BitSource
  import opened Decode
  import opened InflateFast
  import Adler32

  datatype Mode = HEAD | TYPE | TYPEDO | STORED | COPY | TABLE | LENLENS | CODELENS | LEN | LENEXT | DIST | DISTEXT | MATCH | LIT
    | CHECK | DICTID | DONE | BAD

  /** The fields of inflate_state that are not buffers. Lens is what LENLENS and CODELENS store; lit, dist and bl are the
      lengths that the tables at lencode and distcode were built from. */
  datatype Regs = Regs(mode: Mode, last: bool, length: nat, offset: nat, extra: nat, ncode: nat, nlen: nat, ndist: nat, have: nat,
                       lens: seq<nat>, lit: seq<nat>, dist: seq<nat>, bl: seq<nat>)

  /** Modes before CHECK, in which there is output still to come. */
  predicate Early(m: Mode) { m != CHECK && m != DONE && m != BAD }

  predicate Final(m: Mode) { m == DONE || m == BAD || m == DICTID }

  /** The modes of the codes of a block. */
  predicate Coding(m: Mode) { m in {LEN, LENEXT, DIST, DISTEXT, MATCH, LIT} }

  /** The code length code lengths read so far, in the order in which they are sent. */
  function SentOf(lens: seq<nat>, have: nat): (s: seq<nat>)
    ensures |s| == have
  {
    if |lens| >= 19 && have <= 19 then Sent(lens[..19], have) else seq(have, _ => 0)
  }

  function PhaseOf(st: Regs): Phase {
    match st.mode
    case HEAD => Phase.Head
    case TYPE => Phase.Type
    case TYPEDO => Phase.Type
    case STORED => Phase.Stored
    case COPY => Phase.CopyBytes(st.length)
    case TABLE => Phase.Table
    case LENLENS => Phase.LenLens(st.nlen, st.ndist, st.ncode, SentOf(st.lens, st.have))
    case CODELENS => Phase.CodeLens(st.nlen, st.ndist, st.bl, if st.have <= |st.lens| then st.lens[..st.have] else Repeat(0, st.have))
    case LEN => Phase.Len(Codes(st.lit, st.dist))
    case LENEXT => Phase.LenExt(Codes(st.lit, st.dist), st.length, st.extra)
    case DIST => Phase.Dist(Codes(st.lit, st.dist), st.length)
    case DISTEXT => Phase.DistExt(Codes(st.lit, st.dist), st.length, st.offset, st.extra)
    case MATCH => Phase.MatchCopy(Codes(st.lit, st.dist), st.length, st.offset)
    case LIT => Phase.Lit(Codes(st.lit, st.dist), st.length)
    case CHECK => Phase.Check
    case DICTID => Phase.NeedDict
    case DONE => Phase.Done
    case BAD => Phase.Bad
  }

  /** The state of the machine. */
  function Abs(wrap: bool, st: Regs, out: seq<byte>): State { State(wrap, st.last, PhaseOf(st), out) }

  /** Orders the modes that can follow each other without any input consumed or output written. */
  function Stage(m: Mode): nat {
    match m
    case HEAD => 12 case COPY => 11 case TYPE => 10 case TYPEDO => 10 case CHECK => 9 case LENLENS => 8 case CODELENS => 7 case LEN => 6
    case LENEXT => 5 case DIST => 4 case DISTEXT => 3 case DONE => 1 case DICTID => 1 case BAD => 0 case _ => 2
  }

  /** Less of the stream is left, or a later mode has been reached. */
  predicate Later(rest: nat, m: Mode, rest0: nat, m0: Mode) { rest < rest0 || (rest == rest0 && Stage(m) < Stage(m0)) }

  // ---- the machine

  /** The step needs more than the accumulator holds. */
  ghost predicate Starved(s: State, acc: seq<bool>) { Step(s, acc).NeedInput? }

  /** The accumulator holds at most seven bits, or less than the next step needs. */
  ghost predicate Frugal(s: State, acc: seq<bool>) { |acc| < 8 || Step(s, acc).NeedInput? }

  /** The same for the modes that go on; in some modes the accumulator holds whole bytes or nothing. */
  ghost predicate Thrifty(m: Mode, s: State, acc: seq<bool>) {
    && (!Final(m) ==> Frugal(s, acc))
    && (m == HEAD || m == CHECK ==> |acc| % 8 == 0) && (m == COPY || m == DONE ==> |acc| == 0)
  }

  lemma ThriftyWhen(m: Mode, s: State, acc: seq<bool>)
    ensures |acc| == 0 || m == BAD ==> Thrifty(m, s, acc)
    ensures (|acc| < 8 || Starved(s, acc)) && m !in {HEAD, CHECK, COPY, DONE} ==> Thrifty(m, s, acc)
  {
    hide Step;
  }

  /** The machine goes from s with r to read on to s' with r' to read on. */
  ghost predicate Goes(s: State, r: seq<bool>, s': State, r': seq<bool>) { WellFormed(s') && Reaches(Conf(s, r), Conf(s', r')) }

  lemma GoesBy(s: State, r: seq<bool>, s': State, r': seq<bool>, used: nat)
    requires WellFormed(s) && Step(s, r) == Outcome.Next(s', used) && used <= |r| && r' == r[used..]
    ensures Goes(s, r, s', r')
  {
    hide Step, WellFormed, Reaches;
    StepKeeps(s, r);
    ReachesNext(Conf(s, r), Conf(s', r'), used);
  }

  lemma GoesSelf(s: State, r: seq<bool>)
    requires WellFormed(s)
    ensures Goes(s, r, s, r)
  {
    hide WellFormed, Reaches;
    ReachesSelf(Conf(s, r));
  }

  lemma GoesTrans(s: State, r: seq<bool>, s': State, r': seq<bool>, s'': State, r'': seq<bool>)
    requires Goes(s, r, s', r') && Goes(s', r', s'', r'')
    ensures Goes(s, r, s'', r'')
  {
    hide WellFormed, Reaches;
    ReachesTrans(Conf(s, r), Conf(s', r'), Conf(s'', r''));
  }

  lemma Cut(r: seq<bool>, m: nat, n: nat)
    requires m + n <= |r|
    ensures r[m..][n..] == r[m + n..] && r[0..] == r
  {
  }

  lemma WholeBytes(bits: nat, n: nat)
    requires bits % 8 == 0 && n % 8 == 0 && n <= bits < n + 8
    ensures bits == n
  {
  }

  /** What is taken from the front of the stream is in the accumulator. */
  lemma TakeIs(src: BitSource, n: nat)
    requires src.Valid() && n <= src.bits
    ensures n <= |src.Rest()| && Take(src.Rest(), n) == Low(src.hold, n)
  {
    hide BitSource.Valid, BitSource.Rest, FromBits, Low;
    src.BitsAre(n);
  }

  /** Dropping the bits above the last whole byte. */
  lemma Aligns(bits: nat)
    ensures (bits - bits % 8) % 8 == 0 && (bits < 8 ==> bits - bits % 8 == 0)
  {
  }

  /** BITS(n) and DROPBITS(n). */
  method TakeField(src: BitSource, n: nat) returns (x: nat)
    requires src.Valid() && n <= src.bits
    modifies src`hold, src`bits
    ensures src.Valid() && src.bits == old(src.bits) - n
    ensures n <= |old(src.Rest())| && x == Take(old(src.Rest()), n) && src.Rest() == old(src.Rest())[n..]
  {
    hide BitSource.Valid, BitSource.Rest, Low, High, Take;
    TakeIs(src, n);
    x := src.Bits(n);
    src.DropBits(n);
  }

  // ---- HEAD

  lemma HeadPlain(s: State, r: seq<bool>)
    requires s.phase.Head? && !s.wrap
    ensures Step(s, r) == Outcome.Next(At(s, Phase.Type), 0)
  {
  }

  lemma HeadNeeds(s: State, r: seq<bool>)
    requires s.phase.Head? && s.wrap
    ensures Step(s, r).NeedInput? <==> |r| < 16
  {
    hide Take;
  }

  lemma HeadReads(s: State, r: seq<bool>)
    requires s.phase.Head? && s.wrap
    ensures Step(s, r) == if |r| < 16 then NeedInput else HeaderStep(s, Take(r, 16))
  {
    hide HeaderStep;
  }

  /** The fields of the two header bytes. */
  lemma HeadParts(h: nat)
    requires h < Pow2(16)
    ensures Low(h, 16) == h && Low(h, 8) == h % 256 && High(h, 8) == h / 256 && Low(h, 4) == h % 16 && High(h, 4) == h / 16
    ensures Low(High(h, 4), 4) == h / 16 % 16 && (HasBit(High(h, 4), 512) <==> h / 8192 % 2 == 1)
  {
    Pow2Values();
    DivSixteen(h);
  }

  lemma DivSixteen(h: nat)
    ensures h / 16 / 512 == h / 8192
  {
  }

  /** ((BITS(8) << 8) + (hold >> 8)) % 31 is zero. */
  predicate HeaderCheck(hold: nat) { (Low(hold, 8) * 256 + High(hold, 8)) % 31 == 0 }

  lemma HeadMeans(s: State, r: seq<bool>, h: nat)
    requires s.phase.Head? && s.wrap && |r| >= 16 && h < Pow2(16) && Take(r, 16) == h
    ensures Step(s, r) ==
      if !HeaderCheck(h) || Low(h, 4) != 8 then Outcome.Next(At(s, Phase.Bad), 0)
      else if Low(High(h, 4), 4) + 8 > 15 then Outcome.Next(At(s, Phase.Bad), 4)
      else Outcome.Next(At(s, if HasBit(High(h, 4), 512) then Phase.NeedDict else Phase.Type), 16)
  {
    hide Low, High, Take, HasBit, Step, Pow2;
    HeadReads(s, r);
    HeadParts(h);
  }

  /** The header of a zlib stream. */
  method ReadHeader(src: BitSource, wbits: nat, ghost s: State) returns (ok: bool, p: Phase)
    requires src.Valid() && s.phase.Head? && s.wrap && src.bits % 8 == 0 && Frugal(s, src.Acc()) && wbits == 15
    modifies src`hold, src`bits, src`next
    ensures src.Valid() && src.next >= old(src.next)
    ensures !ok ==> src.Rest() == old(src.Rest()) && src.next == |src.inp| && Starved(s, src.Acc()) && src.bits % 8 == 0
    ensures ok ==> Goes(s, old(src.Rest()), At(s, p), src.Rest()) && |src.Rest()| <= |old(src.Rest())|
    ensures ok ==> p == Phase.Bad || ((p == Phase.NeedDict || p == Phase.Type) && src.bits == 0)
  {
    hide BitSource.Valid, BitSource.Rest, Low, High, Take, HasBit, Pow2, ToBits, Step, Goes, HeaderCheck, HeaderStep;
    ghost var r := src.Rest();
    src.Fits();
    HeadNeeds(s, src.Acc());
    ok := src.NeedBits(16);
    src.Fits();
    HeadNeeds(s, src.Acc());
    p := Phase.Bad;
    if !ok {
      return;
    }
    TakeIs(src, 16);
    WholeBytes(src.bits, 16);
    HeadParts(src.hold);
    HeadMeans(s, r, src.hold);
    if !HeaderCheck(src.hold) || src.Bits(4) != 8 {
      Cut(r, 0, 0);
      GoesBy(s, r, At(s, p), src.Rest(), 0);
      return;
    }
    src.DropBits(4);
    if src.Bits(4) + 8 > wbits {
      GoesBy(s, r, At(s, p), src.Rest(), 4);
      return;
    }
    p := if HasBit(src.hold, 512) then Phase.NeedDict else Phase.Type;
    src.InitBits();
    Cut(r, 4, 12);
    GoesBy(s, r, At(s, p), src.Rest(), 16);
  }

  lemma HeadStep(wrap: bool, st: Regs, out: seq<byte>, r: seq<bool>)
    requires st.mode == HEAD
    ensures Abs(wrap, st, out).phase.Head? && Abs(wrap, st, out).wrap == wrap
    ensures !wrap ==> Step(Abs(wrap, st, out), r) == Outcome.Next(Abs(wrap, st.(mode := TYPEDO), out), 0)
    ensures forall p: Phase | p == Phase.Bad || p == Phase.NeedDict || p == Phase.Type ::
      Abs(wrap, st.(mode := if p == Phase.Type then TYPE else if p == Phase.NeedDict then DICTID else BAD), out) == At(Abs(wrap, st, out), p)
  {
    hide Step;
    if !wrap {
      HeadPlain(Abs(wrap, st, out), r);
    }
  }

  method DoHead(src: BitSource, wbits: nat, wrap: bool, st: Regs, ghost out: seq<byte>) returns (ok: bool, st': Regs)
    requires src.Valid() && st.mode == HEAD && wbits == 15 && Thrifty(HEAD, Abs(wrap, st, out), src.Acc()) && WellFormed(Abs(wrap, st, out))
    modifies src`hold, src`bits, src`next
    ensures src.Valid() && src.next >= old(src.next) && Thrifty(st'.mode, Abs(wrap, st', out), src.Acc())
    ensures Goes(Abs(wrap, st, out), old(src.Rest()), Abs(wrap, st', out), src.Rest())
    ensures if ok then Stage(st'.mode) < Stage(HEAD) && |src.Rest()| <= |old(src.Rest())| else st' == st && src.next == |src.inp| && Starved(Abs(wrap, st, out), src.Acc())
    ensures st' == st.(mode := st'.mode) && st'.mode in {HEAD, TYPE, TYPEDO, DICTID, BAD}
  {
    hide BitSource.Valid, BitSource.Rest, Step, Goes, WellFormed, ToBits, Abs, PhaseOf;
    ghost var s, r := Abs(wrap, st, out), src.Rest();
    HeadStep(wrap, st, out, r);
    HeadStep(wrap, st, out, src.Acc());
    if !wrap {
      Cut(r, 0, 0);
      st' := st.(mode := TYPEDO);
      GoesBy(s, r, Abs(wrap, st', out), r, 0);
      ok := true;
      return;
    }
    var p: Phase;
    ok, p := ReadHeader(src, wbits, s);
    GoesSelf(s, r);
    st' := if !ok then st else st.(mode := if p == Phase.Type then TYPE else if p == Phase.NeedDict then DICTID else BAD);
  }

  // ---- TYPE

  /** The mode and the codes for a block type. */
  function TypeRegs(st: Regs, t: nat): Regs {
    if t == 0 then st.(mode := STORED) else if t == 1 then st.(mode := LEN, lit := FixedCodes().lit, dist := FixedCodes().dist)
    else if t == 2 then st.(mode := TABLE) else st.(mode := BAD)
  }

  lemma TypeStepIs(wrap: bool, st: Regs, out: seq<byte>, r: seq<bool>)
    requires st.mode == TYPE || st.mode == TYPEDO
    ensures Step(Abs(wrap, st, out), r) ==
      if st.last then Outcome.Next(Abs(wrap, st.(mode := CHECK), out), |r| % 8) else if |r| < 3 then NeedInput
      else Outcome.Next(Abs(wrap, TypeRegs(st.(last := Take(r, 3) % 2 == 1), Take(r, 3) / 2), out), 3)
  {
    hide Take, FixedCodes;
  }

  lemma TypeParts(h: nat)
    ensures Low(h, 3) % 2 == Low(h, 1) && Low(h, 3) / 2 == Low(High(h, 1), 2) < 4
  {
    Pow2Values();
    LowSplit(h, 1, 2);
  }

  lemma TypeKeeps(st: Regs, t: nat)
    requires st.mode == TYPE || st.mode == TYPEDO
    ensures var u := TypeRegs(st, t); u.lens == st.lens && u.mode in {STORED, LEN, TABLE, BAD} && (u.mode == LEN ==> u.lit == FixedCodes().lit && u.dist == FixedCodes().dist)
  {
    hide FixedCodes;
  }

  method TypeFields(src: BitSource) returns (last: bool, t: nat)
    requires src.Valid() && src.bits >= 3
    modifies src`hold, src`bits
    ensures src.Valid() && src.bits == old(src.bits) - 3 && 3 <= |old(src.Rest())| && src.Rest() == old(src.Rest())[3..]
    ensures last == (Take(old(src.Rest()), 3) % 2 == 1) && t == Take(old(src.Rest()), 3) / 2
  {
    hide BitSource.Valid, BitSource.Rest, Low, High, Take;
    ghost var r := src.Rest();
    TakeIs(src, 3);
    TypeParts(src.hold);
    last := src.Bits(1) == 1;
    src.DropBits(1);
    t := src.Bits(2);
    src.DropBits(2);
    Cut(r, 1, 2);
  }

  /** The step to CHECK drops the bits up to the byte boundary. */
  lemma LastStep(wrap: bool, st: Regs, out: seq<byte>, r: seq<bool>, rest: seq<bool>)
    requires (st.mode == TYPE || st.mode == TYPEDO) && st.last && WellFormed(Abs(wrap, st, out)) && |r| % 8 <= |r| && rest == r[|r| % 8..]
    ensures Goes(Abs(wrap, st, out), r, Abs(wrap, st.(mode := CHECK), out), rest)
  {
    hide Step, Goes, WellFormed, Abs, TypeRegs;
    TypeStepIs(wrap, st, out, r);
    GoesBy(Abs(wrap, st, out), r, Abs(wrap, st.(mode := CHECK), out), rest, |r| % 8);
  }

  /** Before the last step there is less than a byte. */
  lemma LastFew(wrap: bool, st: Regs, out: seq<byte>, acc: seq<bool>)
    requires (st.mode == TYPE || st.mode == TYPEDO) && st.last && Thrifty(st.mode, Abs(wrap, st, out), acc)
    ensures |acc| < 8
  {
    hide Step, Abs, TypeRegs;
    TypeStepIs(wrap, st, out, acc);
  }

  lemma BoundaryRest(src: BitSource)
    requires src.Valid()
    ensures |src.Rest()| % 8 == src.bits % 8 <= |src.Rest()|
  {
    hide BitSource.Valid, RestOf;
    src.Fits();
  }

  /** After the last block. */
  method DoLast(src: BitSource, ghost wrap: bool, st: Regs, ghost out: seq<byte>) returns (st': Regs)
    requires src.Valid() && (st.mode == TYPE || st.mode == TYPEDO) && Thrifty(st.mode, Abs(wrap, st, out), src.Acc()) && WellFormed(Abs(wrap, st, out))
    requires st.last
    modifies src`hold, src`bits
    ensures src.Valid() && src.bits == 0 && st' == st.(mode := CHECK)
    ensures Goes(Abs(wrap, st, out), old(src.Rest()), Abs(wrap, st', out), src.Rest()) && |src.Rest()| <= |old(src.Rest())|
  {
    hide BitSource.Valid, BitSource.Rest, ToBits, Thrifty, Goes, WellFormed, Abs;
    ghost var r := src.Rest();
    LastFew(wrap, st, out, src.Acc());
    BoundaryRest(src);
    Aligns(src.bits);
    src.ByteBits();
    st' := st.(mode := CHECK);
    LastStep(wrap, st, out, r, src.Rest());
  }

  /** At least one more bit is wanted. */
  lemma TypeStarved(wrap: bool, st: Regs, out: seq<byte>, acc: seq<bool>)
    requires (st.mode == TYPE || st.mode == TYPEDO) && !st.last && |acc| < 3
    ensures Starved(Abs(wrap, st, out), acc)
  {
    hide Step, Abs, TypeRegs, Take;
    TypeStepIs(wrap, st, out, acc);
  }

  /** The block type. */
  method ReadType(src: BitSource, ghost wrap: bool, st: Regs, ghost out: seq<byte>) returns (st': Regs)
    requires src.Valid() && src.bits >= 3 && (st.mode == TYPE || st.mode == TYPEDO) && !st.last && WellFormed(Abs(wrap, st, out))
    modifies src`hold, src`bits
    ensures src.Valid() && src.bits == old(src.bits) - 3 && |src.Rest()| < |old(src.Rest())|
    ensures Goes(Abs(wrap, st, out), old(src.Rest()), Abs(wrap, st', out), src.Rest())
    ensures st'.lens == st.lens && st'.mode in {STORED, LEN, TABLE, BAD}
    ensures st'.mode == LEN ==> st'.lit == FixedCodes().lit && st'.dist == FixedCodes().dist
  {
    hide BitSource.Valid, BitSource.Rest, Take, Step, Goes, WellFormed, FixedCodes, Abs, TypeRegs;
    ghost var s, r := Abs(wrap, st, out), src.Rest();
    TypeStepIs(wrap, st, out, r);
    var last, t := TypeFields(src);
    st' := TypeRegs(st.(last := last), t);
    TypeKeeps(st.(last := last), t);
    GoesBy(s, r, Abs(wrap, st', out), src.Rest(), 3);
  }

  method DoType(src: BitSource, ghost wrap: bool, st: Regs, ghost out: seq<byte>) returns (ok: bool, st': Regs)
    requires src.Valid() && (st.mode == TYPE || st.mode == TYPEDO) && Thrifty(st.mode, Abs(wrap, st, out), src.Acc()) && WellFormed(Abs(wrap, st, out))
    modifies src`hold, src`bits, src`next
    ensures src.Valid() && src.next >= old(src.next) && Thrifty(st'.mode, Abs(wrap, st', out), src.Acc())
    ensures Goes(Abs(wrap, st, out), old(src.Rest()), Abs(wrap, st', out), src.Rest())
    ensures if ok then Later(|src.Rest()|, st'.mode, |old(src.Rest())|, st.mode)
            else st' == st && src.next == |src.inp| && Starved(Abs(wrap, st, out), src.Acc())
    ensures st'.lens == st.lens && (ok ==> st'.mode in {CHECK, STORED, LEN, TABLE, BAD})
    ensures st'.mode == LEN ==> st'.lit == FixedCodes().lit && st'.dist == FixedCodes().dist
  {
    hide BitSource.Valid, BitSource.Rest, BitSource.Acc, Starved, Thrifty, Goes, WellFormed, FixedCodes, Abs;
    ghost var s, r := Abs(wrap, st, out), src.Rest();
    GoesSelf(s, r);
    if st.last {
      st' := DoLast(src, wrap, st, out);
      ThriftyWhen(st'.mode, Abs(wrap, st', out), src.Acc());
      return true, st';
    }
    FewBits(wrap, st, out, src.Acc());
    ok := src.NeedBits(3);
    src.Fits();
    if !ok {
      TypeStarved(wrap, st, out, src.Acc());
      ThriftyWhen(st.mode, s, src.Acc());
      return false, st;
    }
    st' := ReadType(src, wrap, st, out);
    ThriftyWhen(st'.mode, Abs(wrap, st', out), src.Acc());
  }

  /** What is wanted is at most three bits. */
  lemma FewBits(wrap: bool, st: Regs, out: seq<byte>, acc: seq<bool>)
    requires (st.mode == TYPE || st.mode == TYPEDO) && !st.last && Thrifty(st.mode, Abs(wrap, st, out), acc)
    ensures |acc| < 8
  {
    hide Step, Abs, TypeRegs, Take;
    TypeStepIs(wrap, st, out, acc);
  }

  // ---- STORED

  lemma StoredStepIs(wrap: bool, st: Regs, out: seq<byte>, r: seq<bool>)
    requires st.mode == STORED
    ensures Step(Abs(wrap, st, out), r) ==
      if |r| % 8 != 0 then Outcome.Next(Abs(wrap, st, out), |r| % 8) else if |r| < 32 then NeedInput
      else if Take(r, 16) != 65535 - Take(r[16..], 16) then Outcome.Next(Abs(wrap, st.(mode := BAD), out), 0)
      else Outcome.Next(Abs(wrap, st.(mode := COPY, length := Take(r, 16)), out), 32)
  {
    hide Take, Step, StoredNext, Abs;
    StoredPhases(wrap, st, out, if |r| < 32 then 0 else Take(r, 16));
    StoredIs(Abs(wrap, st, out), r);
  }

  lemma StoredPhases(wrap: bool, st: Regs, out: seq<byte>, n: nat)
    requires st.mode == STORED
    ensures var s := Abs(wrap, st, out);
      s.phase.Stored? && Abs(wrap, st.(mode := BAD), out) == At(s, Phase.Bad) && Abs(wrap, st.(mode := COPY, length := n), out) == At(s, CopyBytes(n))
  {
    hide SentOf;
  }

  lemma StoredIs(s: State, r: seq<bool>)
    requires s.phase.Stored?
    ensures Step(s, r) == StoredNext(s, r)
    ensures StoredNext(s, r) ==
      if |r| % 8 != 0 then Outcome.Next(s, |r| % 8) else if |r| < 32 then NeedInput
      else if Take(r, 16) != 65535 - Take(r[16..], 16) then Outcome.Next(At(s, Phase.Bad), 0)
      else Outcome.Next(At(s, CopyBytes(Take(r, 16))), 32)
  {
    hide Take;
  }

  /** The two halves of a 32-bit accumulator. */
  lemma StoredParts(src: BitSource)
    requires src.Valid() && src.bits == 32
    ensures |src.Rest()| >= 32 && Take(src.Rest(), 16) == Low(src.hold, 16) && Take(src.Rest()[16..], 16) == High(src.hold, 16)
  {
    hide Low, High, RestOf, FromBits, ToBits, BytesBits, Pow2;
    var h, stream, pos := src.hold, src.stream, src.base + src.next;
    TakeIs(src, 16);
    SyncedDrop(h, 32, stream, pos, 16);
    assert RestOf(High(h, 16), 16, stream, pos) == src.Rest()[16..];
    HalfTaken(High(h, 16), stream, pos);
  }

  lemma HalfTaken(h: nat, stream: seq<byte>, pos: nat)
    requires h < Pow2(16) && pos <= |stream|
    ensures Take(RestOf(h, 16, stream, pos), 16) == h
  {
    hide ToBits, BytesBits, Pow2, FromBits;
    assert RestOf(h, 16, stream, pos)[..16] == ToBits(h, 16);
    FromToBitsExact(h, 16);
  }

  /** To the next byte boundary. */
  method Align(src: BitSource, ghost wrap: bool, ghost st: Regs, ghost out: seq<byte>)
    requires src.Valid() && st.mode == STORED && Thrifty(st.mode, Abs(wrap, st, out), src.Acc()) && WellFormed(Abs(wrap, st, out))
    modifies src`hold, src`bits
    ensures src.Valid() && src.bits % 8 == 0 && src.bits < 32
    ensures Goes(Abs(wrap, st, out), old(src.Rest()), Abs(wrap, st, out), src.Rest()) && |src.Rest()| <= |old(src.Rest())|
  {
    hide BitSource.Valid, BitSource.Rest, Low, High, Take, Pow2, ToBits, Step, Goes, WellFormed, Abs, PhaseOf;
    ghost var s, r := Abs(wrap, st, out), src.Rest();
    src.Fits();
    StoredStepIs(wrap, st, out, r);
    StoredStepIs(wrap, st, out, src.Acc());
    GoesSelf(s, r);
    Aligns(src.bits);
    ghost var odd := src.bits % 8 != 0;
    src.ByteBits();
    if odd {
      GoesBy(s, r, s, src.Rest(), |r| % 8);
    } else {
      Cut(r, 0, 0);
    }
  }

  /** The length of a stored block, if its complement agrees. */
  method StoredFields(src: BitSource) returns (good: bool, length: nat)
    requires src.Valid() && src.bits == 32
    modifies src`hold, src`bits
    ensures src.Valid() && 32 <= |old(src.Rest())|
    ensures length == Take(old(src.Rest()), 16) && (good <==> length == 65535 - Take(old(src.Rest())[16..], 16))
    ensures if good then src.bits == 0 && src.Rest() == old(src.Rest())[32..] else src.Rest() == old(src.Rest())
  {
    hide BitSource.Valid, BitSource.Rest, Low, High, Take;
    StoredParts(src);
    length := src.Bits(16);
    good := src.Bits(16) == 65535 - High(src.hold, 16);
    if good {
      src.InitBits();
    }
  }

  /** Fewer than 32 bits, in whole bytes. */
  lemma StoredStarved(wrap: bool, st: Regs, out: seq<byte>, acc: seq<bool>)
    requires st.mode == STORED && |acc| % 8 == 0 && |acc| < 32
    ensures Starved(Abs(wrap, st, out), acc) && Thrifty(STORED, Abs(wrap, st, out), acc)
  {
    hide Step, Abs;
    StoredStepIs(wrap, st, out, acc);
  }

  method ReadStored(src: BitSource, ghost wrap: bool, st: Regs, ghost out: seq<byte>) returns (st': Regs)
    requires src.Valid() && src.bits == 32 && st.mode == STORED && WellFormed(Abs(wrap, st, out))
    modifies src`hold, src`bits
    ensures src.Valid() && Goes(Abs(wrap, st, out), old(src.Rest()), Abs(wrap, st', out), src.Rest())
    ensures if st'.mode == COPY then src.bits == 0 && |src.Rest()| < |old(src.Rest())| else st'.mode == BAD && src.Rest() == old(src.Rest())
    ensures st'.lens == st.lens
  {
    hide BitSource.Valid, BitSource.Rest, Take, Step, Goes, WellFormed, Abs;
    ghost var s, r := Abs(wrap, st, out), src.Rest();
    StoredStepIs(wrap, st, out, r);
    StoredParts(src);
    AlignedRest(src);
    var good, length := StoredFields(src);
    st' := if good then st.(mode := COPY, length := length) else st.(mode := BAD);
    Cut(r, 0, 0);
    GoesBy(s, r, Abs(wrap, st', out), src.Rest(), if good then 32 else 0);
  }

  /** A whole number of bytes in the accumulator. */
  lemma AlignedRest(src: BitSource)
    requires src.Valid() && src.bits == 32
    ensures |src.Rest()| % 8 == 0
  {
    hide BitSource.Valid, RestOf;
    src.Fits();
  }

  /** The length and its complement in the accumulator. */
  method NeedLengths(src: BitSource, ghost wrap: bool, ghost st: Regs, ghost out: seq<byte>) returns (ok: bool)
    requires src.Valid() && src.bits % 8 == 0 && src.bits < 32 && st.mode == STORED
    modifies src`hold, src`bits, src`next
    ensures src.Valid() && src.Rest() == old(src.Rest()) && src.next >= old(src.next)
    ensures if ok then src.bits == 32 else Starved(Abs(wrap, st, out), src.Acc()) && Thrifty(STORED, Abs(wrap, st, out), src.Acc()) && src.next == |src.inp|
  {
    hide BitSource.Valid, BitSource.Rest, Starved, Thrifty, Abs, ToBits;
    ok := src.NeedBits(32);
    src.Fits();
    if ok {
      WholeBytes(src.bits, 32);
    } else {
      StoredStarved(wrap, st, out, src.Acc());
    }
  }

  method DoStored(src: BitSource, ghost wrap: bool, st: Regs, ghost out: seq<byte>) returns (ok: bool, st': Regs)
    requires src.Valid() && st.mode == STORED && Thrifty(st.mode, Abs(wrap, st, out), src.Acc()) && WellFormed(Abs(wrap, st, out))
    modifies src`hold, src`bits, src`next
    ensures src.Valid() && src.next >= old(src.next) && Thrifty(st'.mode, Abs(wrap, st', out), src.Acc())
    ensures Goes(Abs(wrap, st, out), old(src.Rest()), Abs(wrap, st', out), src.Rest())
    ensures if ok then Later(|src.Rest()|, st'.mode, |old(src.Rest())|, st.mode)
            else st' == st && src.next == |src.inp| && Starved(Abs(wrap, st, out), src.Acc())
    ensures st'.lens == st.lens && (ok ==> st'.mode == COPY || st'.mode == BAD)
  {
    hide BitSource.Valid, BitSource.Rest, BitSource.Acc, Starved, Thrifty, Goes, WellFormed, Abs;
    ghost var s, r := Abs(wrap, st, out), src.Rest();
    Align(src, wrap, st, out);
    ghost var r1 := src.Rest();
    ok := NeedLengths(src, wrap, st, out);
    if !ok {
      return false, st;
    }
    st' := ReadStored(src, wrap, st, out);
    GoesTrans(s, r, s, r1, Abs(wrap, st', out), src.Rest());
    ThriftyWhen(st'.mode, Abs(wrap, st', out), src.Acc());
  }

  // ---- TABLE

  /** nlen, ndist and ncode, and the mode they lead to. */
  function TableRegs(st: Regs, a: nat, b: nat, c: nat): Regs {
    var t := st.(nlen := a + 257, ndist := b + 1, ncode := c + 4);
    if t.nlen > 286 || t.ndist > 30 then t.(mode := BAD) else t.(mode := LENLENS, have := 0)
  }

  lemma TableStepIs(wrap: bool, st: Regs, out: seq<byte>, r: seq<bool>)
    requires st.mode == TABLE
    ensures Step(Abs(wrap, st, out), r) == if |r| < 14 then NeedInput
      else Outcome.Next(Abs(wrap, TableRegs(st, Take(r, 14) % 32, Take(r, 14) / 32 % 32, Take(r, 14) / 1024 % 16), out), 14)
  {
    hide Take;
    assert SentOf(st.lens, 0) == [];
  }

  lemma TableParts(h: nat)
    ensures Low(h, 14) % 32 == Low(h, 5) && Low(h, 14) / 32 % 32 == Low(High(h, 5), 5) && Low(h, 14) / 1024 % 16 == Low(High(High(h, 5), 5), 4)
  {
    Pow2Values();
    LowSplit(h, 5, 9);
    LowSplit(High(h, 5), 5, 4);
    TableDivs(Low(h, 5), Low(High(h, 5), 5), Low(High(High(h, 5), 5), 4), Low(h, 14));
  }

  lemma TableDivs(a: nat, b: nat, c: nat, t: nat)
    requires a < 32 && b < 32 && c < 16 && t == (c * 32 + b) * 32 + a
    ensures t % 32 == a && t / 32 % 32 == b && t / 1024 % 16 == c
  {
    assert t == c * 1024 + (b * 32 + a);
  }

  method TableFields(src: BitSource) returns (a: nat, b: nat, c: nat)
    requires src.Valid() && src.bits >= 14
    modifies src`hold, src`bits
    ensures src.Valid() && src.bits == old(src.bits) - 14 && 14 <= |old(src.Rest())| && src.Rest() == old(src.Rest())[14..]
    ensures var t := Take(old(src.Rest()), 14); a == t % 32 && b == t / 32 % 32 && c == t / 1024 % 16
  {
    hide BitSource.Valid, BitSource.Rest, Low, High, Take;
    ghost var r := src.Rest();
    TakeIs(src, 14);
    TableParts(src.hold);
    a := src.Bits(5);
    src.DropBits(5);
    b := src.Bits(5);
    src.DropBits(5);
    c := src.Bits(4);
    src.DropBits(4);
    Cut(r, 5, 5);
    Cut(r, 10, 4);
  }

  method DoTable(src: BitSource, ghost wrap: bool, st: Regs, ghost out: seq<byte>) returns (ok: bool, st': Regs)
    requires src.Valid() && st.mode == TABLE && Thrifty(st.mode, Abs(wrap, st, out), src.Acc()) && WellFormed(Abs(wrap, st, out))
    modifies src`hold, src`bits, src`next
    ensures src.Valid() && src.next >= old(src.next) && Thrifty(st'.mode, Abs(wrap, st', out), src.Acc())
    ensures Goes(Abs(wrap, st, out), old(src.Rest()), Abs(wrap, st', out), src.Rest())
    ensures if ok then Later(|src.Rest()|, st'.mode, |old(src.Rest())|, st.mode)
            else st' == st && src.next == |src.inp| && Starved(Abs(wrap, st, out), src.Acc())
    ensures st'.lens == st.lens && (ok ==> st'.mode == LENLENS || st'.mode == BAD)
  {
    hide BitSource.Valid, BitSource.Rest, Low, High, Take, Pow2, ToBits, Step, Goes, WellFormed, Abs, PhaseOf;
    ghost var s, r := Abs(wrap, st, out), src.Rest();
    src.Fits();
    TableStepIs(wrap, st, out, src.Acc());
    ok := src.NeedBits(14);
    src.Fits();
    TableStepIs(wrap, st, out, src.Acc());
    if !ok {
      GoesSelf(s, r);
      return false, st;
    }
    TableStepIs(wrap, st, out, r);
    var a, b, c := TableFields(src);
    st' := TableRegs(st, a, b, c);
    GoesBy(s, r, Abs(wrap, st', out), src.Rest(), 14);
  }
}
