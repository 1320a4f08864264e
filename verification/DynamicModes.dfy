/** The modes of inflate() that read the codes of a dynamic block: LENLENS and CODELENS. */
module DynamicModes {
  import opened Bits
  import opened Canonical
  import opened InfTrees
  import opened Machine
  import opened Runs
  import opened DynamicTrees
  import opened Lookup
  import opened BitSource
  import opened Decode
  import opened Modes

  // ---- LENLENS

  /** order[k], and where it is undone. */
  function Slot(k: nat): (n: nat)
    requires k < 19
    ensures n < 19
  {
    ORDER[k]
  }

  lemma SlotBack(i: nat)
    requires i < 19
    ensures |ORDER| == 19 && ORDER[i] == Slot(i) && SentAt(Slot(i)) == i
  {
  }

  lemma SlotApart(i: nat)
    requires i < 19
    ensures forall r: nat | r < i :: Slot(r) != Slot(i)
  {
    hide Slot, SentAt;
    SlotBack(i);
    forall r: nat | r < i
      ensures Slot(r) != Slot(i)
    {
      SlotBack(r);
    }
  }

  /** The lengths sent, read from where they are stored. */
  lemma SentAll(lens: seq<nat>, k: nat)
    requires |lens| >= 19 && k <= 19
    ensures |SentOf(lens, k)| == k && forall r: nat | r < k :: SentOf(lens, k)[r] == lens[Slot(r)]
  {
    hide Slot, SentAt, Sent;
    SlotBack(0);
    forall r: nat | r < k
      ensures SentOf(lens, k)[r] == lens[Slot(r)]
    {
      SlotBack(r);
    }
  }

  /** Storing one more code length code length. */
  lemma SentNext(lens: seq<nat>, have: nat, x: nat)
    requires |lens| >= 19 && have < 19
    ensures SentOf(lens[Slot(have) := x], have + 1) == SentOf(lens, have) + [x]
  {
    hide Slot, SentOf;
    SlotApart(have);
    SentAll(lens[Slot(have) := x], have + 1);
    SentAll(lens, have);
  }

  lemma LenLensStepIs(wrap: bool, st: Regs, out: seq<byte>, r: seq<bool>)
    requires st.mode == LENLENS && |st.lens| >= 19 && st.have < st.ncode <= 19
    ensures Step(Abs(wrap, st, out), r) == if |r| < 3 then NeedInput
      else Outcome.Next(Abs(wrap, st.(lens := st.lens[Slot(st.have) := Take(r, 3)], have := st.have + 1), out), 3)
  {
    hide Take, Sent, Acceptable, Ordered, Slot;
    SentNext(st.lens, st.have, if |r| < 3 then 0 else Take(r, 3));
  }

  /** One code length code length. */
  method OneLenLen(src: BitSource, ghost wrap: bool, st: Regs, ghost out: seq<byte>) returns (ok: bool, st': Regs)
    requires src.Valid() && st.mode == LENLENS && |st.lens| == 320 && st.have < st.ncode <= 19
    requires Thrifty(LENLENS, Abs(wrap, st, out), src.Acc()) && WellFormed(Abs(wrap, st, out))
    modifies src`hold, src`bits, src`next
    ensures src.Valid() && src.next >= old(src.next)
    ensures Goes(Abs(wrap, st, out), old(src.Rest()), Abs(wrap, st', out), src.Rest())
    ensures if ok then src.bits < 8 && |src.Rest()| < |old(src.Rest())| && st' == st.(lens := st'.lens, have := st.have + 1)
            else st' == st && src.next == |src.inp| && Starved(Abs(wrap, st, out), src.Acc())
    ensures |st'.lens| == 320
  {
    hide BitSource.Valid, BitSource.Rest, Take, ToBits, Step, Goes, WellFormed, Abs, PhaseOf, Slot;
    ghost var s, r := Abs(wrap, st, out), src.Rest();
    src.Fits();
    LenLensStepIs(wrap, st, out, src.Acc());
    ok := src.NeedBits(3);
    src.Fits();
    LenLensStepIs(wrap, st, out, src.Acc());
    if !ok {
      GoesSelf(s, r);
      return false, st;
    }
    LenLensStepIs(wrap, st, out, r);
    var x := TakeField(src, 3);
    st' := st.(lens := st.lens[Slot(st.have) := x], have := st.have + 1);
    GoesBy(s, r, Abs(wrap, st', out), src.Rest(), 3);
  }

  /** The code length code lengths that were not sent are zero. */
  ghost predicate RestZero(lens: seq<nat>, have: nat)
    requires |lens| >= 19
  {
    forall r: nat | have <= r < 19 :: lens[Slot(r)] == 0
  }

  method FillLenLens(lens: seq<nat>, from: nat) returns (lens': seq<nat>)
    requires |lens| == 320 && from <= 19
    ensures |lens'| == 320 && SentOf(lens', from) == SentOf(lens, from) && RestZero(lens', from)
  {
    hide Slot, SentOf;
    lens' := lens;
    var have := from;
    while have < 19
      invariant from <= have <= 19 && |lens'| == 320
      invariant forall r: nat | r < from :: lens'[Slot(r)] == lens[Slot(r)]
      invariant forall r: nat | from <= r < have :: lens'[Slot(r)] == 0
    {
      SlotApart(have);
      lens' := lens'[Slot(have) := 0];
      have := have + 1;
    }
    SentAll(lens', from);
    SentAll(lens, from);
  }

  /** The lengths stored under their symbols are those in the order of the format. */
  lemma OrderedStored(lens: seq<nat>, have: nat)
    requires |lens| >= 19 && have <= 19 && RestZero(lens, have)
    ensures Ordered(SentOf(lens, have)) == lens[..19]
  {
    hide ORDER, Sent, LengthSent, Slot, SentAt;
    forall n: nat | n < 19
      ensures LengthSent(Sent(lens[..19], have), n, have) == lens[n]
    {
      LengthSentIs(lens[..19], have, n, have);
      SlotOf(n);
      SlotBack(SentAt(n));
    }
  }

  lemma SlotOf(n: nat)
    requires n < 19
    ensures Slot(SentAt(n)) == n
  {
  }

  lemma LenLensEndIs(wrap: bool, st: Regs, out: seq<byte>, lens': seq<nat>, r: seq<bool>)
    requires st.mode == LENLENS && |st.lens| >= 19 && st.have == st.ncode <= 19
    requires |lens'| >= 19 && SentOf(lens', st.have) == SentOf(st.lens, st.have) && RestZero(lens', st.have)
    ensures Step(Abs(wrap, st, out), r) == Outcome.Next(Abs(wrap,
      if Acceptable(CODES, lens'[..19]) then st.(mode := CODELENS, have := 0, lens := lens', bl := lens'[..19]) else st.(mode := BAD, lens := lens'), out), 0)
  {
    hide Sent, Acceptable, Ordered;
    OrderedStored(lens', st.have);
    assert lens'[..0] == [];
  }

  /** No length is above the number of index bits. */
  ghost predicate Fits(lens: seq<nat>, root: nat) { root >= 1 && forall n: nat | n < |lens| :: lens[n] <= root }

  lemma SevenBits(lens: seq<nat>)
    requires |lens| == 19 && forall n: nat | n < 19 :: lens[n] < 8
    ensures Fits(lens, RootBits(lens, 7)) && ValidLens(lens) && (Acceptable(CODES, lens) ==> SpaceNeeded(lens, 7) <= ENOUGH)
  {
    hide Longest, Shortest, SpaceNeeded;
    Pow2Values();
    if Acceptable(CODES, lens) {
      SpaceBound(CODES, lens, 7);
    }
    forall n: nat | n < 19
      ensures lens[n] <= MaxLength(lens) <= 7
    {
      InUse(lens, n);
      NoneAbove(lens, 8);
    }
  }

  lemma InUse(lens: seq<nat>, n: nat)
    requires n < |lens| && lens[n] <= MAX_BITS
    ensures lens[n] <= MaxLength(lens)
  {
    if lens[n] > 0 {
      CountAll(lens, n, lens[n]);
    }
  }

  lemma NoneAbove(lens: seq<nat>, top: nat)
    requires forall n: nat | n < |lens| :: lens[n] < top
    ensures MaxLength(lens) < top || MaxLength(lens) == 0
  {
    if MaxLength(lens) >= top {
      NoneCounted(lens, MaxLength(lens));
    }
  }

  lemma {:induction false} NoneCounted(lens: seq<nat>, l: nat)
    requires forall n: nat | n < |lens| :: lens[n] != l
    ensures Count(lens, l) == 0
  {
    if |lens| > 0 {
      NoneCounted(lens[..|lens| - 1], l);
    }
  }

  lemma SentSmall(wrap: bool, st: Regs, out: seq<byte>, lens: seq<nat>)
    requires st.mode == LENLENS && WellFormed(Abs(wrap, st, out)) && |lens| >= 19 && st.have <= 19
    requires SentOf(lens, st.have) == SentOf(st.lens, st.have) && RestZero(lens, st.have)
    ensures forall n: nat | n < 19 :: lens[n] < 8
  {
    hide Slot, SentAt, SentOf;
    var sent := SentOf(st.lens, st.have);
    assert forall i | 0 <= i < |sent| :: sent[i] < 8;
    SentAll(lens, st.have);
    forall n: nat | n < 19
      ensures lens[n] < 8
    {
      SlotOf(n);
      if SentAt(n) < st.have {
        assert SentOf(lens, st.have)[SentAt(n)] == lens[n];
      }
    }
  }

  /** The table of the code length code is at the start of codes. */
  ghost predicate LengthTable(codes: array<Entry>, end: nat, root: nat, bl: seq<nat>)
    reads codes
  {
    TableAt(codes, 0, end, root, CODES, bl) && Fits(bl, root)
  }

  /** The end of LENLENS: builds the table of the code length code. */
  method CloseLenLens(codes: array<Entry>, work: array<nat>, ghost wrap: bool, st: Regs, ghost out: seq<byte>, ghost r: seq<bool>)
    returns (st': Regs, end: nat, root: nat)
    requires codes.Length == ENOUGH && work.Length >= 288
    requires st.mode == LENLENS && |st.lens| == 320 && st.have == st.ncode <= 19 && WellFormed(Abs(wrap, st, out))
    modifies codes, work
    ensures Goes(Abs(wrap, st, out), r, Abs(wrap, st', out), r) && |st'.lens| == 320
    ensures st'.mode == BAD || (st'.mode == CODELENS && LengthTable(codes, end, root, st'.bl))
  {
    hide Step, Goes, WellFormed, Abs, PhaseOf, Ready, Acceptable, SpaceNeeded, RootBits, SentOf, RestZero, Decodes, Rejects, Decodable, Fits;
    var lens := FillLenLens(st.lens, st.have);
    LenLensEndIs(wrap, st, out, lens, r);
    SentSmall(wrap, st, out, lens);
    var bl := lens[..19];
    SevenBits(bl);
    var ret: int;
    ret, end, root := InflateTable(CODES, bl, codes, 0, 7, work);
    st' := if ret != 0 then st.(mode := BAD, lens := lens) else st.(mode := CODELENS, have := 0, lens := lens, bl := bl);
    assert r[0..] == r;
    GoesBy(Abs(wrap, st, out), r, Abs(wrap, st', out), r, 0);
    if ret == 0 {
      LengthReady(codes[0..end], root, bl);
    }
  }

  lemma LengthReady(t: seq<Entry>, root: nat, bl: seq<nat>)
    requires |bl| == 19 && ValidLens(bl) && Acceptable(CODES, bl) && Decodes(t, root, CODES, bl) && Rejects(t, root, bl)
    ensures Ready(t, root, CODES, bl)
  {
    hide Decodes, Rejects, Kraft;
  }

  /** LENLENS. */
  method DoLenLens(src: BitSource, codes: array<Entry>, work: array<nat>, ghost wrap: bool, st: Regs, ghost out: seq<byte>)
    returns (ok: bool, st': Regs, end: nat, root: nat)
    requires src.Valid() && codes.Length == ENOUGH && work.Length >= 288 && st.mode == LENLENS && |st.lens| == 320
    requires Thrifty(LENLENS, Abs(wrap, st, out), src.Acc()) && WellFormed(Abs(wrap, st, out))
    modifies src`hold, src`bits, src`next, codes, work
    ensures src.Valid() && src.next >= old(src.next) && Thrifty(st'.mode, Abs(wrap, st', out), src.Acc()) && |st'.lens| == 320
    ensures Goes(Abs(wrap, st, out), old(src.Rest()), Abs(wrap, st', out), src.Rest())
    ensures if ok then Later(|src.Rest()|, st'.mode, |old(src.Rest())|, st.mode)
            else st'.mode == LENLENS && src.next == |src.inp| && Starved(Abs(wrap, st', out), src.Acc())
    ensures ok ==> st'.mode == BAD || (st'.mode == CODELENS && LengthTable(codes, end, root, st'.bl))
  {
    hide BitSource.Valid, BitSource.Rest, ToBits, Step, Goes, WellFormed, Abs, PhaseOf, TableAt, Fits;
    ghost var s, r := Abs(wrap, st, out), src.Rest();
    st' := st;
    GoesSelf(s, r);
    LenLensBounds(wrap, st, out);
    while st'.have < st'.ncode
      invariant src.Valid() && src.next >= old(src.next) && st'.mode == LENLENS && |st'.lens| == 320 && st'.have <= st'.ncode <= 19
      invariant Thrifty(LENLENS, Abs(wrap, st', out), src.Acc()) && Goes(s, r, Abs(wrap, st', out), src.Rest()) && WellFormed(Abs(wrap, st', out))
      invariant |src.Rest()| <= |r|
      decreases st'.ncode - st'.have
    {
      ghost var s1, r1 := Abs(wrap, st', out), src.Rest();
      ok, st' := OneLenLen(src, wrap, st', out);
      GoesTrans(s, r, s1, r1, Abs(wrap, st', out), src.Rest());
      if !ok {
        end, root := 0, 0;
        return;
      }
      GoesGood(s1, r1, Abs(wrap, st', out), src.Rest());
    }
    ghost var s1, r1 := Abs(wrap, st', out), src.Rest();
    LenLensLean(wrap, st', out, src.Acc());
    st', end, root := CloseLenLens(codes, work, wrap, st', out, r1);
    GoesTrans(s, r, s1, r1, Abs(wrap, st', out), src.Rest());
    ok := true;
  }

  lemma GoesGood(s: State, r: seq<bool>, s': State, r': seq<bool>)
    requires Goes(s, r, s', r')
    ensures WellFormed(s')
  {
  }

  lemma LenLensBounds(wrap: bool, st: Regs, out: seq<byte>)
    requires st.mode == LENLENS && WellFormed(Abs(wrap, st, out))
    ensures st.have <= st.ncode <= 19
  {
  }

  /** When all have been read, the accumulator holds at most seven bits. */
  lemma LenLensLean(wrap: bool, st: Regs, out: seq<byte>, acc: seq<bool>)
    requires st.mode == LENLENS && |st.lens| >= 19 && st.have == st.ncode <= 19 && Thrifty(LENLENS, Abs(wrap, st, out), acc)
    ensures |acc| < 8
  {
    hide Acceptable, Ordered, Sent;
  }

  // ---- CODELENS

  /** copy lengths len from index have on. */
  function Filled(lens: seq<nat>, have: nat, len: nat, copy: nat): (r: seq<nat>)
    requires have + copy <= |lens|
    ensures |r| == |lens|
  {
    lens[..have] + Repeat(len, copy) + lens[have + copy..]
  }

  /** What a code length symbol does: sym and used come from the table, copy from the extra bits. */
  function LengthRegs(st: Regs, sym: nat, x: nat): Regs {
    if sym < 16 then (if st.have < |st.lens| then st.(lens := Filled(st.lens, st.have, sym, 1), have := st.have + 1) else st)
    else if sym == 16 && st.have == 0 then st.(mode := BAD)
    else
      var len := if sym == 16 && st.have - 1 < |st.lens| then st.lens[st.have - 1] else 0;
      var copy := x + RepeatBase(sym);
      if st.have + copy > st.nlen + st.ndist || st.have + copy > |st.lens| then st.(mode := BAD)
      else st.(lens := Filled(st.lens, st.have, len, copy), have := st.have + copy)
  }

  /** The bits a code length symbol takes. */
  function LengthUsed(st: Regs, sym: nat, used: nat): nat {
    if sym < 16 || (sym == 16 && st.have == 0) then used else used + RepeatBits(sym)
  }

  lemma FilledFront(lens: seq<nat>, have: nat, len: nat, copy: nat)
    requires have + copy <= |lens|
    ensures Filled(lens, have, len, copy)[..have + copy] == lens[..have] + Repeat(len, copy)
  {
  }

  /** CODELENS in terms of what the symbol and the extra bits are. */
  lemma LengthStepIs(wrap: bool, st: Regs, out: seq<byte>, r: seq<bool>, sym: nat, used: nat)
    requires st.mode == CODELENS && |st.lens| == 320 && st.have < st.nlen + st.ndist <= 316 && sym < 19 && used <= |r|
    ensures LengthSymbolStep(Abs(wrap, st, out), r, sym, used) ==
      if sym >= 16 && |r| < used + RepeatBits(sym) then NeedInput
      else Outcome.Next(Abs(wrap, LengthRegs(st, sym, if sym < 16 then 0 else Take(r[used..], RepeatBits(sym))), out), LengthUsed(st, sym, used))
  {
    hide Take;
    if sym < 16 {
      FilledFront(st.lens, st.have, sym, 1);
      assert Repeat(sym, 1) == [sym];
    } else if |r| >= used + RepeatBits(sym) {
      var copy := Take(r[used..], RepeatBits(sym)) + RepeatBase(sym);
      var len := if sym == 16 && st.have > 0 then st.lens[st.have - 1] else 0;
      if st.have + copy <= st.nlen + st.ndist {
        FilledFront(st.lens, st.have, len, copy);
      }
    }
  }

  /** The symbol of the entry is the symbol that the machine takes, the marker for no code being the symbol 0. */
  lemma CodeLensStepIs(wrap: bool, st: Regs, out: seq<byte>, r: seq<bool>, e: Entry)
    requires st.mode == CODELENS && |st.lens| == 320 && st.have < st.nlen + st.ndist <= 316 && |st.bl| <= 19
    requires Tells(e, CODES, st.bl, DecodeSymbol(st.bl, r)) && e.bits == Used(st.bl, DecodeSymbol(st.bl, r))
    ensures e.val < 19 && e.bits <= |r| && Step(Abs(wrap, st, out), r) == LengthSymbolStep(Abs(wrap, st, out), r, e.val, e.bits)
  {
    hide DecodeSymbol, LengthSymbolStep;
    assert DecodeSymbol(st.bl, r).NoCode? ==> |r| >= 1;
  }

  lemma CodeLensStarved(wrap: bool, st: Regs, out: seq<byte>, r: seq<bool>)
    requires st.mode == CODELENS && |st.lens| == 320 && st.have < st.nlen + st.ndist <= 316 && DecodeSymbol(st.bl, r).NeedMore?
    ensures Starved(Abs(wrap, st, out), r)
  {
    hide DecodeSymbol, LengthSymbolStep;
  }

  lemma CodeLensBounds(wrap: bool, st: Regs, out: seq<byte>)
    requires st.mode == CODELENS && |st.lens| == 320 && WellFormed(Abs(wrap, st, out))
    ensures 258 <= st.nlen + st.ndist <= 316 && |st.bl| == 19 && st.nlen <= 286 && 257 <= st.nlen && 1 <= st.ndist <= 30 && Decodable(st.bl)
    ensures st.have <= st.nlen + st.ndist
  {
    hide Decodable;
  }

  /** The bits at hand are no more than a byte above what the next symbol needs. */
  lemma CodeLensLean(src: BitSource, wrap: bool, st: Regs, out: seq<byte>)
    requires src.Valid() && st.mode == CODELENS && |st.lens| == 320 && st.have < st.nlen + st.ndist <= 316
    requires Thrifty(CODELENS, Abs(wrap, st, out), src.Acc())
    ensures Lean(st.bl, src.hold, src.bits)
  {
    hide BitSource.Valid, DecodeSymbol, LengthSymbolStep, Needs, ToBits;
    src.Fits();
    NextIs(st.bl, src.hold, src.bits);
    var d := DecodeSymbol(st.bl, src.Acc());
    if src.bits >= 8 && !d.NeedMore? {
      var sym := if d.Found? then d.sym else 0;
      LengthStarved(Abs(wrap, st, out), src.Acc(), sym, Used(st.bl, d));
    }
  }

  lemma LengthStarved(s: State, r: seq<bool>, sym: nat, used: nat)
    requires s.phase.CodeLens? && used <= |r| && LengthSymbolStep(s, r, sym, used).NeedInput?
    ensures |r| < used + 7
  {
    hide Take;
  }

  lemma FitsNeeds(bl: seq<nat>, root: nat, hold: nat)
    requires Fits(bl, root)
    ensures Needs(bl, hold) <= root
  {
    hide Covers;
  }

  /** Looks at the next code length symbol; its entry is never a link. */
  method PeekLength(src: BitSource, codes: array<Entry>, ghost end: nat, root: nat, ghost wrap: bool, st: Regs, ghost out: seq<byte>)
    returns (ok: bool, e: Entry)
    requires src.Valid() && st.mode == CODELENS && |st.lens| == 320 && st.have < st.nlen + st.ndist <= 316 && LengthTable(codes, end, root, st.bl)
    requires Thrifty(CODELENS, Abs(wrap, st, out), src.Acc())
    modifies src`hold, src`bits, src`next
    ensures src.Valid() && src.Rest() == old(src.Rest()) && src.next >= old(src.next) && |st.bl| <= 19 && Decodable(st.bl)
    ensures if ok then Tells(e, CODES, st.bl, DecodeSymbol(st.bl, src.Rest())) && e.bits == Used(st.bl, DecodeSymbol(st.bl, src.Rest()))
                       && 1 <= e.bits <= src.bits < 8 + e.bits <= 23
            else src.next == |src.inp| && Starved(Abs(wrap, st, out), src.Acc())
  {
    hide BitSource.Valid, BitSource.Rest, ToBits, Step, Abs, PhaseOf, TableAt, Fits, Ready, Needs, Pow2, DecodeSymbol, Tells, Used, EntryOf, Low,
      Thrifty, Starved;
    CodeLensLean(src, wrap, st, out);
    TableIs(codes, 0, end, root, CODES, st.bl);
    ReadyDecodable(codes[0..end], root, CODES, st.bl);
    ok, e := PeekRoot(src, codes, 0, root, end, CODES, st.bl);
    src.Fits();
    FitsNeeds(st.bl, root, src.hold);
    NextIs(st.bl, src.hold, src.bits);
    if ok {
      EntryTells(e, CODES, st.bl, Lookup.Next(st.bl, src.hold, src.bits), 0);
      RestDecodes(src, st.bl);
    } else {
      Starving(st.bl, src.hold, src.bits);
      CodeLensStarved(wrap, st, out, src.Acc());
    }
  }

  /** Stores copy lengths len. */
  method Fill(lens: seq<nat>, have: nat, len: nat, copy: nat) returns (r: seq<nat>)
    requires have + copy <= |lens|
    ensures r == Filled(lens, have, len, copy)
  {
    r := lens;
    var i: nat := 0;
    while i < copy
      invariant i <= copy && |r| == |lens| && forall k: nat | k < |lens| :: r[k] == if have <= k < have + i then len else lens[k]
    {
      r := r[have + i := len];
      i := i + 1;
    }
  }

  /** The extra bits of a repetition and what they do. */
  method Repetition(src: BitSource, st: Regs, sym: nat) returns (st': Regs)
    requires src.Valid() && |st.lens| == 320 && st.have < st.nlen + st.ndist <= 316 && 16 <= sym < 19 && RepeatBits(sym) <= src.bits
    modifies src`hold, src`bits
    ensures src.Valid() && src.bits == old(src.bits) - (LengthUsed(st, sym, 0)) && LengthUsed(st, sym, 0) <= |old(src.Rest())|
    ensures src.Rest() == old(src.Rest())[LengthUsed(st, sym, 0)..]
    ensures RepeatBits(sym) <= |old(src.Rest())| && st' == LengthRegs(st, sym, Take(old(src.Rest()), RepeatBits(sym)))
  {
    hide BitSource.Valid, BitSource.Rest, Take, Filled;
    src.Fits();
    ghost var r := src.Rest();
    if sym == 16 && st.have == 0 {
      TakeIs(src, 2);
      assert r[0..] == r;
      return st.(mode := BAD);
    }
    var len := if sym == 16 then st.lens[st.have - 1] else 0;
    var x := TakeField(src, RepeatBits(sym));
    var copy := x + RepeatBase(sym);
    if st.have + copy > st.nlen + st.ndist {
      st' := st.(mode := BAD);
    } else {
      var lens := Fill(st.lens, st.have, len, copy);
      st' := st.(lens := lens, have := st.have + copy);
    }
  }

  lemma LengthRegsKeep(st: Regs, sym: nat, x: nat)
    requires |st.lens| == 320 && st.mode == CODELENS && st.have < 316
    ensures var u := LengthRegs(st, sym, x);
      |u.lens| == 320 && (u.mode == BAD || u == st.(lens := u.lens, have := u.have))
  {
  }

  /** A code length symbol has been looked at: its length, or a repetition. */
  method TakeLength(src: BitSource, ghost wrap: bool, st: Regs, ghost out: seq<byte>, e: Entry) returns (st': Regs)
    requires src.Valid() && st.mode == CODELENS && |st.lens| == 320 && st.have < st.nlen + st.ndist <= 316 && |st.bl| <= 19 && e.val < 16
    requires Tells(e, CODES, st.bl, DecodeSymbol(st.bl, src.Rest())) && e.bits == Used(st.bl, DecodeSymbol(st.bl, src.Rest())) <= src.bits
    requires WellFormed(Abs(wrap, st, out))
    modifies src`hold, src`bits
    ensures src.Valid() && src.bits == old(src.bits) - e.bits && |src.Rest()| == |old(src.Rest())| - e.bits
    ensures Goes(Abs(wrap, st, out), old(src.Rest()), Abs(wrap, st', out), src.Rest())
    ensures |st'.lens| == 320 && st' == st.(lens := st'.lens, have := st.have + 1)
  {
    hide BitSource.Valid, BitSource.Rest, Step, Abs, PhaseOf, DecodeSymbol, Tells, Used, Goes, WellFormed, LengthRegs, LengthSymbolStep, Filled;
    ghost var s, r := Abs(wrap, st, out), src.Rest();
    CodeLensStepIs(wrap, st, out, r, e);
    LengthStepIs(wrap, st, out, r, e.val, e.bits);
    src.DropBits(e.bits);
    st' := Store(st, e.val);
    GoesBy(s, r, Abs(wrap, st', out), src.Rest(), e.bits);
  }

  method TakeRepeat(src: BitSource, ghost wrap: bool, st: Regs, ghost out: seq<byte>, e: Entry) returns (st': Regs)
    requires src.Valid() && st.mode == CODELENS && |st.lens| == 320 && st.have < st.nlen + st.ndist <= 316 && |st.bl| <= 19 && 16 <= e.val
    requires Tells(e, CODES, st.bl, DecodeSymbol(st.bl, src.Rest())) && e.bits == Used(st.bl, DecodeSymbol(st.bl, src.Rest()))
    requires WellFormed(Abs(wrap, st, out)) && e.bits + RepeatBits(e.val) <= src.bits
    modifies src`hold, src`bits
    ensures src.Valid() && |src.Rest()| <= |old(src.Rest())| - e.bits
    ensures st'.mode != BAD ==> src.bits == old(src.bits) - e.bits - RepeatBits(e.val)
    ensures Goes(Abs(wrap, st, out), old(src.Rest()), Abs(wrap, st', out), src.Rest())
    ensures |st'.lens| == 320 && (st'.mode == BAD || st' == st.(lens := st'.lens, have := st'.have))
  {
    hide BitSource.Valid, BitSource.Rest, Step, Abs, PhaseOf, DecodeSymbol, Tells, Used, Goes, WellFormed, LengthRegs, LengthSymbolStep, Filled, Take;
    ghost var s, r := Abs(wrap, st, out), src.Rest();
    CodeLensStepIs(wrap, st, out, r, e);
    LengthStepIs(wrap, st, out, r, e.val, e.bits);
    EnoughLeft(src, e.bits + RepeatBits(e.val));
    src.DropBits(e.bits);
    ghost var x, n := Take(src.Rest(), RepeatBits(e.val)), LengthUsed(st, e.val, 0);
    LengthRegsKeep(st, e.val, x);
    st' := Repetition(src, st, e.val);
    Cut(r, e.bits, n);
    GoesBy(s, r, Abs(wrap, st', out), src.Rest(), e.bits + n);
    if st'.mode != BAD {
      LengthUsedIs(st, e.val, x);
    }
  }

  lemma LengthUsedIs(st: Regs, sym: nat, x: nat)
    requires 16 <= sym && LengthRegs(st, sym, x).mode != BAD
    ensures LengthUsed(st, sym, 0) == RepeatBits(sym)
  {
  }

  /** One code length symbol. */
  method OneCodeLen(src: BitSource, codes: array<Entry>, ghost end: nat, root: nat, ghost wrap: bool, st: Regs, ghost out: seq<byte>)
    returns (ok: bool, st': Regs)
    requires src.Valid() && st.mode == CODELENS && |st.lens| == 320 && st.have < st.nlen + st.ndist <= 316 && LengthTable(codes, end, root, st.bl)
    requires Thrifty(CODELENS, Abs(wrap, st, out), src.Acc()) && WellFormed(Abs(wrap, st, out))
    modifies src`hold, src`bits, src`next
    ensures src.Valid() && src.next >= old(src.next)
    ensures Goes(Abs(wrap, st, out), old(src.Rest()), Abs(wrap, st', out), src.Rest())
    ensures if ok then |src.Rest()| < |old(src.Rest())| && (st'.mode == BAD || (src.bits < 8 && st' == st.(lens := st'.lens, have := st'.have)))
            else st' == st && src.next == |src.inp| && Starved(Abs(wrap, st, out), src.Acc())
    ensures |st'.lens| == 320
  {
    hide BitSource.Valid, BitSource.Rest, ToBits, Abs, PhaseOf, TableAt, Fits, DecodeSymbol, Tells, Used, Thrifty, Starved, Goes, WellFormed,
      LengthTable, Decodable;
    ghost var s, r := Abs(wrap, st, out), src.Rest();
    GoesSelf(s, r);
    var e: Entry;
    ok, e := PeekLength(src, codes, end, root, wrap, st, out);
    if !ok {
      return false, st;
    }
    if e.val < 16 {
      st' := TakeLength(src, wrap, st, out, e);
      return;
    }
    ok := src.NeedBits(e.bits + RepeatBits(e.val));
    if !ok {
      RepeatStarved(src, wrap, st, out, e);
      return false, st;
    }
    st' := TakeRepeat(src, wrap, st, out, e);
  }

  /** One length. */
  method Store(st: Regs, sym: nat) returns (st': Regs)
    requires sym < 16 && st.have < |st.lens|
    ensures st' == LengthRegs(st, sym, 0) && st' == st.(lens := st'.lens, have := st.have + 1) && |st'.lens| == |st.lens|
  {
    st' := st.(lens := st.lens[st.have := sym], have := st.have + 1);
    assert st'.lens == Filled(st.lens, st.have, sym, 1);
  }

  lemma EnoughLeft(src: BitSource, n: nat)
    requires src.Valid() && n <= src.bits
    ensures n <= |src.Rest()|
  {
  }

  /** Without the extra bits the step cannot be made. */
  lemma RepeatStarved(src: BitSource, wrap: bool, st: Regs, out: seq<byte>, e: Entry)
    requires src.Valid() && st.mode == CODELENS && |st.lens| == 320 && st.have < st.nlen + st.ndist <= 316 && |st.bl| <= 19 && Decodable(st.bl)
    requires Tells(e, CODES, st.bl, DecodeSymbol(st.bl, src.Rest())) && e.bits == Used(st.bl, DecodeSymbol(st.bl, src.Rest())) <= src.bits
    requires 16 <= e.val && src.bits < e.bits + RepeatBits(e.val)
    ensures Starved(Abs(wrap, st, out), src.Acc())
  {
    hide BitSource.Valid, BitSource.Rest, DecodeSymbol, Decodable, Abs, PhaseOf, Step, LengthSymbolStep, Tells, Used;
    TellsFound(e, CODES, st.bl, DecodeSymbol(st.bl, src.Rest()));
    StillDecodes(src, st.bl);
    CodeLensStepIs(wrap, st, out, src.Acc(), e);
    LengthStepIs(wrap, st, out, src.Acc(), e.val, e.bits);
  }

  lemma TellsFound(e: Entry, kind: Kind, lens: seq<nat>, d: Symbol)
    requires |lens| <= MaxSymbols(kind) && Tells(e, kind, lens, d)
    ensures !d.NeedMore? && (kind == CODES ==> e.val < 19)
  {
  }

  lemma CodeLensEndIs(wrap: bool, st: Regs, out: seq<byte>, r: seq<bool>)
    requires st.mode == CODELENS && |st.lens| == 320 && st.have == st.nlen + st.ndist <= 316
    ensures var lit, dist := st.lens[..st.nlen], st.lens[st.nlen..st.have];
      Step(Abs(wrap, st, out), r) == Outcome.Next(Abs(wrap,
        if Acceptable(LENS, lit) && Acceptable(DISTS, dist) then st.(mode := LEN, lit := lit, dist := dist) else st.(mode := BAD), out), 0)
  {
    hide Acceptable;
    assert st.lens[..st.have][..st.nlen] == st.lens[..st.nlen];
    assert st.lens[..st.have][st.nlen..] == st.lens[st.nlen..st.have];
  }

  /** The tables of the block's codes, one after the other in codes. */
  ghost predicate CodeTables(codes: array<Entry>, lenEnd: nat, lenbits: nat, distEnd: nat, distbits: nat, lit: seq<nat>, dist: seq<nat>)
    reads codes
  {
    TableAt(codes, 0, lenEnd, lenbits, LENS, lit) && TableAt(codes, lenEnd, distEnd, distbits, DISTS, dist)
  }

  lemma LensValid(wrap: bool, st: Regs, out: seq<byte>)
    requires st.mode == CODELENS && |st.lens| == 320 && st.have == st.nlen + st.ndist <= 316 && WellFormed(Abs(wrap, st, out))
    ensures ValidLens(st.lens[..st.nlen]) && ValidLens(st.lens[st.nlen..st.have])
  {
    hide Decodable;
    assert ValidLens(st.lens[..st.have]);
    forall i | 0 <= i < st.have
      ensures st.lens[i] <= MAX_BITS
    {
      assert st.lens[..st.have][i] <= MAX_BITS;
    }
  }

  lemma TableReady(t: seq<Entry>, root: nat, kind: Kind, lens: seq<nat>)
    requires kind != CODES && |lens| <= MaxSymbols(kind) && ValidLens(lens) && Acceptable(kind, lens)
    requires Decodes(t, root, kind, lens) && Rejects(t, root, lens)
    ensures Ready(t, root, kind, lens)
  {
    hide Decodes, Rejects, Kraft;
  }

  lemma Room(lit: seq<nat>, dist: seq<nat>)
    requires |lit| <= 286 && |dist| <= 30
    ensures Acceptable(LENS, lit) ==> SpaceNeeded(lit, 9) < ENOUGH - MAXD
    ensures Acceptable(LENS, lit) && Acceptable(DISTS, dist) ==> SpaceNeeded(lit, 9) + SpaceNeeded(dist, 6) <= ENOUGH
  {
    hide Acceptable, SpaceNeeded;
    NoneAcceptable();
    if Acceptable(LENS, lit) {
      EnoughSuffices(lit, []);
      if Acceptable(DISTS, dist) {
        EnoughSuffices(lit, dist);
      }
    }
  }

  lemma NoneAcceptable()
    ensures Acceptable(DISTS, [])
  {
    assert NoCodes([]);
  }

  /** The end of CODELENS: builds the tables of the block's codes. */
  method BuildCodes(codes: array<Entry>, work: array<nat>, ghost wrap: bool, st: Regs, ghost out: seq<byte>, ghost r: seq<bool>)
    returns (st': Regs, lenEnd: nat, lenbits: nat, distEnd: nat, distbits: nat)
    requires codes.Length == ENOUGH && work.Length >= 288
    requires st.mode == CODELENS && |st.lens| == 320 && st.have == st.nlen + st.ndist && WellFormed(Abs(wrap, st, out))
    modifies codes, work
    ensures Goes(Abs(wrap, st, out), r, Abs(wrap, st', out), r) && |st'.lens| == 320
    ensures st'.mode == BAD || (st'.mode == LEN && CodeTables(codes, lenEnd, lenbits, distEnd, distbits, st'.lit, st'.dist))
  {
    hide Step, Goes, WellFormed, Abs, PhaseOf, Ready, Acceptable, SpaceNeeded, RootBits, Decodes, Rejects, Decodable;
    CodeLensBounds(wrap, st, out);
    LensValid(wrap, st, out);
    CodeLensEndIs(wrap, st, out, r);
    assert r[0..] == r;
    var lit, dist := st.lens[..st.nlen], st.lens[st.nlen..st.have];
    Room(lit, dist);
    st', distEnd, distbits := st.(mode := BAD), 0, 0;
    var ret: int;
    ret, lenEnd, lenbits := InflateTable(LENS, lit, codes, 0, 9, work);
    if ret == 0 {
      TableReady(codes[0..lenEnd], lenbits, LENS, lit);
      ghost var t := codes[0..lenEnd];
      ret, distEnd, distbits := InflateTable(DISTS, dist, codes, lenEnd, 6, work);
      assert codes[0..lenEnd] == codes[..lenEnd] == t;
      if ret == 0 {
        TableReady(codes[lenEnd..distEnd], distbits, DISTS, dist);
        st' := st.(mode := LEN, lit := lit, dist := dist);
      }
    }
    GoesBy(Abs(wrap, st, out), r, Abs(wrap, st', out), r, 0);
  }

  /** When all have been read, the accumulator holds at most seven bits. */
  lemma CodeLensDone(wrap: bool, st: Regs, out: seq<byte>, acc: seq<bool>)
    requires st.mode == CODELENS && |st.lens| == 320 && st.have == st.nlen + st.ndist <= 316 && Thrifty(CODELENS, Abs(wrap, st, out), acc)
    ensures |acc| < 8
  {
    hide Step, Abs, PhaseOf;
    CodeLensEndIs(wrap, st, out, acc);
  }

  /** CODELENS. */
  method DoCodeLens(src: BitSource, codes: array<Entry>, work: array<nat>, ghost end: nat, root: nat, ghost wrap: bool, st: Regs, ghost out: seq<byte>)
    returns (ok: bool, st': Regs, lenEnd: nat, lenbits: nat, distEnd: nat, distbits: nat)
    requires src.Valid() && codes.Length == ENOUGH && work.Length >= 288 && st.mode == CODELENS && |st.lens| == 320
    requires LengthTable(codes, end, root, st.bl) && Thrifty(CODELENS, Abs(wrap, st, out), src.Acc()) && WellFormed(Abs(wrap, st, out))
    modifies src`hold, src`bits, src`next, codes, work
    ensures src.Valid() && src.next >= old(src.next) && Thrifty(st'.mode, Abs(wrap, st', out), src.Acc()) && |st'.lens| == 320
    ensures Goes(Abs(wrap, st, out), old(src.Rest()), Abs(wrap, st', out), src.Rest())
    ensures if ok then Later(|src.Rest()|, st'.mode, |old(src.Rest())|, st.mode)
            else st'.mode == CODELENS && st'.bl == st.bl && LengthTable(codes, end, root, st'.bl)
                 && src.next == |src.inp| && Starved(Abs(wrap, st', out), src.Acc())
    ensures ok ==> st'.mode == BAD || (st'.mode == LEN && CodeTables(codes, lenEnd, lenbits, distEnd, distbits, st'.lit, st'.dist))
  {
    hide BitSource.Valid, BitSource.Rest, ToBits, Step, Goes, WellFormed, Abs, PhaseOf, TableAt, Fits, LengthTable;
    ghost var s, r := Abs(wrap, st, out), src.Rest();
    st', lenEnd, lenbits, distEnd, distbits := st, 0, 0, 0, 0;
    GoesSelf(s, r);
    CodeLensBounds(wrap, st, out);
    ghost var total := st.nlen + st.ndist;
    while st'.have < st'.nlen + st'.ndist
      invariant src.Valid() && src.next >= old(src.next) && st'.mode == CODELENS && |st'.lens| == 320
      invariant st'.bl == st.bl && st'.nlen + st'.ndist == total && st'.have <= total && LengthTable(codes, end, root, st'.bl)
      invariant Thrifty(CODELENS, Abs(wrap, st', out), src.Acc()) && Goes(s, r, Abs(wrap, st', out), src.Rest()) && WellFormed(Abs(wrap, st', out))
      invariant |src.Rest()| <= |r|
      decreases |src.Rest()|
    {
      ghost var s1, r1 := Abs(wrap, st', out), src.Rest();
      ok, st' := OneCodeLen(src, codes, end, root, wrap, st', out);
      GoesTrans(s, r, s1, r1, Abs(wrap, st', out), src.Rest());
      if !ok || st'.mode == BAD {
        return;
      }
      GoesGood(s1, r1, Abs(wrap, st', out), src.Rest());
      CodeLensBounds(wrap, st', out);
    }
    ghost var s1, r1 := Abs(wrap, st', out), src.Rest();
    CodeLensDone(wrap, st', out, src.Acc());
    st', lenEnd, lenbits, distEnd, distbits := BuildCodes(codes, work, wrap, st', out, r1);
    GoesTrans(s, r, s1, r1, Abs(wrap, st', out), src.Rest());
    ok := true;
  }
}
