/** The modes of inflate() that decode: LEN, LENEXT, DIST, DISTEXT, MATCH, LIT and COPY, and CHECK after the last block. */
module CodeModes {
  import opened Bits
  import opened Canonical
  import opened InfTrees
  import opened Tokens
  import opened Machine
  import opened Runs
  import opened Lookup
  import opened BitSource
  import opened Window
  import opened Output
  import opened Decode
  import opened InflateFast
  import opened Modes
  import Adler32

  // ---- LEN

  /** What LEN does with an entry. */
  function LenRegs(st: Regs, e: Entry): Regs {
    var t := st.(length := e.val);
    if e.op == 0 then t.(mode := LIT) else if HasBit(e.op, 32) then t.(mode := TYPE) else if HasBit(e.op, 64) then t.(mode := BAD)
    else t.(mode := LENEXT, extra := e.op % 16)
  }

  lemma LenStepIs(wrap: bool, st: Regs, out: seq<byte>, r: seq<bool>, e: Entry)
    requires st.mode == LEN && WellFormed(Abs(wrap, st, out)) && |st.lit| <= 288 && Tells(e, LENS, st.lit, DecodeSymbol(st.lit, r))
    ensures Step(Abs(wrap, st, out), r) == Outcome.Next(Abs(wrap, LenRegs(st, e), out), Used(st.lit, DecodeSymbol(st.lit, r)))
  {
    hide Step, DecodeSymbol, Decodable, HasBit, Tells, Used;
    LenMeans(Abs(wrap, st, out), r, e);
  }

  lemma LenStarved(wrap: bool, st: Regs, out: seq<byte>, r: seq<bool>)
    requires st.mode == LEN
    ensures Starved(Abs(wrap, st, out), r) <==> DecodeSymbol(st.lit, r).NeedMore?
  {
    hide DecodeSymbol, LengthBase, LengthExtra;
  }

  lemma NeedsMore(src: BitSource, lens: seq<nat>)
    requires src.Valid()
    ensures DecodeSymbol(lens, src.Acc()).NeedMore? <==> src.bits < Needs(lens, src.hold)
  {
    hide DecodeSymbol, Needs, ToBits, BitSource.Valid;
    src.Fits();
    NextIs(lens, src.hold, src.bits);
  }

  lemma GoodTables(t: array<Entry>, start: nat, end: nat, root: nat, kind: Kind, lens: seq<nat>)
    requires TableAt(t, start, end, root, kind, lens)
    ensures Decodable(lens) && |lens| <= MaxSymbols(kind)
  {
  }

  method DoLen(src: BitSource, t: array<Entry>, start: nat, root: nat, ghost end: nat, ghost wrap: bool, st: Regs, ghost out: seq<byte>)
    returns (ok: bool, st': Regs)
    requires src.Valid() && st.mode == LEN && TableAt(t, start, end, root, LENS, st.lit)
    requires Thrifty(LEN, Abs(wrap, st, out), src.Acc()) && WellFormed(Abs(wrap, st, out))
    modifies src`hold, src`bits, src`next
    ensures src.Valid() && src.next >= old(src.next) && Thrifty(st'.mode, Abs(wrap, st', out), src.Acc())
    ensures Goes(Abs(wrap, st, out), old(src.Rest()), Abs(wrap, st', out), src.Rest())
    ensures if ok then |src.Rest()| < |old(src.Rest())| && st' == st.(mode := st'.mode, length := st'.length, extra := st'.extra)
                       && st'.mode in {LIT, TYPE, BAD, LENEXT}
            else st' == st && src.next == |src.inp| && Starved(Abs(wrap, st, out), src.Acc())
  {
    hide BitSource.Valid, BitSource.Rest, ToBits, Step, Goes, WellFormed, Abs, PhaseOf, TableAt, DecodeSymbol, Tells, Used, Needs, Decodable, HasBit;
    ghost var s, r := Abs(wrap, st, out), src.Rest();
    GoesSelf(s, r);
    GoodTables(t, start, end, root, LENS, st.lit);
    LenStarved(wrap, st, out, src.Acc());
    NeedsMore(src, st.lit);
    var e: Entry;
    ok, e := ReadSymbol(src, t, start, root, end, LENS, st.lit);
    if !ok {
      LenStarved(wrap, st, out, src.Acc());
      return false, st;
    }
    LenStepIs(wrap, st, out, r, e);
    st' := LenRegs(st, e);
    UsedSome(st.lit, DecodeSymbol(st.lit, r), r);
    GoesBy(s, r, Abs(wrap, st', out), src.Rest(), Used(st.lit, DecodeSymbol(st.lit, r)));
  }

  lemma UsedSome(lens: seq<nat>, d: Symbol, r: seq<bool>)
    requires d == DecodeSymbol(lens, r)
    ensures Used(lens, d) >= 1
  {
    hide DecodeSymbol;
  }

  // ---- LENEXT

  lemma LenExtStepIs(wrap: bool, st: Regs, out: seq<byte>, r: seq<bool>)
    requires st.mode == LENEXT
    ensures Step(Abs(wrap, st, out), r) == if |r| < st.extra then NeedInput
      else Outcome.Next(Abs(wrap, st.(mode := DIST, length := st.length + Take(r, st.extra)), out), st.extra)
  {
    hide Take;
  }

  lemma ExtraBounds(wrap: bool, st: Regs, out: seq<byte>)
    requires (st.mode == LENEXT || st.mode == DISTEXT) && WellFormed(Abs(wrap, st, out))
    ensures st.extra <= 13
  {
    hide GoodCodes;
  }

  method DoLenExt(src: BitSource, ghost wrap: bool, st: Regs, ghost out: seq<byte>) returns (ok: bool, st': Regs)
    requires src.Valid() && st.mode == LENEXT && Thrifty(LENEXT, Abs(wrap, st, out), src.Acc()) && WellFormed(Abs(wrap, st, out))
    modifies src`hold, src`bits, src`next
    ensures src.Valid() && src.next >= old(src.next) && Thrifty(st'.mode, Abs(wrap, st', out), src.Acc())
    ensures Goes(Abs(wrap, st, out), old(src.Rest()), Abs(wrap, st', out), src.Rest())
    ensures if ok then Later(|src.Rest()|, st'.mode, |old(src.Rest())|, st.mode) && st' == st.(mode := DIST, length := st'.length)
            else st' == st && src.next == |src.inp| && Starved(Abs(wrap, st, out), src.Acc())
  {
    hide BitSource.Valid, BitSource.Rest, ToBits, Step, Goes, WellFormed, Abs, PhaseOf, Take;
    ghost var s, r := Abs(wrap, st, out), src.Rest();
    GoesSelf(s, r);
    LenExtStepIs(wrap, st, out, src.Acc());
    ExtraBounds(wrap, st, out);
    ok := src.NeedBits(st.extra);
    if !ok {
      LenExtStepIs(wrap, st, out, src.Acc());
      return false, st;
    }
    LenExtStepIs(wrap, st, out, r);
    var x := TakeField(src, st.extra);
    var length := st.length + x;
    st' := st.(mode := DIST, length := length);
    GoesBy(s, r, Abs(wrap, st', out), src.Rest(), st.extra);
  }

  // ---- DIST

  function DistRegs(st: Regs, e: Entry): Regs {
    if HasBit(e.op, 64) then st.(mode := BAD) else st.(mode := DISTEXT, offset := e.val, extra := e.op % 16)
  }

  lemma DistStepIs(wrap: bool, st: Regs, out: seq<byte>, r: seq<bool>, e: Entry)
    requires st.mode == DIST && WellFormed(Abs(wrap, st, out)) && |st.dist| <= 32 && Tells(e, DISTS, st.dist, DecodeSymbol(st.dist, r))
    ensures Step(Abs(wrap, st, out), r) == Outcome.Next(Abs(wrap, DistRegs(st, e), out), Used(st.dist, DecodeSymbol(st.dist, r)))
  {
    hide Step, DecodeSymbol, Decodable, HasBit, Tells, Used;
    DistMeans(Abs(wrap, st, out), r, e);
  }

  lemma DistStarved(wrap: bool, st: Regs, out: seq<byte>, r: seq<bool>)
    requires st.mode == DIST
    ensures Starved(Abs(wrap, st, out), r) <==> DecodeSymbol(st.dist, r).NeedMore?
  {
    hide DecodeSymbol, DistBase, DistExtra;
  }

  method DoDist(src: BitSource, t: array<Entry>, start: nat, root: nat, ghost end: nat, ghost wrap: bool, st: Regs, ghost out: seq<byte>)
    returns (ok: bool, st': Regs)
    requires src.Valid() && st.mode == DIST && TableAt(t, start, end, root, DISTS, st.dist)
    requires Thrifty(DIST, Abs(wrap, st, out), src.Acc()) && WellFormed(Abs(wrap, st, out))
    modifies src`hold, src`bits, src`next
    ensures src.Valid() && src.next >= old(src.next) && Thrifty(st'.mode, Abs(wrap, st', out), src.Acc())
    ensures Goes(Abs(wrap, st, out), old(src.Rest()), Abs(wrap, st', out), src.Rest())
    ensures if ok then |src.Rest()| < |old(src.Rest())| && st' == st.(mode := st'.mode, offset := st'.offset, extra := st'.extra)
                       && st'.mode in {BAD, DISTEXT}
            else st' == st && src.next == |src.inp| && Starved(Abs(wrap, st, out), src.Acc())
  {
    hide BitSource.Valid, BitSource.Rest, ToBits, Step, Goes, WellFormed, Abs, PhaseOf, TableAt, DecodeSymbol, Tells, Used, Needs, Decodable, HasBit;
    ghost var s, r := Abs(wrap, st, out), src.Rest();
    GoesSelf(s, r);
    GoodTables(t, start, end, root, DISTS, st.dist);
    DistStarved(wrap, st, out, src.Acc());
    NeedsMore(src, st.dist);
    var e: Entry;
    ok, e := ReadSymbol(src, t, start, root, end, DISTS, st.dist);
    if !ok {
      DistStarved(wrap, st, out, src.Acc());
      return false, st;
    }
    DistStepIs(wrap, st, out, r, e);
    st' := DistRegs(st, e);
    UsedSome(st.dist, DecodeSymbol(st.dist, r), r);
    GoesBy(s, r, Abs(wrap, st', out), src.Rest(), Used(st.dist, DecodeSymbol(st.dist, r)));
  }

  // ---- DISTEXT

  /** How far back the output can be copied: exactly as far as there is output, or farther than any distance. */
  ghost predicate Reach(reach: nat, out: seq<byte>) { reach == |out| || (reach >= MAX_WINDOW && |out| >= MAX_WINDOW) }

  lemma DistExtStepIs(wrap: bool, st: Regs, out: seq<byte>, r: seq<bool>, reach: nat)
    requires st.mode == DISTEXT && Reach(reach, out) && WellFormed(Abs(wrap, st, out))
    ensures Step(Abs(wrap, st, out), r) == if |r| < st.extra then NeedInput
      else var dist := st.offset + Take(r, st.extra);
        Outcome.Next(Abs(wrap, st.(mode := if dist > reach then BAD else MATCH, offset := dist), out), st.extra)
  {
    hide Take, WellFormed;
    if |r| >= st.extra {
      DistExtBound(wrap, st, out, r);
    }
  }

  lemma DistExtBound(wrap: bool, st: Regs, out: seq<byte>, r: seq<bool>)
    requires st.mode == DISTEXT && WellFormed(Abs(wrap, st, out)) && |r| >= st.extra
    ensures st.offset + Take(r, st.extra) <= MAX_WINDOW
  {
    hide FromBits, GoodCodes;
  }

  method DoDistExt(src: BitSource, reach: nat, ghost wrap: bool, st: Regs, ghost out: seq<byte>) returns (ok: bool, st': Regs)
    requires src.Valid() && st.mode == DISTEXT && Thrifty(DISTEXT, Abs(wrap, st, out), src.Acc()) && WellFormed(Abs(wrap, st, out)) && Reach(reach, out)
    modifies src`hold, src`bits, src`next
    ensures src.Valid() && src.next >= old(src.next) && Thrifty(st'.mode, Abs(wrap, st', out), src.Acc())
    ensures Goes(Abs(wrap, st, out), old(src.Rest()), Abs(wrap, st', out), src.Rest())
    ensures if ok then Later(|src.Rest()|, st'.mode, |old(src.Rest())|, st.mode) && st' == st.(mode := st'.mode, offset := st'.offset)
                       && st'.mode in {BAD, MATCH}
            else st' == st && src.next == |src.inp| && Starved(Abs(wrap, st, out), src.Acc())
  {
    hide BitSource.Valid, BitSource.Rest, ToBits, Step, Goes, WellFormed, Abs, PhaseOf, Take, Reach;
    ghost var s, r := Abs(wrap, st, out), src.Rest();
    GoesSelf(s, r);
    DistExtStepIs(wrap, st, out, src.Acc(), reach);
    ExtraBounds(wrap, st, out);
    ok := src.NeedBits(st.extra);
    if !ok {
      DistExtStepIs(wrap, st, out, src.Acc(), reach);
      return false, st;
    }
    DistExtStepIs(wrap, st, out, r, reach);
    var x := TakeField(src, st.extra);
    var dist := st.offset + x;
    st' := st.(mode := if dist > reach then BAD else MATCH, offset := dist);
    GoesBy(s, r, Abs(wrap, st', out), src.Rest(), st.extra);
  }

  // ---- MATCH and LIT

  lemma MatchBounds(wrap: bool, st: Regs, out: seq<byte>)
    requires st.mode == MATCH && WellFormed(Abs(wrap, st, out))
    ensures 1 <= st.length && 1 <= st.offset <= MAX_WINDOW && st.offset <= |out|
  {
    hide GoodCodes;
  }

  lemma MatchGoes(wrap: bool, st: Regs, out: seq<byte>, r: seq<bool>, k: nat)
    requires st.mode == MATCH && WellFormed(Abs(wrap, st, out)) && 1 <= k <= st.length
    ensures 1 <= st.offset <= |out|
    ensures Goes(Abs(wrap, st, out), r, Abs(wrap, st.(length := st.length - k, mode := if k == st.length then LEN else MATCH), Copy(out, st.offset, k)), r)
  {
    hide GoodCodes, Copy, Reaches;
    CopyPart(Abs(wrap, st, out), Codes(st.lit, st.dist), st.length, st.offset, k, r);
    CopyLength(out, st.offset, k);
  }

  lemma WritesOnly(s: State, bits: seq<bool>)
    requires s.phase.MatchCopy? || s.phase.Lit?
    ensures !Starved(s, bits)
  {
    hide HeadNext, TypeNext, StoredNext, CopyByteNext, TableNext, LenLensNext, CodeLensNext, LenExtNext, DistExtNext, CheckNext, LenStep, DistStep;
  }

  /** No mode that writes needs input, so the accumulator holds at most seven bits. */
  lemma WriteThrifty(wrap: bool, st: Regs, out: seq<byte>, acc: seq<bool>, st': Regs, out': seq<byte>)
    requires st.mode == MATCH || st.mode == LIT
    requires WellFormed(Abs(wrap, st, out)) && Thrifty(st.mode, Abs(wrap, st, out), acc) && (st'.mode == LEN || st'.mode == MATCH || st'.mode == LIT)
    ensures Thrifty(st'.mode, Abs(wrap, st', out'), acc)
  {
    hide WellFormed, Step;
    WritesOnly(Abs(wrap, st, out), acc);
  }

  method DoMatch(o: Output, w: Window, ghost wrap: bool, st: Regs, ghost r: seq<bool>, ghost acc: seq<bool>) returns (st': Regs)
    requires o.Valid() && w.Valid() && w.wbits == 15 && w.seen == o.before && o.buf != w.window && o.put < o.buf.Length
    requires st.mode == MATCH && WellFormed(Abs(wrap, st, o.Out())) && Thrifty(MATCH, Abs(wrap, st, o.Out()), acc)
    modifies o`put, o.buf
    ensures o.Valid() && o.put > old(o.put) && Thrifty(st'.mode, Abs(wrap, st', o.Out()), acc)
    ensures Goes(Abs(wrap, st, old(o.Out())), r, Abs(wrap, st', o.Out()), r)
    ensures st' == st.(length := st'.length, mode := st'.mode) && (st'.mode == LEN || st'.mode == MATCH)
  {
    hide Goes, WellFormed, Abs, PhaseOf, Copy, Window.Valid, Output.Out, Thrifty;
    ghost var out := o.Out();
    MatchBounds(wrap, st, out);
    o.OutIs();
    w.Have();
    WindowSize(w);
    var copy := o.CopySome(w, st.offset, st.length);
    st' := st.(length := st.length - copy, mode := if copy == st.length then LEN else MATCH);
    MatchGoes(wrap, st, out, r, copy);
    WriteThrifty(wrap, st, out, acc, st', o.Out());
  }

  lemma LitStepIs(wrap: bool, st: Regs, out: seq<byte>, r: seq<bool>)
    requires st.mode == LIT && WellFormed(Abs(wrap, st, out))
    ensures st.length < 256 && Step(Abs(wrap, st, out), r) == Outcome.Next(Abs(wrap, st.(mode := LEN), out + [st.length]), 0)
  {
    hide GoodCodes;
  }

  method DoLit(o: Output, ghost wrap: bool, st: Regs, ghost r: seq<bool>, ghost acc: seq<bool>) returns (st': Regs)
    requires o.Valid() && o.put < o.buf.Length && st.mode == LIT && WellFormed(Abs(wrap, st, o.Out())) && Thrifty(LIT, Abs(wrap, st, o.Out()), acc)
    modifies o`put, o.buf
    ensures o.Valid() && o.put == old(o.put) + 1 && Thrifty(st'.mode, Abs(wrap, st', o.Out()), acc)
    ensures Goes(Abs(wrap, st, old(o.Out())), r, Abs(wrap, st', o.Out()), r) && st' == st.(mode := LEN)
  {
    hide Goes, WellFormed, Abs, PhaseOf, Output.Out, Step, Thrifty;
    ghost var out := o.Out();
    LitStepIs(wrap, st, out, r);
    o.Put(st.length);
    st' := st.(mode := LEN);
    assert r[0..] == r;
    GoesBy(Abs(wrap, st, out), r, Abs(wrap, st', o.Out()), r, 0);
    WriteThrifty(wrap, st, out, acc, st', o.Out());
  }

  // ---- COPY

  lemma CopyEndIs(wrap: bool, st: Regs, out: seq<byte>, r: seq<bool>)
    requires st.mode == COPY
    ensures st.length == 0 ==> Step(Abs(wrap, st, out), r) == Outcome.Next(Abs(wrap, st.(mode := TYPE), out), 0)
    ensures st.length > 0 && |r| < 8 ==> Starved(Abs(wrap, st, out), r)
  {
    hide Take;
  }

  lemma StoredGoes(wrap: bool, st: Regs, out: seq<byte>, bytes: seq<byte>, rest: seq<bool>)
    requires st.mode == COPY && WellFormed(Abs(wrap, st, out)) && |bytes| <= st.length
    ensures Goes(Abs(wrap, st, out), BytesBits(bytes) + rest, Abs(wrap, st.(length := st.length - |bytes|), out + bytes), rest)
  {
    hide Reaches, BytesBits, WellFormed, Abs;
    CopyAbs(wrap, st, out);
    CopyAbs(wrap, st.(length := st.length - |bytes|), out + bytes);
    StoredPart(Abs(wrap, st, out), st.length, bytes, rest);
  }

  lemma CopyAbs(wrap: bool, st: Regs, out: seq<byte>)
    requires st.mode == COPY
    ensures Abs(wrap, st, out) == State(wrap, st.last, CopyBytes(st.length), out)
    ensures WellFormed(Abs(wrap, st, out)) <==> st.length < 65536
  {
  }

  /** COPY. false: there is nothing to copy, or no room to copy it to. */
  method DoCopy(src: BitSource, o: Output, ghost wrap: bool, st: Regs) returns (ok: bool, st': Regs)
    requires src.Valid() && o.Valid() && st.mode == COPY && WellFormed(Abs(wrap, st, o.Out())) && src.bits == 0
    modifies src`next, o`put, o.buf
    ensures src.Valid() && o.Valid() && src.next >= old(src.next) && o.put >= old(o.put)
    ensures Goes(Abs(wrap, st, old(o.Out())), old(src.Rest()), Abs(wrap, st', o.Out()), src.Rest())
    ensures if ok then Later(|src.Rest()|, st'.mode, |old(src.Rest())|, COPY)
            else st' == st && st.length > 0 && o.put == old(o.put)
                 && (o.put == o.buf.Length || (src.next == |src.inp| && Starved(Abs(wrap, st, o.Out()), src.Acc())))
    ensures st' == st.(mode := st'.mode, length := st'.length) && (st'.mode == COPY || st'.mode == TYPE)
  {
    hide BitSource.Valid, BitSource.Rest, ToBits, BytesBits, Step, Goes, WellFormed, Abs, PhaseOf, Output.Out;
    ghost var out, r := o.Out(), src.Rest();
    ghost var s := Abs(wrap, st, out);
    src.Fits();
    GoesSelf(s, r);
    CopyEndIs(wrap, st, out, r);
    CopyEndIs(wrap, st, out, src.Acc());
    var copy := st.length;
    if copy == 0 {
      st' := st.(mode := TYPE);
      assert r[0..] == r;
      GoesBy(s, r, Abs(wrap, st', out), r, 0);
      return true, st';
    }
    if copy > |src.inp| - src.next {
      copy := |src.inp| - src.next;
    }
    if copy > o.buf.Length - o.put {
      copy := o.buf.Length - o.put;
    }
    if copy == 0 {
      return false, st;
    }
    var bytes := src.TakeBytes(copy);
    o.PutAll(bytes);
    st' := st.(length := st.length - copy);
    StoredGoes(wrap, st, out, bytes, src.Rest());
    ok := true;
  }

  // ---- CHECK

  lemma CheckStepIs(wrap: bool, st: Regs, out: seq<byte>, r: seq<bool>)
    requires st.mode == CHECK
    ensures Step(Abs(wrap, st, out), r) ==
      if !wrap then Outcome.Next(Abs(wrap, st.(mode := DONE), out), 0) else if |r| < 32 then NeedInput
      else if Reverse4(Take(r, 32)) == Adler32.Pack(Adler32.Adler(out)) then Outcome.Next(Abs(wrap, st.(mode := DONE), out), 32)
      else Outcome.Next(Abs(wrap, st.(mode := BAD), out), 0)
  {
    hide Take, Reverse4, Adler32.Adler, Adler32.Pack;
  }

  /** The check value of x. */
  ghost predicate Checks(check: nat, x: seq<byte>) { check == Adler32.Pack(Adler32.Adler(x)) }

  /** UPDATE. */
  method UpdateCheck(check: nat, more: seq<byte>, ghost x: seq<byte>) returns (check': nat)
    requires Checks(check, x)
    ensures Checks(check', x + more)
  {
    hide Adler32.Adler, Adler32.Update;
    Adler32.AdlerMore(x, more);
    check' := Adler32.Adler32(check, more);
  }

  /** Without a trailer. */
  lemma PlainCheck(st: Regs, out: seq<byte>, r: seq<bool>, acc: seq<bool>)
    requires st.mode == CHECK && Thrifty(CHECK, Abs(false, st, out), acc) && WellFormed(Abs(false, st, out))
    ensures Goes(Abs(false, st, out), r, Abs(false, st.(mode := DONE), out), r) && |acc| == 0
  {
    hide Step, Goes, WellFormed, Abs;
    CheckStepIs(false, st, out, r);
    CheckStepIs(false, st, out, acc);
    assert r[0..] == r;
    GoesBy(Abs(false, st, out), r, Abs(false, st.(mode := DONE), out), r, 0);
  }

  /** CHECK: out is all of the output, of which check covers the part before more. */
  method DoCheck(src: BitSource, check: nat, more: seq<byte>, wrap: bool, st: Regs, ghost out: seq<byte>, ghost x: seq<byte>)
    returns (ok: bool, st': Regs, check': nat)
    requires src.Valid() && st.mode == CHECK && Thrifty(CHECK, Abs(wrap, st, out), src.Acc()) && WellFormed(Abs(wrap, st, out))
    requires out == x + more && (wrap ==> Checks(check, x))
    modifies src`hold, src`bits, src`next
    ensures src.Valid() && src.next >= old(src.next) && Thrifty(st'.mode, Abs(wrap, st', out), src.Acc())
    ensures Goes(Abs(wrap, st, out), old(src.Rest()), Abs(wrap, st', out), src.Rest())
    ensures if ok then Later(|src.Rest()|, st'.mode, |old(src.Rest())|, CHECK) && (st'.mode == DONE || st'.mode == BAD) && (wrap ==> Checks(check', out))
            else st' == st && check' == check && src.next == |src.inp| && Starved(Abs(wrap, st, out), src.Acc())
    ensures st' == st.(mode := st'.mode)
  {
    hide BitSource.Valid, BitSource.Rest, BitSource.Acc, Starved, Goes, WellFormed, Abs, Checks, Thrifty;
    ghost var s, r := Abs(wrap, st, out), src.Rest();
    src.Fits();
    check' := check;
    GoesSelf(s, r);
    if !wrap {
      PlainCheck(st, out, r, src.Acc());
      st' := st.(mode := DONE);
      ThriftyWhen(st'.mode, Abs(wrap, st', out), src.Acc());
      return true, st', check';
    }
    ok := NeedTrailer(src, st, out);
    if !ok {
      return false, st, check';
    }
    check' := UpdateCheck(check, more, x);
    st' := CompareCheck(src, check', st, out);
    ThriftyWhen(st'.mode, Abs(wrap, st', out), src.Acc());
  }

  /** All of the trailer in the accumulator. */
  method NeedTrailer(src: BitSource, ghost st: Regs, ghost out: seq<byte>) returns (ok: bool)
    requires src.Valid() && st.mode == CHECK && Thrifty(CHECK, Abs(true, st, out), src.Acc())
    modifies src`hold, src`bits, src`next
    ensures src.Valid() && src.next >= old(src.next) && src.Rest() == old(src.Rest())
    ensures !ok ==> Thrifty(CHECK, Abs(true, st, out), src.Acc())
    ensures if ok then src.bits == 32 else src.next == |src.inp| && Starved(Abs(true, st, out), src.Acc())
  {
    hide BitSource.Valid, BitSource.Rest, ToBits, Step, Abs, PhaseOf;
    src.Fits();
    CheckStepIs(true, st, out, src.Acc());
    ok := src.NeedBits(32);
    src.Fits();
    CheckStepIs(true, st, out, src.Acc());
    if ok {
      WholeBytes(src.bits, 32);
    }
  }

  /** The trailer against the check value. */
  method CompareCheck(src: BitSource, check: nat, st: Regs, ghost out: seq<byte>) returns (st': Regs)
    requires src.Valid() && src.bits == 32 && st.mode == CHECK && WellFormed(Abs(true, st, out)) && Checks(check, out)
    modifies src`hold, src`bits
    ensures src.Valid() && |src.Rest()| <= |old(src.Rest())|
    ensures Goes(Abs(true, st, out), old(src.Rest()), Abs(true, st', out), src.Rest())
    ensures ((st'.mode == DONE && src.bits == 0) || st'.mode == BAD) && st' == st.(mode := st'.mode)
  {
    hide BitSource.Valid, BitSource.Rest, Step, Goes, WellFormed, Abs, PhaseOf, Take, Reverse4, Adler32.Adler, Adler32.Pack, Low;
    ghost var s, r := Abs(true, st, out), src.Rest();
    src.Fits();
    TakeIs(src, 32);
    AllLow(src.hold, 32);
    CheckStepIs(true, st, out, r);
    if Reverse4(src.hold) != check {
      st' := st.(mode := BAD);
      assert r[0..] == r;
      GoesBy(s, r, Abs(true, st', out), r, 0);
    } else {
      st' := st.(mode := DONE);
      src.InitBits();
      GoesBy(s, r, Abs(true, st', out), src.Rest(), 32);
    }
  }

  lemma AllLow(h: nat, n: nat)
    requires h < Pow2(n)
    ensures Low(h, n) == h
  {
    hide Pow2;
    LowHighUnique(h, n, 0, h);
  }
}
