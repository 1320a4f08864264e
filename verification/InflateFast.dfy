/** inflate_fast(): decoding without checks for the end of the input or of the output. */
module InflateFast {
  import opened Bits
  import opened Canonical
  import opened InfTrees
  import opened Tokens
  import opened Machine
  import opened Runs
  import opened Lookup
  import opened BitSource
  import opened Window
  import opened Output
  import opened Decode

  /** What mode inflate_fast leaves. */
  datatype Fast = InLen | AtType | IsBad

  function FastPhase(m: Fast, c: Codes): Phase {
    match m case InLen => Phase.Len(c) case AtType => Phase.Type case IsBad => Phase.Bad
  }

  /** The run has come to phase p with the output and the input as they are. */
  ghost predicate Run(c0: Conf, s: State, p: Phase, out: seq<byte>, rest: seq<bool>) {
    WellFormed(State(s.wrap, s.last, p, out)) && Reaches(c0, Conf(State(s.wrap, s.last, p, out), rest))
  }

  lemma RunStep(c0: Conf, s: State, p: Phase, out: seq<byte>, rest: seq<bool>, p': Phase, out': seq<byte>, used: nat)
    requires Run(c0, s, p, out, rest)
    requires Step(State(s.wrap, s.last, p, out), rest) == Outcome.Next(State(s.wrap, s.last, p', out'), used)
    ensures used <= |rest| && Run(c0, s, p', out', rest[used..])
  {
    hide Reaches, Step, WellFormed;
    Go(c0, State(s.wrap, s.last, p, out), rest, State(s.wrap, s.last, p', out'), used);
  }

  /** Bits are at hand that the code of the first symbol goes beyond. */
  ghost predicate Beyond(lens: seq<nat>, hold: nat, n: nat) { Decodable(lens) && n < Needs(lens, hold) }

  /** Pulling another byte leaves a code that goes beyond the first n bits as long. */
  lemma BeyondPull(lens: seq<nat>, h: nat, b: nat, x: nat, h': nat, n: nat)
    requires Beyond(lens, h, n) && n <= b && h < Pow2(b) && h' == Above(h, b, x) && h' < Pow2(b + 8)
    ensures Beyond(lens, h', n)
  {
    hide Pow2, Needs, Decodable, Above;
    if Needs(lens, h) <= b {
      NeedsStable(lens, h, b, x, 8, h');
    } else {
      NeedsLonger(lens, h, b, x, 8, h');
    }
  }

  /** Two more bytes if there are fewer than 15 bits. */
  method Refill(src: BitSource, ghost lens: seq<nat>, ghost n: nat)
    requires src.Valid() && src.bits <= 30 && (src.bits < 15 ==> src.next + 2 <= |src.inp|) && n <= src.bits
    modifies src`hold, src`bits, src`next
    ensures src.Valid() && src.Rest() == old(src.Rest()) && 15 <= src.bits <= 30 && src.Supply() == old(src.Supply())
    ensures src.next >= old(src.next)
    ensures Beyond(lens, old(src.hold), n) ==> Beyond(lens, src.hold, n)
  {
    hide BitSource.Valid, BitSource.Rest, Pow2, Beyond, Above;
    if src.bits < 15 {
      src.Fits();
      ghost var h, b := src.hold, src.bits;
      src.PullByte();
      src.Fits();
      if Beyond(lens, h, n) {
        BeyondPull(lens, h, b, src.inp[src.next - 1], src.hold, n);
      }
      ghost var h1 := src.hold;
      src.PullByte();
      src.Fits();
      if Beyond(lens, h1, n) {
        BeyondPull(lens, h1, b + 8, src.inp[src.next - 1], src.hold, n);
      }
    }
  }

  /** dolen and dodist up to the operation: a symbol with at most one link. */
  method FastSymbol(src: BitSource, t: array<Entry>, start: nat, root: nat, ghost end: nat, ghost kind: Kind, ghost lens: seq<nat>)
    returns (e: Entry)
    requires src.Valid() && src.bits >= 15 && TableAt(t, start, end, root, kind, lens)
    modifies src`hold, src`bits
    ensures src.Valid() && |lens| <= MaxSymbols(kind)
    ensures var d := DecodeSymbol(lens, old(src.Rest()));
      && Tells(e, kind, lens, d) && Used(lens, d) == Needs(lens, old(src.hold)) <= 15
      && Used(lens, d) <= |old(src.Rest())| && src.Rest() == old(src.Rest())[Used(lens, d)..] && src.bits == old(src.bits) - Used(lens, d)
  {
    hide Ready, Needs, Low, High, Pow2, BitSource.Rest, EntryOf, DecodeSymbol, Tells, Used, BitSource.Valid, TableAt, SubIndexOf;
    TableIs(t, start, end, root, kind, lens);
    ghost var tab := t[start..end];
    ReadyDecodable(tab, root, kind, lens);
    src.Fits();
    RootIs(tab, root, kind, lens, src.hold, src.bits);
    NextIs(lens, src.hold, src.bits);
    RestDecodes(src, lens);
    e := t[start + Low(src.hold, root)];
    if IsLink(e) {
      SubIs(tab, root, kind, lens, src.hold, src.bits, e);
      src.DropBits(e.bits);
      e := t[start + e.val + Low(src.hold, e.op)];
      src.DropBits(e.bits);
      Dropped(old(src.Rest()), root, e.bits);
      EntryTells(e, kind, lens, DecodeSymbol(lens, old(src.Rest())), root);
    } else {
      src.DropBits(e.bits);
      EntryTells(e, kind, lens, DecodeSymbol(lens, old(src.Rest())), 0);
    }
  }

  /** op & 16, op & 32, op & 64. */
  predicate HasBit(op: nat, bit: nat)
    requires bit > 0
  {
    op / bit % 2 == 1
  }

  lemma BitsOfOp(op: nat)
    requires 16 <= op < 32 || op == 64 || op == 96 || op == 196 || op == 201
    ensures HasBit(op, 16) <==> op < 32
    ensures HasBit(op, 32) <==> op == 96
    ensures HasBit(op, 64) <==> op >= 64
    ensures op < 32 ==> op % 16 == op - 16
  {
  }

  lemma LenOps(n: nat, b: nat)
    requires n < 288
    ensures var op := SymbolEntry(LENS, n, b).op;
      if n < 256 then op == 0 else if n == 256 then op == 96 else if n < 286 then 16 <= op < 32 else op == 196 || op == 201
  {
  }

  lemma DistOps(n: nat, b: nat)
    requires n < 32
    ensures var op := SymbolEntry(DISTS, n, b).op; if n < 30 then 16 <= op < 32 else op == 64
  {
  }

  /** The operation of a literal/length entry: what LEN does with the symbol. */
  lemma LenMeans(s: State, rest: seq<bool>, e: Entry)
    requires s.phase.Len? && WellFormed(s)
    requires var d := DecodeSymbol(s.phase.codes.lit, rest); Tells(e, LENS, s.phase.codes.lit, d)
    ensures var c, d := s.phase.codes, DecodeSymbol(s.phase.codes.lit, rest);
      Step(s, rest) == Outcome.Next(At(s,
        if e.op == 0 then Phase.Lit(c, e.val) else if HasBit(e.op, 16) then Phase.LenExt(c, e.val, e.op % 16)
        else if HasBit(e.op, 32) then Phase.Type else Phase.Bad), Used(c.lit, d))
    ensures e.op == 0 ==> e.val < 256
    ensures e.op != 0 && !HasBit(e.op, 16) ==> HasBit(e.op, 64)
    ensures HasBit(e.op, 32) ==> e.op != 0 && !HasBit(e.op, 16)
    ensures HasBit(e.op, 16) ==> e.op != 0 && !HasBit(e.op, 64)
  {
    hide DecodeSymbol, Decodable, HasBit;
    var d := DecodeSymbol(s.phase.codes.lit, rest);
    if d.Found? {
      LenOps(d.sym, e.bits);
    }
    if e.op != 0 {
      BitsOfOp(e.op);
    } else {
      NoBits();
    }
  }

  lemma NoBits()
    ensures !HasBit(0, 16) && !HasBit(0, 32) && !HasBit(0, 64)
  {
  }

  lemma DistMeans(s: State, rest: seq<bool>, e: Entry)
    requires s.phase.Dist? && WellFormed(s)
    requires var d := DecodeSymbol(s.phase.codes.dist, rest); Tells(e, DISTS, s.phase.codes.dist, d)
    ensures var c, d := s.phase.codes, DecodeSymbol(s.phase.codes.dist, rest);
      Step(s, rest) == Outcome.Next(At(s,
        if HasBit(e.op, 16) then Phase.DistExt(c, s.phase.length, e.val, e.op % 16) else Phase.Bad), Used(c.dist, d))
    ensures HasBit(e.op, 16) <==> !HasBit(e.op, 64)
  {
    hide DecodeSymbol, Decodable, HasBit;
    var d := DecodeSymbol(s.phase.codes.dist, rest);
    if d.Found? {
      DistOps(d.sym, e.bits);
    }
    BitsOfOp(e.op);
  }

  /** The extra bits of a length or distance, with at most two more bytes for them. */
  method FastExtra(src: BitSource, n: nat) returns (x: nat)
    requires src.Valid() && n <= 13 && src.bits <= 30 && src.Supply() >= n
    modifies src`hold, src`bits, src`next
    ensures src.Valid() && src.bits <= 30 && src.next >= old(src.next) && src.Supply() == old(src.Supply()) - n
    ensures n <= |old(src.Rest())| && x == Take(old(src.Rest()), n) && src.Rest() == old(src.Rest())[n..]
  {
    hide BitSource.Valid, BitSource.Rest, Pow2, Low, FromBits;
    src.Fits();
    if src.bits < n {
      src.PullByte();
      src.Fits();
      if src.bits < n {
        src.PullByte();
        src.Fits();
      }
    }
    src.BitsAre(n);
    x := src.Bits(n);
    src.DropBits(n);
  }

  /** A round of the loop. */
  method FastRound(src: BitSource, w: Window, o: Output, lcode: array<Entry>, lstart: nat, lroot: nat, dcode: array<Entry>, dstart: nat, droot: nat,
                   ghost lend: nat, ghost dend: nat, ghost c0: Conf, ghost s: State, ghost c: Codes)
    returns (m: Fast)
    requires src.Valid() && w.Valid() && o.Valid() && w.wbits == 15 && w.seen == o.before && o.buf != w.window
    requires TableAt(lcode, lstart, lend, lroot, LENS, c.lit) && TableAt(dcode, dstart, dend, droot, DISTS, c.dist)
    requires src.next + 6 <= |src.inp| && o.put + 258 <= o.buf.Length && src.bits <= 30
    requires Run(c0, s, Phase.Len(c), o.Out(), src.Rest())
    modifies src`hold, src`bits, src`next, o`put, o.buf
    ensures src.Valid() && o.Valid() && src.bits <= 30 && src.next >= old(src.next) && o.put >= old(o.put)
    ensures Run(c0, s, FastPhase(m, c), o.Out(), src.Rest())
    ensures src.Supply() < old(src.Supply()) && (Beyond(c.lit, old(src.hold), old(src.bits)) ==> src.Supply() < old(src.Supply()) - old(src.bits))
  {
    hide Reaches, Run, WellFormed, Step, BitSource.Valid, BitSource.Rest, Window.Valid, Output.Out, Needs, DecodeSymbol, Tells, Ready, TableAt, HasBit;
    src.Fits();
    RunGood(c0, s, Phase.Len(c), o.Out(), src.Rest());
    Refill(src, c.lit, src.bits);
    ghost var rest := src.Rest();
    src.Fits();
    NextIs(c.lit, src.hold, src.bits);
    var e := FastSymbol(src, lcode, lstart, lroot, lend, LENS, c.lit);
    ghost var here := State(s.wrap, s.last, Phase.Len(c), o.Out());
    LenMeans(here, rest, e);
    ghost var out := o.Out();
    if e.op == 0 {
      RunStep(c0, s, Phase.Len(c), out, rest, Phase.Lit(c, e.val), out, Used(c.lit, DecodeSymbol(c.lit, rest)));
      o.Put(e.val);
      LitStep(c0, s, c, e.val, out, src.Rest());
      return InLen;
    }
    if HasBit(e.op, 16) {
      RunStep(c0, s, Phase.Len(c), out, rest, Phase.LenExt(c, e.val, e.op % 16), out, Used(c.lit, DecodeSymbol(c.lit, rest)));
      m := FastMatch(src, w, o, dcode, dstart, droot, dend, c0, s, c, e.val, e.op % 16);
    } else if HasBit(e.op, 32) {
      RunStep(c0, s, Phase.Len(c), out, rest, Phase.Type, out, Used(c.lit, DecodeSymbol(c.lit, rest)));
      return AtType;
    } else {
      RunStep(c0, s, Phase.Len(c), out, rest, Phase.Bad, out, Used(c.lit, DecodeSymbol(c.lit, rest)));
      return IsBad;
    }
  }

  lemma RunGood(c0: Conf, s: State, p: Phase, out: seq<byte>, rest: seq<bool>)
    requires Run(c0, s, p, out, rest)
    ensures WellFormed(State(s.wrap, s.last, p, out))
  {
  }

  lemma LitStep(c0: Conf, s: State, c: Codes, value: nat, out: seq<byte>, rest: seq<bool>)
    requires Run(c0, s, Phase.Lit(c, value), out, rest) && value < 256
    ensures Run(c0, s, Phase.Len(c), out + [value], rest)
  {
    hide Reaches, WellFormed;
    RunStep(c0, s, Phase.Lit(c, value), out, rest, Phase.Len(c), out + [value], 0);
    assert rest[0..] == rest;
  }

  /** A match, after the length symbol. */
  method FastMatch(src: BitSource, w: Window, o: Output, dcode: array<Entry>, dstart: nat, droot: nat, ghost dend: nat,
                   ghost c0: Conf, ghost s: State, ghost c: Codes, base: nat, extra: nat)
    returns (m: Fast)
    requires src.Valid() && w.Valid() && o.Valid() && w.wbits == 15 && w.seen == o.before && o.buf != w.window
    requires TableAt(dcode, dstart, dend, droot, DISTS, c.dist)
    requires src.Supply() >= 33 && o.put + 258 <= o.buf.Length && src.bits <= 30
    requires Run(c0, s, Phase.LenExt(c, base, extra), o.Out(), src.Rest())
    modifies src`hold, src`bits, src`next, o`put, o.buf
    ensures src.Valid() && o.Valid() && src.bits <= 30 && src.next >= old(src.next) && o.put >= old(o.put)
    ensures m != AtType && Run(c0, s, FastPhase(m, c), o.Out(), src.Rest()) && src.Supply() < old(src.Supply())
  {
    hide Reaches, Step, BitSource.Valid, BitSource.Rest, Window.Valid, Output.Out, Needs, DecodeSymbol, Tells, Ready, TableAt, HasBit, Run, WellFormed, Copy;
    ghost var out := o.Out();
    ghost var r0 := src.Rest();
    LenExtGood(c0, s, c, base, extra, out, r0);
    var len := base;
    if extra != 0 {
      var x := FastExtra(src, extra);
      len := len + x;
    }
    LenExtStep(c0, s, c, base, extra, out, r0);
    assert extra == 0 ==> r0[0..] == r0;
    m := FastDist(src, w, o, dcode, dstart, droot, dend, c0, s, c, len);
  }

  /** The distance symbol of a match. */
  method FastDistSymbol(src: BitSource, dcode: array<Entry>, dstart: nat, droot: nat, ghost dend: nat,
                        ghost c0: Conf, ghost s: State, ghost c: Codes, ghost len: nat, ghost out: seq<byte>)
    returns (e: Entry)
    requires src.Valid() && TableAt(dcode, dstart, dend, droot, DISTS, c.dist) && src.Supply() >= 28 && src.bits <= 30
    requires Run(c0, s, Phase.Dist(c, len), out, src.Rest())
    modifies src`hold, src`bits, src`next
    ensures src.Valid() && src.bits <= 30 && src.next >= old(src.next) && old(src.Supply()) - 15 <= src.Supply() < old(src.Supply())
    ensures Run(c0, s, if HasBit(e.op, 16) then Phase.DistExt(c, len, e.val, e.op % 16) else Phase.Bad, out, src.Rest())
  {
    hide Reaches, Step, BitSource.Valid, BitSource.Rest, Needs, DecodeSymbol, Tells, Ready, TableAt, HasBit, Run, WellFormed, Used;
    src.Fits();
    Refill(src, c.dist, 0);
    src.Fits();
    ghost var rest := src.Rest();
    NextIs(c.dist, src.hold, src.bits);
    e := FastSymbol(src, dcode, dstart, droot, dend, DISTS, c.dist);
    RunGood(c0, s, Phase.Dist(c, len), out, rest);
    DistMeans(State(s.wrap, s.last, Phase.Dist(c, len), out), rest, e);
    RunStep(c0, s, Phase.Dist(c, len), out, rest, if HasBit(e.op, 16) then Phase.DistExt(c, len, e.val, e.op % 16) else Phase.Bad, out,
            Used(c.dist, DecodeSymbol(c.dist, rest)));
  }

  /** A match, after its length. */
  method FastDist(src: BitSource, w: Window, o: Output, dcode: array<Entry>, dstart: nat, droot: nat, ghost dend: nat,
                  ghost c0: Conf, ghost s: State, ghost c: Codes, len: nat)
    returns (m: Fast)
    requires src.Valid() && w.Valid() && o.Valid() && w.wbits == 15 && w.seen == o.before && o.buf != w.window
    requires TableAt(dcode, dstart, dend, droot, DISTS, c.dist)
    requires src.Supply() >= 28 && o.put + 258 <= o.buf.Length && src.bits <= 30
    requires Run(c0, s, Phase.Dist(c, len), o.Out(), src.Rest())
    modifies src`hold, src`bits, src`next, o`put, o.buf
    ensures src.Valid() && o.Valid() && src.bits <= 30 && src.next >= old(src.next) && o.put >= old(o.put)
    ensures m != AtType && Run(c0, s, FastPhase(m, c), o.Out(), src.Rest()) && src.Supply() < old(src.Supply())
  {
    hide Reaches, BitSource.Valid, BitSource.Rest, Window.Valid, Output.Out, TableAt, HasBit, Run, WellFormed, Copy, Take;
    ghost var out := o.Out();
    var e := FastDistSymbol(src, dcode, dstart, droot, dend, c0, s, c, len, out);
    if !HasBit(e.op, 16) {
      return IsBad;
    }
    ghost var rest := src.Rest();
    DistExtGood(c0, s, c, len, e.val, e.op % 16, out, rest);
    var x := FastExtra(src, e.op % 16);
    DistExtStep(c0, s, c, len, e.val, e.op % 16, out, rest);
    m := FastCopy(w, o, e.val + x, len, c0, s, c, src.Rest());
  }

  /** A match, after its distance. */
  method FastCopy(w: Window, o: Output, dist: nat, len: nat, ghost c0: Conf, ghost s: State, ghost c: Codes, ghost rest: seq<bool>)
    returns (m: Fast)
    requires w.Valid() && o.Valid() && w.wbits == 15 && w.seen == o.before && o.buf != w.window
    requires 3 <= len <= 258 && o.put + 258 <= o.buf.Length && 1 <= dist <= 32768
    requires Run(c0, s, if dist > |o.Out()| then Phase.Bad else Phase.MatchCopy(c, len, dist), o.Out(), rest)
    modifies o`put, o.buf
    ensures o.Valid() && o.put >= old(o.put) && m != AtType && Run(c0, s, FastPhase(m, c), o.Out(), rest)
  {
    hide Reaches, Window.Valid, Output.Out, Run, WellFormed, Copy;
    ghost var out := o.Out();
    o.OutIs();
    w.Have();
    WindowSize(w);
    if dist > o.put && dist - o.put > w.whave {
      return IsBad;
    }
    o.CopyMatch(w, dist, len);
    MatchStep(c0, s, c, len, dist, out, rest);
    return InLen;
  }

  lemma WindowSize(w: Window)
    requires w.Valid() && w.wbits == 15
    ensures w.window.Length == 32768
  {
    Pow2Values();
  }

  lemma LenExtGood(c0: Conf, s: State, c: Codes, base: nat, extra: nat, out: seq<byte>, rest: seq<bool>)
    requires Run(c0, s, Phase.LenExt(c, base, extra), out, rest)
    ensures extra <= 5
  {
  }

  lemma LenExtStep(c0: Conf, s: State, c: Codes, base: nat, extra: nat, out: seq<byte>, rest: seq<bool>)
    requires Run(c0, s, Phase.LenExt(c, base, extra), out, rest) && extra <= |rest|
    ensures Run(c0, s, Phase.Dist(c, base + Take(rest, extra)), out, rest[extra..])
    ensures 3 <= base + Take(rest, extra) <= 258 && (extra == 0 ==> Take(rest, extra) == 0)
  {
    hide Reaches, GoodCodes;
    RunStep(c0, s, Phase.LenExt(c, base, extra), out, rest, Phase.Dist(c, base + Take(rest, extra)), out, extra);
  }

  lemma DistExtGood(c0: Conf, s: State, c: Codes, len: nat, base: nat, extra: nat, out: seq<byte>, rest: seq<bool>)
    requires Run(c0, s, Phase.DistExt(c, len, base, extra), out, rest)
    ensures extra <= 13 && 3 <= len <= 258
  {
  }

  lemma DistExtStep(c0: Conf, s: State, c: Codes, len: nat, base: nat, extra: nat, out: seq<byte>, rest: seq<bool>)
    requires Run(c0, s, Phase.DistExt(c, len, base, extra), out, rest) && extra <= |rest|
    ensures var dist := base + Take(rest, extra);
      1 <= dist <= 32768 && Run(c0, s, if dist > |out| then Phase.Bad else Phase.MatchCopy(c, len, dist), out, rest[extra..])
  {
    hide Reaches, GoodCodes;
    var dist := base + Take(rest, extra);
    RunStep(c0, s, Phase.DistExt(c, len, base, extra), out, rest, if dist > |out| then Phase.Bad else Phase.MatchCopy(c, len, dist), out, extra);
  }

  lemma MatchStep(c0: Conf, s: State, c: Codes, len: nat, dist: nat, out: seq<byte>, rest: seq<bool>)
    requires Run(c0, s, Phase.MatchCopy(c, len, dist), out, rest)
    ensures Run(c0, s, Phase.Len(c), Copy(out, dist, len), rest)
  {
    hide Reaches, GoodCodes, Copy;
    CopyPart(State(s.wrap, s.last, Phase.MatchCopy(c, len, dist), out), c, len, dist, len, rest);
    ReachesTrans(c0, Conf(State(s.wrap, s.last, Phase.MatchCopy(c, len, dist), out), rest),
                 Conf(State(s.wrap, s.last, Phase.Len(c), Copy(out, dist, len)), rest));
  }

  /** inflate_fast. The run it continues is the same that the modes LEN to LIT continue; the input it does not need
      goes back, and never more than it took. */
  method InflateFast(src: BitSource, w: Window, o: Output, lcode: array<Entry>, lstart: nat, lroot: nat, dcode: array<Entry>, dstart: nat, droot: nat,
                     ghost lend: nat, ghost dend: nat, ghost c0: Conf, ghost s: State, ghost c: Codes)
    returns (m: Fast)
    requires src.Valid() && w.Valid() && o.Valid() && w.wbits == 15 && w.seen == o.before && o.buf != w.window
    requires TableAt(lcode, lstart, lend, lroot, LENS, c.lit) && TableAt(dcode, dstart, dend, droot, DISTS, c.dist)
    requires src.next + 6 <= |src.inp| && o.put + 258 <= o.buf.Length && (src.bits < 8 || src.bits < Needs(c.lit, src.hold)) && src.bits <= 30
    requires Run(c0, s, Phase.Len(c), o.Out(), src.Rest())
    modifies src`hold, src`bits, src`next, o`put, o.buf
    ensures src.Valid() && o.Valid() && src.bits < 8 && src.next >= old(src.next) && o.put >= old(o.put)
    ensures Run(c0, s, FastPhase(m, c), o.Out(), src.Rest()) && |src.Rest()| < |old(src.Rest())|
  {
    hide Run, BitSource.Valid, BitSource.Rest, Window.Valid, Output.Out, Needs, TableAt, Output.Valid;
    RunGood(c0, s, Phase.Len(c), o.Out(), src.Rest());
    src.Fits();
    ghost var supply, bits0, next0, rest0 := src.Supply(), src.bits, src.next, src.Rest();
    m := FastRound(src, w, o, lcode, lstart, lroot, dcode, dstart, droot, lend, dend, c0, s, c);
    while m == InLen && |src.inp| - src.next >= 6 && o.buf.Length - o.put >= 258
      invariant src.Valid() && o.Valid() && src.bits <= 30 && src.next >= next0 && o.put >= old(o.put)
      invariant Run(c0, s, FastPhase(m, c), o.Out(), src.Rest())
      invariant src.Supply() < supply && (bits0 >= 8 ==> src.Supply() < supply - bits0)
      decreases src.Supply()
    {
      src.Fits();
      m := FastRound(src, w, o, lcode, lstart, lroot, dcode, dstart, droot, lend, dend, c0, s, c);
    }
    src.Fits();
    src.GiveBack();
  }
}
