/** The inflate state machine over an abstract bit stream, one micro-step at a time: what inflate() decodes,
    independent of how the stream is cut into input and output buffers. The phases carry exactly the data
    that is live in them, and codes are given by their lengths instead of tables. */
module Machine {
  import opened Bits
  import opened Canonical
  import opened InfTrees
  import opened Adler32

  const ORDER: seq<nat> := [16, 17, 18, 0, 8, 7, 9, 6, 10, 5, 11, 4, 12, 3, 13, 2, 14, 1, 15]
  const END_BLOCK: nat := 256

  /** The order of section 3.2.7 of RFC 1951: the repetitions and zero, then from 8 outwards, so that rare lengths come
      last. */
  lemma OrderOutwards(j: nat)
    ensures |ORDER| == 19 && ORDER[0] == 16 && ORDER[1] == 17 && ORDER[2] == 18 && ORDER[3] == 0
    ensures j < 8 ==> ORDER[2 * j + 4] == 8 + j
    ensures 1 <= j < 8 ==> ORDER[2 * j + 3] == 8 - j
  {
    if j < 8 {
      assert j == 0 || j == 1 || j == 2 || j == 3 || j == 4 || j == 5 || j == 6 || j == 7;
    }
  }

  /** The literal/length and distance codes of a block. */
  datatype Codes = Codes(lit: seq<nat>, dist: seq<nat>)

  datatype Phase =
    | Head
    | Type
    | Stored
    | CopyBytes(length: nat)
    | Table
    | LenLens(nlen: nat, ndist: nat, ncode: nat, sent: seq<nat>)
    | CodeLens(nlen: nat, ndist: nat, code: seq<nat>, lens: seq<nat>)
    | Len(codes: Codes)
    | LenExt(codes: Codes, length: nat, extra: nat)
    | Dist(codes: Codes, length: nat)
    | DistExt(codes: Codes, length: nat, offset: nat, extra: nat)
    | MatchCopy(codes: Codes, length: nat, offset: nat)
    | Lit(codes: Codes, value: nat)
    | Check
    | NeedDict
    | Done
    | Bad

  /** wrap: a zlib header and trailer are expected; last: in or after the last block. */
  datatype State = State(wrap: bool, last: bool, phase: Phase, out: seq<byte>)

  datatype Outcome = NeedInput | Next(state: State, used: nat) | Halted

  // ---- decoding one symbol

  datatype Symbol = NeedMore | Found(sym: nat) | NoCode

  /** The next fifteen bits of the stream as a table index, zeros standing for bits not there yet. */
  function Window(bits: seq<bool>): (x: nat)
    ensures x < FULL
  {
    Pow2Values();
    var s := if |bits| > MAX_BITS then bits[..MAX_BITS] else bits;
    Pow2Mono(|s|, MAX_BITS);
    FromBits(s)
  }

  ghost predicate HasSymbol(lens: seq<nat>, v: nat) {
    exists n: nat :: Covers(lens, n, v)
  }

  ghost function SymbolOf(lens: seq<nat>, v: nat): (n: nat)
    requires HasSymbol(lens, v)
    ensures Covers(lens, n, v)
  {
    var n: nat :| Covers(lens, n, v);
    n
  }

  /** The symbol whose code starts the stream; NoCode if no code can. */
  ghost function DecodeSymbol(lens: seq<nat>, bits: seq<bool>): (r: Symbol)
    ensures r.Found? ==> r.sym < |lens| && 0 < lens[r.sym] <= |bits|
    ensures r.NoCode? ==> |bits| >= 1
  {
    var v := Mirror(Window(bits));
    if HasSymbol(lens, v) then
      var n := SymbolOf(lens, v);
      if lens[n] <= |bits| then Found(n) else NeedMore
    else if |bits| >= 1 then NoCode else NeedMore
  }

  // ---- micro-steps

  function At(s: State, phase: Phase): State { State(s.wrap, s.last, phase, s.out) }

  function Emit(s: State, phase: Phase, b: byte): State { State(s.wrap, s.last, phase, s.out + [b]) }

  function Take(bits: seq<bool>, n: nat): (x: nat)
    requires n <= |bits|
    ensures x < Pow2(n)
  {
    FromBits(bits[..n])
  }

  /** A two-byte zlib header: checks in the order of inflate(). */
  function HeaderStep(s: State, h: nat): Outcome {
    if (h % 256 * 256 + h / 256) % 31 != 0 then Next(At(s, Bad), 0)
    else if h % 16 != 8 then Next(At(s, Bad), 0)
    else if h / 16 % 16 + 8 > 15 then Next(At(s, Bad), 4)
    else if h / 8192 % 2 == 1 then Next(At(s, NeedDict), 16)
    else Next(At(s, Type), 16)
  }

  function FixedLit(n: nat): nat {
    if n < 144 then 8 else if n < 256 then 9 else if n < 280 then 7 else 8
  }

  /** The lengths of section 3.2.6 of RFC 1951. */
  function FixedCodes(): (c: Codes)
    ensures |c.lit| == 288 && |c.dist| == 32
  {
    Codes(seq(288, i requires 0 <= i < 288 => FixedLit(i)), seq(32, _ => 5))
  }

  function TypePhase(t: nat): Phase {
    if t == 0 then Stored else if t == 1 then Len(FixedCodes()) else if t == 2 then Table else Bad
  }

  function TypeStep(s: State, t: nat): State { State(s.wrap, t % 2 == 1, TypePhase(t / 2), s.out) }

  function TableStep(s: State, t: nat): State {
    var nlen, ndist, ncode := t % 32 + 257, t / 32 % 32 + 1, t / 1024 % 16 + 4;
    if nlen > 286 || ndist > 30 then At(s, Bad) else At(s, LenLens(nlen, ndist, ncode, []))
  }

  /** The nineteen code length code lengths, from those sent in the order of the format. */
  function Ordered(sent: seq<nat>): (lens: seq<nat>)
    ensures |lens| == 19
  {
    seq(19, n requires 0 <= n < 19 => LengthSent(sent, n, |sent|))
  }

  /** The length sent for symbol n among the first k, or 0. */
  function LengthSent(sent: seq<nat>, n: nat, k: nat): nat
    requires k <= |sent|
  {
    if k == 0 then 0 else if k <= |ORDER| && ORDER[k - 1] == n then sent[k - 1] else LengthSent(sent, n, k - 1)
  }

  function Repeat(len: nat, n: nat): (s: seq<nat>)
    ensures |s| == n && forall i | 0 <= i < n :: s[i] == len
  {
    seq(n, _ => len)
  }

  function RepeatBits(sym: nat): nat { if sym == 16 then 2 else if sym == 17 then 3 else 7 }
  function RepeatBase(sym: nat): nat { if sym == 18 then 11 else 3 }

  function Lengths(s: State, more: seq<nat>): State
    requires s.phase.CodeLens?
  {
    At(s, CodeLens(s.phase.nlen, s.phase.ndist, s.phase.code, s.phase.lens + more))
  }

  /** A code length symbol that takes used bits: a length, or a repetition with its count. */
  function LengthSymbolStep(s: State, bits: seq<bool>, sym: nat, used: nat): Outcome
    requires s.phase.CodeLens? && used <= |bits|
  {
    var p := s.phase;
    if sym < 16 then Next(Lengths(s, [sym]), used)
    else if |bits| < used + RepeatBits(sym) then NeedInput
    else if sym == 16 && |p.lens| == 0 then Next(At(s, Bad), used)
    else
      var len := if sym == 16 then p.lens[|p.lens| - 1] else 0;
      var copy := Take(bits[used..], RepeatBits(sym)) + RepeatBase(sym);
      if |p.lens| + copy > p.nlen + p.ndist then Next(At(s, Bad), used + RepeatBits(sym))
      else Next(Lengths(s, Repeat(len, copy)), used + RepeatBits(sym))
  }

  /** The symbol 0 with one bit is also what the empty code length code decodes to. */
  ghost function CodeLensStep(s: State, bits: seq<bool>): Outcome
    requires s.phase.CodeLens?
  {
    match DecodeSymbol(s.phase.code, bits)
    case NeedMore => NeedInput
    case Found(sym) => LengthSymbolStep(s, bits, sym, s.phase.code[sym])
    case NoCode => LengthSymbolStep(s, bits, 0, 1)
  }

  /** The base value and the number of extra bits of the length and distance symbols. */
  function LengthBase(sym: nat): nat
    requires 257 <= sym < 286
  {
    LBASE[sym - 257]
  }

  function LengthExtra(sym: nat): nat
    requires 257 <= sym < 286
  {
    LEXT[sym - 257] - 16
  }

  function DistBase(sym: nat): nat
    requires sym < 30
  {
    DBASE[sym]
  }

  function DistExtra(sym: nat): nat
    requires sym < 30
  {
    DEXT[sym] - 16
  }

  ghost function LenStep(s: State, bits: seq<bool>): Outcome
    requires s.phase.Len?
  {
    var c := s.phase.codes;
    var d := DecodeSymbol(c.lit, bits);
    if d.NeedMore? then NeedInput
    else if d.NoCode? then Next(At(s, Bad), 1)
    else if d.sym < END_BLOCK then Next(At(s, Lit(c, d.sym)), c.lit[d.sym])
    else if d.sym == END_BLOCK then Next(At(s, Type), c.lit[d.sym])
    else if d.sym >= 286 then Next(At(s, Bad), c.lit[d.sym])
    else Next(At(s, LenExt(c, LengthBase(d.sym), LengthExtra(d.sym))), c.lit[d.sym])
  }

  ghost function DistStep(s: State, bits: seq<bool>): Outcome
    requires s.phase.Dist?
  {
    var c := s.phase.codes;
    var d := DecodeSymbol(c.dist, bits);
    if d.NeedMore? then NeedInput
    else if d.NoCode? then Next(At(s, Bad), 1)
    else if d.sym >= 30 then Next(At(s, Bad), c.dist[d.sym])
    else Next(At(s, DistExt(c, s.phase.length, DistBase(d.sym), DistExtra(d.sym))), c.dist[d.sym])
  }

  /** The big-endian value of a 32-bit trailer. */
  function Reverse4(x: nat): nat {
    x / 16777216 % 256 + x / 65536 % 256 * 256 + x / 256 % 256 * 65536 + x % 256 * 16777216
  }

  function HeadNext(s: State, bits: seq<bool>): Outcome {
    if !s.wrap then Next(At(s, Type), 0)
    else if |bits| < 16 then NeedInput else HeaderStep(s, Take(bits, 16))
  }

  function TypeNext(s: State, bits: seq<bool>): Outcome {
    if s.last then Next(At(s, Check), |bits| % 8)
    else if |bits| < 3 then NeedInput else Next(TypeStep(s, Take(bits, 3)), 3)
  }

  function StoredNext(s: State, bits: seq<bool>): Outcome {
    if |bits| % 8 != 0 then Next(s, |bits| % 8)
    else if |bits| < 32 then NeedInput
    else if Take(bits, 16) != 65535 - Take(bits[16..], 16) then Next(At(s, Bad), 0)
    else Next(At(s, CopyBytes(Take(bits, 16))), 32)
  }

  function CopyByteNext(s: State, bits: seq<bool>): Outcome
    requires s.phase.CopyBytes?
  {
    var length := s.phase.length;
    if length == 0 then Next(At(s, Type), 0)
    else if |bits| < 8 then NeedInput
    else Next(Emit(s, CopyBytes(length - 1), ByteOf(Take(bits, 8))), 8)
  }

  function TableNext(s: State, bits: seq<bool>): Outcome {
    if |bits| < 14 then NeedInput else Next(TableStep(s, Take(bits, 14)), 14)
  }

  ghost function LenLensNext(s: State, bits: seq<bool>): Outcome
    requires s.phase.LenLens?
  {
    var p := s.phase;
    if |p.sent| < p.ncode then
      if |bits| < 3 then NeedInput
      else Next(At(s, LenLens(p.nlen, p.ndist, p.ncode, p.sent + [Take(bits, 3)])), 3)
    else if Acceptable(CODES, Ordered(p.sent)) then Next(At(s, CodeLens(p.nlen, p.ndist, Ordered(p.sent), [])), 0)
    else Next(At(s, Bad), 0)
  }

  ghost function CodeLensNext(s: State, bits: seq<bool>): Outcome
    requires s.phase.CodeLens?
  {
    var p := s.phase;
    if |p.lens| < p.nlen + p.ndist then CodeLensStep(s, bits)
    else if p.nlen <= |p.lens| && Acceptable(LENS, p.lens[..p.nlen]) && Acceptable(DISTS, p.lens[p.nlen..]) then
      Next(At(s, Len(Codes(p.lens[..p.nlen], p.lens[p.nlen..]))), 0)
    else Next(At(s, Bad), 0)
  }

  function LenExtNext(s: State, bits: seq<bool>): Outcome
    requires s.phase.LenExt?
  {
    var p := s.phase;
    if |bits| < p.extra then NeedInput
    else Next(At(s, Dist(p.codes, p.length + Take(bits, p.extra))), p.extra)
  }

  function DistExtNext(s: State, bits: seq<bool>): Outcome
    requires s.phase.DistExt?
  {
    var p := s.phase;
    if |bits| < p.extra then NeedInput
    else if p.offset + Take(bits, p.extra) > |s.out| then Next(At(s, Bad), p.extra)
    else Next(At(s, MatchCopy(p.codes, p.length, p.offset + Take(bits, p.extra))), p.extra)
  }

  function MatchNext(s: State): Outcome
    requires s.phase.MatchCopy?
  {
    var p := s.phase;
    if p.length == 0 || p.offset == 0 || p.offset > |s.out| then Next(At(s, Len(p.codes)), 0)
    else Next(Emit(s, if p.length == 1 then Len(p.codes) else MatchCopy(p.codes, p.length - 1, p.offset), s.out[|s.out| - p.offset]), 0)
  }

  function CheckNext(s: State, bits: seq<bool>): Outcome {
    if !s.wrap then Next(At(s, Done), 0)
    else if |bits| < 32 then NeedInput
    else if Reverse4(Take(bits, 32)) == Pack(Adler(s.out)) then Next(At(s, Done), 32)
    else Next(At(s, Bad), 0)
  }

  ghost function Step(s: State, bits: seq<bool>): Outcome {
    match s.phase
    case Head => HeadNext(s, bits)
    case Type => TypeNext(s, bits)
    case Stored => StoredNext(s, bits)
    case CopyBytes(_) => CopyByteNext(s, bits)
    case Table => TableNext(s, bits)
    case LenLens(_, _, _, _) => LenLensNext(s, bits)
    case CodeLens(_, _, _, _) => CodeLensNext(s, bits)
    case Len(_) => LenStep(s, bits)
    case LenExt(_, _, _) => LenExtNext(s, bits)
    case Dist(_, _) => DistStep(s, bits)
    case DistExt(_, _, _, _) => DistExtNext(s, bits)
    case MatchCopy(_, _, _) => MatchNext(s)
    case Lit(c, value) => Next(Emit(s, Len(c), ByteOf(value)), 0)
    case Check => CheckNext(s, bits)
    case _ => Halted
  }

  function ByteOf(x: nat): byte { x % 256 }
}
