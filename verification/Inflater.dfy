/** inflate(): the resumable decoder over input and output buffers of any size. */
module Inflater {
  import opened Bits
  import opened Canonical
  import opened InfTrees
  import opened Tokens
  import opened Machine
  import opened Runs
  import opened Lookup
  import opened BitSource
  import opened Window
  import opened Output
  import opened Decode
  import opened InflateFast
  import opened Modes
  import opened DynamicModes
  import opened CodeModes
  import Adler32

  datatype Flush = NoFlush | BlockFlush | FinishFlush

  /** What inflate returns. */
  datatype Code = Ok | StreamEnd | NeedsDict | DataError | BufError

  /** Less of the stream is left, or less room, or a later mode has been reached. */
  predicate Lower(rest: nat, room: int, m: Mode, rest0: nat, room0: int, m0: Mode) {
    rest < rest0 || (rest == rest0 && (room < room0 || (room == room0 && Stage(m) < Stage(m0))))
  }

  function StartState(wrap: bool): State { State(wrap, false, Phase.Head, []) }

  /** The run over the whole stream has come to state s with r left. */
  ghost predicate On(wrap: bool, stream: seq<byte>, s: State, r: seq<bool>) { Goes(StartState(wrap), BytesBits(stream), s, r) }

  lemma OnTrans(wrap: bool, stream: seq<byte>, s: State, r: seq<bool>, s': State, r': seq<bool>)
    requires On(wrap, stream, s, r) && Goes(s, r, s', r')
    ensures On(wrap, stream, s', r')
  {
    hide Goes;
    GoesTrans(StartState(wrap), BytesBits(stream), s, r, s', r');
  }

  lemma OnGood(wrap: bool, stream: seq<byte>, s: State, r: seq<bool>)
    requires On(wrap, stream, s, r)
    ensures WellFormed(s)
  {
    hide WellFormed, Reaches;
  }

  lemma OnStart(wrap: bool, stream: seq<byte>)
    ensures On(wrap, stream, StartState(wrap), BytesBits(stream))
  {
    hide Reaches;
    GoesSelf(StartState(wrap), BytesBits(stream));
  }

  /** The window has seen the output of earlier calls; the check value covers it and the first mark bytes of this call's. */
  ghost predicate Recorded(wrap: bool, m: Mode, check: nat, mark: nat, seen: seq<byte>, before: seq<byte>, written: seq<byte>) {
    mark <= |written| && (Early(m) ==> mark == 0 && seen == before) && (wrap ==> Checks(check, before + written[..mark]))
  }

  lemma RecordedMore(wrap: bool, m: Mode, check: nat, mark: nat, seen: seq<byte>, before: seq<byte>, written: seq<byte>, m': Mode, written': seq<byte>)
    requires Recorded(wrap, m, check, mark, seen, before, written) && Early(m)
    ensures Recorded(wrap, m', check, mark, seen, before, written') && mark == 0 && seen == before
  {
    hide Checks;
    assert written[..0] == written'[..0];
  }

  /** Once there is no more output to come, the check value covers all of it. */
  lemma RecordedEnd(wrap: bool, m: Mode, check: nat, mark: nat, seen: seq<byte>, before: seq<byte>, written: seq<byte>)
    requires !Early(m) && mark <= |written| && (wrap ==> mark == |written| && Checks(check, before + written))
    ensures Recorded(wrap, m, check, mark, seen, before, written)
  {
    hide Checks;
    assert written[..|written|] == written;
  }

  lemma RecordedDone(wrap: bool, m: Mode, check: nat, seen: seq<byte>, before: seq<byte>)
    requires (Early(m) ==> seen == before) && (wrap ==> Checks(check, before))
    ensures Recorded(wrap, m, check, 0, seen, before, [])
  {
    hide Checks;
    assert before + [] == before;
  }

  lemma RecordedTypeDo(wrap: bool, check: nat, seen: seq<byte>, before: seq<byte>)
    requires Recorded(wrap, TYPE, check, 0, seen, before, [])
    ensures Recorded(wrap, TYPEDO, check, 0, seen, before, [])
  {
    hide Checks;
  }

  /** The two modes before a block type differ only in whether inflate may stop there. */
  lemma TypeDo(wrap: bool, st: Regs, out: seq<byte>, acc: seq<bool>)
    requires st.mode == TYPE
    ensures Abs(wrap, st.(mode := TYPEDO), out) == Abs(wrap, st, out)
    ensures Thrifty(TYPE, Abs(wrap, st, out), acc) ==> Thrifty(TYPEDO, Abs(wrap, st, out), acc)
  {
    hide Step;
  }

  lemma ChecksNone()
    ensures Checks(1, [])
  {
  }

  /** The sizes of the tables of the fixed codes. */
  lemma FixedSizes()
    ensures var f := FixedCodes();
      && RootBits(f.lit, 9) == 9 && SpaceNeeded(f.lit, 9) == 512 && RootBits(f.dist, 5) == 5 && SpaceNeeded(f.dist, 5) == 32
      && Decodable(f.lit) && Decodable(f.dist)
  {
    hide Count, FixedCodes, Longest, Shortest, Decodable;
    var f := FixedCodes();
    forall l: nat
      ensures Count(f.lit, l) == if l == 7 then 24 else if l == 8 then 152 else if l == 9 then 112 else 0
      ensures Count(f.dist, l) == if l == 5 then 32 else 0
    {
      FixedCounts(l);
    }
    assert Count(f.lit, 7) == 24 && Count(f.dist, 5) == 32;
    assert Longest(f.lit, MAX_BITS) == 9 && Shortest(f.lit, 1) == 7;
    assert Longest(f.dist, MAX_BITS) == 5 && Shortest(f.dist, 1) == 5;
    Pow2Values();
    FixedDecodable();
  }

  /** fixedtables. */
  method MakeFixed() returns (fixed: array<Entry>, distFix: nat, fixEnd: nat)
    ensures fresh(fixed) && TableAt(fixed, 0, distFix, 9, LENS, FixedCodes().lit)
    ensures TableAt(fixed, distFix, fixEnd, 5, DISTS, FixedCodes().dist)
  {
    hide Decodes, Rejects, FixedCodes, RootBits, SpaceNeeded, Kraft;
    FixedSizes();
    var f := FixedCodes();
    fixed := new Entry[544];
    var work := new nat[288];
    var ret, next, root := InflateTable(LENS, f.lit, fixed, 0, 9, work);
    EnoughSuffices(f.lit, []);
    ghost var t := fixed[0..next];
    distFix := next;
    ret, fixEnd, root := InflateTable(DISTS, f.dist, fixed, next, 5, work);
    assert fixed[0..distFix] == fixed[..distFix] == t;
  }

  class Inflater {
    const wrap: bool
    const src: BitSource
    const w: Window
    const o: Output
    const codes: array<Entry>
    const work: array<nat>
    /** The tables of the fixed codes, one after the other. */
    const fixed: array<Entry>
    const distFix: nat
    const fixEnd: nat
    var st: Regs
    var check: nat
    /** How much of the output buffer the check value covers. */
    var mark: nat
    var lencode: array<Entry>
    var lenbits: nat
    var distcode: array<Entry>
    var distStart: nat
    var distbits: nat
    ghost var lenEnd: nat
    ghost var distEnd: nat

    ghost predicate Sized() {
      codes.Length == ENOUGH && work.Length == 288 && codes != fixed && w.wbits == 15
    }

    ghost predicate FixedOk()
      reads fixed
    {
      TableAt(fixed, 0, distFix, 9, LENS, FixedCodes().lit) && TableAt(fixed, distFix, fixEnd, 5, DISTS, FixedCodes().dist)
    }

    /** What the input does not change. */
    ghost predicate Parts()
      reads w`wsize, w`whave, w`write, w`seen, w.window, o`buf, o`put, fixed
      ensures Parts() ==> o.Valid() && Sized()
    {
      w.Valid() && o.Valid() && Sized() && FixedOk() && o.buf != w.window
    }

    /** inflateReset. */
    constructor (wrap: bool, src: BitSource, w: Window, o: Output, codes: array<Entry>, work: array<nat>, fixed: array<Entry>, distFix: nat, fixEnd: nat)
      requires src.Valid() && src.bits == 0 && src.Rest() == BytesBits(src.stream) && w.Valid() && w.wbits == 15 && w.seen == []
      requires o.Valid() && o.put == 0 && o.before == [] && o.buf != w.window && codes.Length == ENOUGH && work.Length == 288 && codes != fixed
      requires TableAt(fixed, 0, distFix, 9, LENS, FixedCodes().lit) && TableAt(fixed, distFix, fixEnd, 5, DISTS, FixedCodes().dist)
      ensures Inv() && mark == 0 && st.mode == HEAD && this.wrap == wrap && this.src == src && this.w == w && this.o == o
      ensures this.codes == codes && this.work == work && this.fixed == fixed
    {
      hide TableAt, BitSource.Valid, BitSource.Rest, Window.Valid, Checks, Goes, Step, FixedCodes, LengthTable, On;
      this.wrap, this.src, this.w, this.o, this.codes, this.work := wrap, src, w, o, codes, work;
      this.fixed, this.distFix, this.fixEnd := fixed, distFix, fixEnd;
      st := Regs(HEAD, false, 0, 0, 0, 0, 0, 0, 0, seq(320, _ => 0), [], [], []);
      check, mark := 1, 0;
      lencode, lenbits, distcode, distStart, distbits := codes, 0, codes, 0, 0;
      lenEnd, distEnd := 0, 0;
      new;
      ChecksNone();
      OnStart(wrap, src.stream);
      assert o.Out() == [] && o.before + o.buf[..0] == [];
    }

    /** The tables at lencode and distcode are those of the codes in use. */
    ghost predicate TablesOk()
      reads `st, `lencode, `lenEnd, `lenbits, `distcode, `distStart, `distEnd, `distbits, lencode, distcode
    {
      && (st.mode == CODELENS ==> lencode == codes && LengthTable(lencode, lenEnd, lenbits, st.bl))
      && (Coding(st.mode) ==> TableAt(lencode, 0, lenEnd, lenbits, LENS, st.lit) && TableAt(distcode, distStart, distEnd, distbits, DISTS, st.dist))
    }

    /** Where the machine is, and what the accumulator holds. */
    ghost predicate Running()
      requires o.Valid()
      reads `st, src`hold, src`bits, src`next, src`base, o, o.buf
    {
      && |st.lens| == 320 && On(wrap, src.stream, Abs(wrap, st, o.Out()), src.Rest())
      && Thrifty(st.mode, Abs(wrap, st, o.Out()), src.Acc())
    }

    /** The window has the output of earlier calls; the check value covers the output up to mark. */
    ghost predicate History()
      reads `st, `check, `mark, w`seen, o, o.buf
    {
      o.put <= o.buf.Length && Recorded(wrap, st.mode, check, mark, w.seen, o.before, o.buf[..o.put])
    }

    ghost predicate Inv()
      reads this, src, w`wsize, w`whave, w`write, w`seen, w.window, o, o.buf, lencode, distcode, fixed
    {
      src.Valid() && Parts() && Running() && TablesOk() && History()
    }

    function Room(): int
      reads o`buf, o`put
    {
      o.buf.Length - o.put
    }

    /** The next thing to do is to write a byte. */
    predicate Waiting()
      reads `st
    {
      (st.mode == COPY && st.length > 0) || st.mode == MATCH || st.mode == LIT
    }

    /** Why inflate stops. */
    ghost predicate Stalled(block: bool)
      requires o.Valid()
      reads `st, src`hold, src`bits, src`next, src`inp, o, o.buf
    {
      || Final(st.mode) || (src.next == |src.inp| && Starved(Abs(wrap, st, o.Out()), src.Acc()))
      || (Room() == 0 && Waiting()) || (st.mode == TYPE && block)
    }

    method StepHead() returns (go: bool)
      requires Inv() && st.mode == HEAD
      modifies `st, src`hold, src`bits, src`next
      ensures Inv() && src.next >= old(src.next)
      ensures if go then Lower(|src.Rest()|, Room(), st.mode, |old(src.Rest())|, Room(), HEAD) else Stalled(false)
    {
      hide Goes, On, BitSource.Valid, BitSource.Rest, Window.Valid, FixedOk, Output.Out, Checks, Starved, Thrifty, Abs, WellFormed, TableAt, LengthTable, Parts;
      ghost var s, r := Abs(wrap, st, o.Out()), src.Rest();
      OnGood(wrap, src.stream, s, r);
      go, st := DoHead(src, w.wbits, wrap, st, o.Out());
      OnTrans(wrap, src.stream, s, r, Abs(wrap, st, o.Out()), src.Rest());
    }

    method TypeRun() returns (go: bool)
      requires Inv() && (st.mode == TYPE || st.mode == TYPEDO)
      modifies `st, src`hold, src`bits, src`next
      ensures src.Valid() && Running() && src.next >= old(src.next) && st.mode in {TYPE, TYPEDO, CHECK, STORED, LEN, TABLE, BAD}
      ensures st.mode == LEN ==> st.lit == FixedCodes().lit && st.dist == FixedCodes().dist
      ensures if go then Later(|src.Rest()|, st.mode, |old(src.Rest())|, old(st.mode)) else Stalled(false)
    {
      hide Goes, On, BitSource.Valid, BitSource.Rest, Window.Valid, FixedOk, Output.Out, Checks, Starved, Thrifty, Abs, WellFormed, TableAt, LengthTable, Parts, FixedCodes;
      ghost var s, r := Abs(wrap, st, o.Out()), src.Rest();
      OnGood(wrap, src.stream, s, r);
      go, st := DoType(src, wrap, st, o.Out());
      OnTrans(wrap, src.stream, s, r, Abs(wrap, st, o.Out()), src.Rest());
    }

    method StepType() returns (go: bool)
      requires Inv() && (st.mode == TYPE || st.mode == TYPEDO)
      modifies `st, `lencode, `lenEnd, `lenbits, `distcode, `distStart, `distEnd, `distbits, src`hold, src`bits, src`next
      ensures Inv() && src.next >= old(src.next)
      ensures if go then Lower(|src.Rest()|, Room(), st.mode, |old(src.Rest())|, Room(), old(st.mode)) else Stalled(false)
    {
      hide Running, BitSource.Valid, BitSource.Rest, Window.Valid, FixedOk, Output.Out, Checks, Starved, TableAt, LengthTable, FixedCodes, Abs;
      go := TypeRun();
      if st.mode == LEN {
        UseFixed();
      }
    }

    /** fixedtables(state). */
    method UseFixed()
      requires FixedOk() && st.lit == FixedCodes().lit && st.dist == FixedCodes().dist && st.mode == LEN
      modifies `lencode, `lenEnd, `lenbits, `distcode, `distStart, `distEnd, `distbits
      ensures TablesOk()
    {
      hide TableAt, FixedCodes;
      lencode, lenbits, distcode, distStart, distbits := fixed, 9, fixed, distFix, 5;
      lenEnd, distEnd := distFix, fixEnd;
    }

    method StepStored() returns (go: bool)
      requires Inv() && st.mode == STORED
      modifies `st, src`hold, src`bits, src`next
      ensures Inv() && src.next >= old(src.next)
      ensures if go then Lower(|src.Rest()|, Room(), st.mode, |old(src.Rest())|, Room(), STORED) else Stalled(false)
    {
      hide Goes, On, BitSource.Valid, BitSource.Rest, Window.Valid, FixedOk, Output.Out, Checks, Starved, Thrifty, Abs, WellFormed, TableAt, LengthTable, Parts;
      ghost var s, r := Abs(wrap, st, o.Out()), src.Rest();
      OnGood(wrap, src.stream, s, r);
      go, st := DoStored(src, wrap, st, o.Out());
      OnTrans(wrap, src.stream, s, r, Abs(wrap, st, o.Out()), src.Rest());
    }

    method StepTable() returns (go: bool)
      requires Inv() && st.mode == TABLE
      modifies `st, src`hold, src`bits, src`next
      ensures Inv() && src.next >= old(src.next)
      ensures if go then Lower(|src.Rest()|, Room(), st.mode, |old(src.Rest())|, Room(), TABLE) else Stalled(false)
    {
      hide Goes, On, BitSource.Valid, BitSource.Rest, Window.Valid, FixedOk, Output.Out, Checks, Starved, Thrifty, Abs, WellFormed, TableAt, LengthTable, Parts;
      ghost var s, r := Abs(wrap, st, o.Out()), src.Rest();
      OnGood(wrap, src.stream, s, r);
      go, st := DoTable(src, wrap, st, o.Out());
      OnTrans(wrap, src.stream, s, r, Abs(wrap, st, o.Out()), src.Rest());
    }

    method LenLensRun() returns (go: bool, end: nat, root: nat)
      requires Inv() && st.mode == LENLENS
      modifies `st, src`hold, src`bits, src`next, codes, work
      ensures src.Valid() && Running() && src.next >= old(src.next) && st.mode in {LENLENS, CODELENS, BAD}
      ensures st.mode == CODELENS ==> LengthTable(codes, end, root, st.bl)
      ensures if go then Later(|src.Rest()|, st.mode, |old(src.Rest())|, LENLENS) else Stalled(false)
    {
      hide Goes, On, BitSource.Valid, BitSource.Rest, Window.Valid, FixedOk, Output.Out, Checks, Starved, Thrifty, Abs, WellFormed, TableAt, LengthTable, Parts, TablesOk, Recorded;
      ghost var s, r := Abs(wrap, st, o.Out()), src.Rest();
      OnGood(wrap, src.stream, s, r);
      go, st, end, root := DoLenLens(src, codes, work, wrap, st, o.Out());
      OnTrans(wrap, src.stream, s, r, Abs(wrap, st, o.Out()), src.Rest());
    }

    method StepLenLens() returns (go: bool)
      requires Inv() && st.mode == LENLENS
      modifies `st, `lencode, `lenEnd, `lenbits, src`hold, src`bits, src`next, codes, work
      ensures Inv() && src.next >= old(src.next)
      ensures if go then Lower(|src.Rest()|, Room(), st.mode, |old(src.Rest())|, Room(), LENLENS) else Stalled(false)
    {
      hide Running, BitSource.Valid, BitSource.Rest, Window.Valid, FixedOk, Output.Out, Checks, Starved, TableAt, LengthTable, Abs;
      var end, root;
      go, end, root := LenLensRun();
      if st.mode == CODELENS {
        UseLengths(end, root);
      }
    }

    method UseLengths(end: nat, root: nat)
      requires LengthTable(codes, end, root, st.bl) && st.mode == CODELENS
      modifies `lencode, `lenEnd, `lenbits
      ensures TablesOk()
    {
      hide LengthTable;
      lencode, lenbits, lenEnd := codes, root, end;
    }

    method CodeLensRun() returns (go: bool, lend: nat, lroot: nat, dend: nat, droot: nat)
      requires Inv() && st.mode == CODELENS
      modifies `st, src`hold, src`bits, src`next, codes, work
      ensures src.Valid() && Running() && src.next >= old(src.next) && st.mode in {CODELENS, LEN, BAD}
      ensures st.mode == LEN ==> CodeTables(codes, lend, lroot, dend, droot, st.lit, st.dist)
      ensures st.mode == CODELENS ==> LengthTable(codes, lenEnd, lenbits, st.bl)
      ensures if go then Later(|src.Rest()|, st.mode, |old(src.Rest())|, CODELENS) else Stalled(false)
    {
      hide Goes, On, BitSource.Valid, BitSource.Rest, Window.Valid, FixedOk, Output.Out, Checks, Starved, Thrifty, Abs, WellFormed, TableAt, LengthTable, Parts, CodeTables, Recorded;
      ghost var s, r := Abs(wrap, st, o.Out()), src.Rest();
      OnGood(wrap, src.stream, s, r);
      go, st, lend, lroot, dend, droot := DoCodeLens(src, codes, work, lenEnd, lenbits, wrap, st, o.Out());
      OnTrans(wrap, src.stream, s, r, Abs(wrap, st, o.Out()), src.Rest());
    }

    method StepCodeLens() returns (go: bool)
      requires Inv() && st.mode == CODELENS
      modifies `st, `lenEnd, `lenbits, `distcode, `distStart, `distEnd, `distbits, src`hold, src`bits, src`next, codes, work
      ensures Inv() && src.next >= old(src.next)
      ensures if go then Lower(|src.Rest()|, Room(), st.mode, |old(src.Rest())|, Room(), CODELENS) else Stalled(false)
    {
      hide Running, BitSource.Valid, BitSource.Rest, Window.Valid, FixedOk, Output.Out, Checks, Starved, TableAt, LengthTable, CodeTables, Abs;
      var lend: nat, lroot: nat, dend: nat, droot: nat;
      go, lend, lroot, dend, droot := CodeLensRun();
      if st.mode == LEN {
        UseCodes(lend, lroot, dend, droot);
      }
    }

    method UseCodes(lend: nat, lroot: nat, dend: nat, droot: nat)
      requires lencode == codes && CodeTables(codes, lend, lroot, dend, droot, st.lit, st.dist) && st.mode == LEN
      modifies `lenEnd, `lenbits, `distcode, `distStart, `distEnd, `distbits
      ensures TablesOk()
    {
      hide TableAt;
      lenbits, distcode, distStart, distbits := lroot, codes, lend, droot;
      lenEnd, distEnd := lend, dend;
    }

    method StepLen() returns (go: bool)
      requires Inv() && st.mode == LEN
      modifies `st, src`hold, src`bits, src`next
      ensures Inv() && src.next >= old(src.next)
      ensures if go then Lower(|src.Rest()|, Room(), st.mode, |old(src.Rest())|, Room(), LEN) else Stalled(false)
    {
      hide Goes, On, BitSource.Valid, BitSource.Rest, Window.Valid, FixedOk, Output.Out, Checks, Starved, Thrifty, Abs, WellFormed, TableAt, LengthTable, Parts;
      ghost var s, r := Abs(wrap, st, o.Out()), src.Rest();
      OnGood(wrap, src.stream, s, r);
      go, st := DoLen(src, lencode, 0, lenbits, lenEnd, wrap, st, o.Out());
      OnTrans(wrap, src.stream, s, r, Abs(wrap, st, o.Out()), src.Rest());
    }

    method StepLenExt() returns (go: bool)
      requires Inv() && st.mode == LENEXT
      modifies `st, src`hold, src`bits, src`next
      ensures Inv() && src.next >= old(src.next)
      ensures if go then Lower(|src.Rest()|, Room(), st.mode, |old(src.Rest())|, Room(), LENEXT) else Stalled(false)
    {
      hide Goes, On, BitSource.Valid, BitSource.Rest, Window.Valid, FixedOk, Output.Out, Checks, Starved, Thrifty, Abs, WellFormed, TableAt, LengthTable, Parts;
      ghost var s, r := Abs(wrap, st, o.Out()), src.Rest();
      OnGood(wrap, src.stream, s, r);
      go, st := DoLenExt(src, wrap, st, o.Out());
      OnTrans(wrap, src.stream, s, r, Abs(wrap, st, o.Out()), src.Rest());
    }

    method StepDist() returns (go: bool)
      requires Inv() && st.mode == DIST
      modifies `st, src`hold, src`bits, src`next
      ensures Inv() && src.next >= old(src.next)
      ensures if go then Lower(|src.Rest()|, Room(), st.mode, |old(src.Rest())|, Room(), DIST) else Stalled(false)
    {
      hide Goes, On, BitSource.Valid, BitSource.Rest, Window.Valid, FixedOk, Output.Out, Checks, Starved, Thrifty, Abs, WellFormed, TableAt, LengthTable, Parts;
      ghost var s, r := Abs(wrap, st, o.Out()), src.Rest();
      OnGood(wrap, src.stream, s, r);
      go, st := DoDist(src, distcode, distStart, distbits, distEnd, wrap, st, o.Out());
      OnTrans(wrap, src.stream, s, r, Abs(wrap, st, o.Out()), src.Rest());
    }

    method StepDistExt() returns (go: bool)
      requires Inv() && st.mode == DISTEXT
      modifies `st, src`hold, src`bits, src`next
      ensures Inv() && src.next >= old(src.next)
      ensures if go then Lower(|src.Rest()|, Room(), st.mode, |old(src.Rest())|, Room(), DISTEXT) else Stalled(false)
    {
      hide Goes, On, BitSource.Valid, BitSource.Rest, Window.Valid, FixedOk, Output.Out, Checks, Starved, Thrifty, Abs, WellFormed, TableAt, LengthTable;
      ghost var s, r := Abs(wrap, st, o.Out()), src.Rest();
      OnGood(wrap, src.stream, s, r);
      Reaching();
      go, st := DoDistExt(src, w.whave + o.put, wrap, st, o.Out());
      OnTrans(wrap, src.stream, s, r, Abs(wrap, st, o.Out()), src.Rest());
    }

    /** Output and window together reach back as far as there is output, or farther than any distance. */
    lemma Reaching()
      requires Parts() && w.seen == o.before
      ensures CodeModes.Reach(w.whave + o.put, o.Out())
    {
      hide BitSource.Valid, Window.Valid, FixedOk;
      w.Have();
      WindowSize(w);
    }

    method StepMatch() returns (go: bool)
      requires Inv() && st.mode == MATCH
      modifies `st, o`put, o.buf
      ensures Inv()
      ensures if go then Room() < old(Room()) else Stalled(false)
    {
      hide Goes, On, BitSource.Valid, BitSource.Rest, Window.Valid, FixedOk, Output.Out, Checks, Starved, Thrifty, Abs, WellFormed, TableAt, LengthTable, Recorded;
      go := o.put < o.buf.Length;
      if !go {
        return;
      }
      ghost var s, r := Abs(wrap, st, o.Out()), src.Rest();
      OnGood(wrap, src.stream, s, r);
      ghost var was := o.buf[..o.put];
      RecordedMore(wrap, st.mode, check, mark, w.seen, o.before, was, LEN, was);
      st := DoMatch(o, w, wrap, st, r, src.Acc());
      RecordedMore(wrap, MATCH, check, mark, w.seen, o.before, was, st.mode, o.buf[..o.put]);
      OnTrans(wrap, src.stream, s, r, Abs(wrap, st, o.Out()), src.Rest());
    }

    method StepLit() returns (go: bool)
      requires Inv() && st.mode == LIT
      modifies `st, o`put, o.buf
      ensures Inv()
      ensures if go then Room() < old(Room()) else Stalled(false)
    {
      hide Goes, On, BitSource.Valid, BitSource.Rest, Window.Valid, FixedOk, Output.Out, Checks, Starved, Thrifty, Abs, WellFormed, TableAt, LengthTable, Recorded;
      go := o.put < o.buf.Length;
      if !go {
        return;
      }
      ghost var s, r := Abs(wrap, st, o.Out()), src.Rest();
      OnGood(wrap, src.stream, s, r);
      ghost var was := o.buf[..o.put];
      RecordedMore(wrap, st.mode, check, mark, w.seen, o.before, was, LEN, was);
      st := DoLit(o, wrap, st, r, src.Acc());
      RecordedMore(wrap, LIT, check, mark, w.seen, o.before, was, st.mode, o.buf[..o.put]);
      OnTrans(wrap, src.stream, s, r, Abs(wrap, st, o.Out()), src.Rest());
    }

    method StepCopy() returns (go: bool)
      requires Inv() && st.mode == COPY
      modifies `st, src`next, o`put, o.buf
      ensures Inv() && src.next >= old(src.next)
      ensures if go then Lower(|src.Rest()|, Room(), st.mode, |old(src.Rest())|, old(Room()), COPY) else Stalled(false)
    {
      hide Goes, On, BitSource.Valid, BitSource.Rest, Window.Valid, FixedOk, Output.Out, Checks, Starved, Thrifty, Abs, WellFormed, TableAt, LengthTable, Recorded;
      ghost var s, r := Abs(wrap, st, o.Out()), src.Rest();
      OnGood(wrap, src.stream, s, r);
      CopyThrifty(wrap, st, o.Out(), src.Acc());
      ghost var was := o.buf[..o.put];
      go, st := DoCopy(src, o, wrap, st);
      RecordedMore(wrap, COPY, check, mark, w.seen, o.before, was, st.mode, o.buf[..o.put]);
      CopyThrifty(wrap, st, o.Out(), src.Acc());
      OnTrans(wrap, src.stream, s, r, Abs(wrap, st, o.Out()), src.Rest());
    }

    method CheckRun() returns (go: bool)
      requires Inv() && st.mode == CHECK
      modifies `st, `check, src`hold, src`bits, src`next
      ensures src.Valid() && Running() && src.next >= old(src.next) && st.mode in {CHECK, DONE, BAD}
      ensures if go then Later(|src.Rest()|, st.mode, |old(src.Rest())|, CHECK) && st.mode != CHECK && (wrap ==> Checks(check, o.Out()))
              else Stalled(false) && st.mode == CHECK && check == old(check)
    {
      hide Goes, On, BitSource.Valid, BitSource.Rest, Window.Valid, FixedOk, Output.Out, Checks, Starved, Thrifty, Abs, WellFormed, TableAt, LengthTable, Parts, Recorded;
      ghost var s, r := Abs(wrap, st, o.Out()), src.Rest();
      OnGood(wrap, src.stream, s, r);
      OutRecorded();
      go, st, check := DoCheck(src, check, o.buf[mark..o.put], wrap, st, o.Out(), o.before + o.buf[..mark]);
      OnTrans(wrap, src.stream, s, r, Abs(wrap, st, o.Out()), src.Rest());
    }

    method StepCheck() returns (go: bool)
      requires Inv() && st.mode == CHECK
      modifies `st, `check, `mark, src`hold, src`bits, src`next
      ensures Inv() && src.next >= old(src.next)
      ensures if go then Lower(|src.Rest()|, Room(), st.mode, |old(src.Rest())|, Room(), CHECK) else Stalled(false)
    {
      hide Running, BitSource.Valid, BitSource.Rest, Parts, Output.Out, Checks, Starved, TableAt, LengthTable, Recorded, Abs;
      OutRecorded();
      OutWhole();
      go := CheckRun();
      if go {
        mark := if wrap then o.put else mark;
        RecordedEnd(wrap, st.mode, check, mark, w.seen, o.before, o.buf[..o.put]);
      }
    }

    lemma OutWhole()
      requires o.Valid()
      ensures o.Out() == o.before + o.buf[..o.put]
    {
    }

    /** The parts of the output that the check value covers, and does not. */
    lemma OutRecorded()
      requires o.Valid() && History()
      ensures mark <= o.put && o.Out() == o.before + o.buf[..mark] + o.buf[mark..o.put] && (wrap ==> Checks(check, o.before + o.buf[..mark]))
    {
      hide Checks;
      assert o.buf[..o.put][..mark] == o.buf[..mark];
      o.OutSplit(mark);
    }

    /** inflate_fast, for which there must be enough input and room. */
    method FastCall() returns (m: Fast)
      requires Inv() && st.mode == LEN && |src.inp| - src.next >= 6 && Room() >= 258
      modifies src`hold, src`bits, src`next, o`put, o.buf
      ensures src.Valid() && o.Valid() && src.bits < 8 && src.next >= old(src.next) && |src.Rest()| < |old(src.Rest())|
      ensures On(wrap, src.stream, Abs(wrap, st.(mode := FastMode(m)), o.Out()), src.Rest())
    {
      hide Goes, On, BitSource.Valid, BitSource.Rest, Window.Valid, FixedOk, Output.Out, Checks, Thrifty, Abs, WellFormed, TableAt, LengthTable, Run, Needs;
      ghost var c0, s := Conf(StartState(wrap), BytesBits(src.stream)), Abs(wrap, st, o.Out());
      OnRun(wrap, src.stream, st, o.Out(), src.Rest());
      FastReady(wrap, st, o.Out(), src);
      m := InflateFast.InflateFast(src, w, o, lencode, 0, lenbits, distcode, distStart, distbits, lenEnd, distEnd, c0, s, Codes(st.lit, st.dist));
      RunOn(wrap, src.stream, st, m, s, o.Out(), src.Rest());
    }

    method FastRun()
      requires Inv() && st.mode == LEN && |src.inp| - src.next >= 6 && Room() >= 258
      modifies `st, src`hold, src`bits, src`next, o`put, o.buf
      ensures src.Valid() && o.Valid() && Running() && src.next >= old(src.next) && |src.Rest()| < |old(src.Rest())|
      ensures st == old(st).(mode := st.mode) && st.mode in {LEN, TYPE, BAD}
    {
      hide Goes, On, BitSource.Valid, BitSource.Rest, Parts, TablesOk, History, Output.Out, Thrifty, Abs;
      var m := FastCall();
      st := st.(mode := FastMode(m));
      ThriftyWhen(st.mode, Abs(wrap, st, o.Out()), src.Acc());
    }

    method StepFast()
      requires Inv() && st.mode == LEN && |src.inp| - src.next >= 6 && Room() >= 258
      modifies `st, src`hold, src`bits, src`next, o`put, o.buf
      ensures Inv() && src.next >= old(src.next) && |src.Rest()| < |old(src.Rest())|
    {
      hide Running, BitSource.Valid, BitSource.Rest, Window.Valid, FixedOk, Output.Out, Checks, TableAt, LengthTable, Recorded, Abs;
      ghost var was := o.buf[..o.put];
      FastRun();
      RecordedMore(wrap, LEN, check, mark, w.seen, o.before, was, st.mode, o.buf[..o.put]);
    }

    /** One mode: false if it cannot go on. */
    method Advance(block: bool) returns (go: bool)
      requires Inv()
      modifies `st, `check, `mark, `lencode, `lenEnd, `lenbits, `distcode, `distStart, `distEnd, `distbits,
        src`hold, src`bits, src`next, o`put, o.buf, codes, work
      ensures Inv() && src.next >= old(src.next)
      ensures if go then Lower(|src.Rest()|, Room(), st.mode, |old(src.Rest())|, old(Room()), old(st.mode)) else Stalled(block)
      ensures !go && !Stalled(false) ==> old(st.mode) == TYPE && st == old(st) && src.Rest() == old(src.Rest()) && Room() == old(Room())
    {
      hide Inv, BitSource.Rest, Abs, Starved, Output.Valid;
      StepsFrom();
      match st.mode {
        case HEAD => go := StepHead();
        case TYPE => if block { go := false; } else { go := StepType(); }
        case TYPEDO => go := StepType();
        case STORED => go := StepStored();
        case COPY => go := StepCopy();
        case TABLE => go := StepTable();
        case LENLENS => go := StepLenLens();
        case CODELENS => go := StepCodeLens();
        case LEN =>
          if |src.inp| - src.next >= 6 && Room() >= 258 {
            StepFast();
            go := true;
          } else {
            go := StepLen();
          }
        case LENEXT => go := StepLenExt();
        case DIST => go := StepDist();
        case DISTEXT => go := StepDistExt();
        case MATCH => go := StepMatch();
        case LIT => go := StepLit();
        case CHECK => go := StepCheck();
        case _ => go := false;
      }
      StepsFrom();
    }

    lemma StepsFrom()
      requires Inv()
      ensures o.Valid()
    {
    }

    /** The window takes the new output over, the check value covers it. */
    method Record()
      requires Inv()
      modifies `check, w`wsize, w`whave, w`write, w`seen, w.window
      ensures src.Valid() && Parts() && Running() && TablesOk() && (Early(st.mode) ==> w.seen == o.Out()) && (wrap ==> Checks(check, o.Out()))
    {
      hide Goes, On, BitSource.Valid, BitSource.Rest, Window.Valid, FixedOk, Output.Out, Checks, Thrifty, Abs, WellFormed, TableAt, LengthTable;
      OutRecorded();
      OutWhole();
      Unseen();
      ghost var x := o.before + o.buf[..mark];
      if w.wsize != 0 || (Early(st.mode) && o.put != mark) {
        w.Update(o.buf, mark, o.put);
      }
      if wrap && o.put != mark {
        check := UpdateCheck(check, o.buf[mark..o.put], x);
      }
    }

    /** Without any output there is nothing to record. */
    lemma Unseen()
      requires o.Valid()
      ensures mark == o.put ==> o.buf[mark..o.put] == [] && o.before + o.buf[..mark] + [] == o.before + o.buf[..mark]
      ensures mark == 0 <= o.put ==> o.buf[mark..o.put] == o.buf[..o.put]
    {
    }

    /** Gives the buffers back. */
    method Leave()
      requires Inv()
      modifies `check, `mark, w`wsize, w`whave, w`write, w`seen, w.window, o
      ensures Inv() && o.put == 0 && mark == 0 && o.Out() == old(o.Out()) && fresh(o.buf)
    {
      hide Goes, On, BitSource.Valid, BitSource.Rest, Window.Valid, FixedOk, Output.Out, Checks, Thrifty, Abs, WellFormed, TableAt, LengthTable, Recorded;
      Record();
      o.Release();
      mark := 0;
      RecordedDone(wrap, st.mode, check, w.seen, o.before);
      assert o.buf[..0] == [];
    }

    /** Between calls. */
    ghost predicate Idle()
      reads this, src, w`wsize, w`whave, w`write, w`seen, w.window, o, o.buf, lencode, distcode, fixed
    {
      Inv() && o.put == 0 && mark == 0
    }

    /** Takes the buffers of a call; the input goes on where the last call left it. */
    method TakeBuffers(inp: seq<byte>, out: array<byte>)
      requires Idle() && out != w.window
      requires src.base + src.next + |inp| <= |src.stream| && src.stream[src.base + src.next..src.base + src.next + |inp|] == inp
      modifies src`inp, src`next, src`base, o
      ensures Inv() && o.put == 0 && o.buf == out && src.inp == inp && src.next == 0 && src.base == old(src.base + src.next)
      ensures o.before == old(o.Out()) == o.Out() && src.Rest() == old(src.Rest())
    {
      hide On, BitSource.Valid, BitSource.Rest, Window.Valid, FixedOk, Output.Out, TableAt, LengthTable, Abs, Thrifty, Recorded;
      o.OutIs();
      OutWhole();
      assert o.buf[..0] == [] && o.before + [] == o.before;
      src.SetInput(inp);
      o.SetOutput(out);
      assert o.buf[..0] == [];
    }

    /** A call goes on where the last one stopped, also before a block. */
    method Enter(inp: seq<byte>, out: array<byte>)
      requires Idle() && out != w.window
      requires src.base + src.next + |inp| <= |src.stream| && src.stream[src.base + src.next..src.base + src.next + |inp|] == inp
      modifies `st, src`inp, src`next, src`base, o
      ensures Inv() && o.put == 0 && mark == 0 && o.buf == out && src.inp == inp && src.next == 0 && src.base == old(src.base + src.next)
      ensures o.before == old(o.Out()) == o.Out() && src.Rest() == old(src.Rest()) && st.mode == if old(st.mode) == TYPE then TYPEDO else old(st.mode)
    {
      hide On, BitSource.Valid, BitSource.Rest, Window.Valid, FixedOk, Output.Out, TableAt, LengthTable, Abs, Thrifty, Recorded;
      TakeBuffers(inp, out);
      if st.mode == TYPE {
        TypeDo(wrap, st, o.Out(), src.Acc());
        RecordedTypeDo(wrap, check, w.seen, o.before);
        assert o.buf[..0] == [];
        st := st.(mode := TYPEDO);
      }
    }

    /** The loop over the modes. */
    method GoOn(block: bool)
      requires Inv()
      modifies `st, `check, `mark, `lencode, `lenEnd, `lenbits, `distcode, `distStart, `distEnd, `distbits,
        src`hold, src`bits, src`next, o`put, o.buf, codes, work
      ensures Inv() && o.Valid() && Stalled(block) && src.next >= old(src.next)
      ensures old(st.mode) != TYPE && !Stalled(false) ==> Lower(|src.Rest()|, Room(), TYPE, |old(src.Rest())|, old(Room()), old(st.mode))
    {
      hide Inv, BitSource.Rest, BitSource.Valid, Abs, Starved;
      var go := true;
      Bounds();
      while go
        invariant Inv() && o.Valid() && (go || Stalled(block)) && src.next >= old(src.next)
        invariant go ==> Lower(|src.Rest()|, Room(), st.mode, |old(src.Rest())|, old(Room()), old(st.mode)) || (st.mode == old(st.mode) && Room() == old(Room()) && |src.Rest()| == |old(src.Rest())|)
        invariant !go && !Stalled(false) && old(st.mode) != TYPE ==> Lower(|src.Rest()|, Room(), TYPE, |old(src.Rest())|, old(Room()), old(st.mode))
        decreases go, |src.Rest()|, Room(), Stage(st.mode)
      {
        go := Advance(block);
        Bounds();
      }
    }

    /** inflate. Wherever it stops, the run over the whole stream has come to where it stands. */
    method Inflate(inp: seq<byte>, out: array<byte>, flush: Flush) returns (code: Code, used: nat, produced: nat)
      requires Idle() && out != w.window
      requires src.base + src.next + |inp| <= |src.stream| && src.stream[src.base + src.next..src.base + src.next + |inp|] == inp
      modifies this, src, w`wsize, w`whave, w`write, w`seen, w.window, o, out, codes, work
      ensures Idle() && used <= |inp| && produced <= out.Length && fresh(o.buf)
      ensures src.base + src.next == old(src.base + src.next) + used && o.Out() == old(o.Out()) + out[..produced]
      ensures code == StreamEnd <==> st.mode == DONE
      ensures code == DataError <==> st.mode == BAD
      ensures code == NeedsDict <==> st.mode == DICTID
      ensures Final(st.mode) || (used == |inp| && Starved(Abs(wrap, st, o.Out()), src.Acc()))
        || (produced == out.Length && Waiting()) || (st.mode == TYPE && flush == BlockFlush)
      ensures old(st.mode) == TYPE && st.mode == TYPE && !(used == |inp| && Starved(Abs(wrap, st, o.Out()), src.Acc())) ==>
        |src.Rest()| < |old(src.Rest())| || produced > 0
      ensures code == BufError <==> !Final(st.mode) && ((used == 0 && produced == 0) || flush == FinishFlush)
    {
      hide Inv, BitSource.Rest, BitSource.Valid, Abs, Starved, Output.Out, Window.Valid;
      Enter(inp, out);
      GoOn(flush == BlockFlush);
      Bounds();
      OutWhole();
      used, produced := src.next, o.put;
      code := if st.mode == DONE then StreamEnd else if st.mode == BAD then DataError else if st.mode == DICTID then NeedsDict
              else if (used == 0 && produced == 0) || flush == FinishFlush then BufError else Ok;
      Leave();
    }

    lemma Bounds()
      requires Inv()
      ensures o.Valid() && src.next <= |src.inp|
    {
      src.Fits();
    }
  }

  lemma CopyThrifty(wrap: bool, st: Regs, out: seq<byte>, acc: seq<bool>)
    requires st.mode == COPY || st.mode == TYPE
    ensures st.mode == COPY && Thrifty(COPY, Abs(wrap, st, out), acc) ==> |acc| == 0
    ensures |acc| == 0 ==> Thrifty(st.mode, Abs(wrap, st, out), acc)
  {
    hide Step;
  }

  function FastMode(m: Fast): Mode { match m case InLen => LEN case AtType => TYPE case IsBad => BAD }

  lemma OnRun(wrap: bool, stream: seq<byte>, st: Regs, out: seq<byte>, rest: seq<bool>)
    requires On(wrap, stream, Abs(wrap, st, out), rest) && st.mode == LEN
    ensures Run(Conf(StartState(wrap), BytesBits(stream)), Abs(wrap, st, out), Phase.Len(Codes(st.lit, st.dist)), out, rest)
  {
    hide WellFormed, Reaches;
  }

  lemma RunOn(wrap: bool, stream: seq<byte>, st: Regs, m: Fast, s: State, out: seq<byte>, rest: seq<bool>)
    requires s.wrap == wrap && s.last == st.last
    requires Run(Conf(StartState(wrap), BytesBits(stream)), s, FastPhase(m, Codes(st.lit, st.dist)), out, rest)
    ensures On(wrap, stream, Abs(wrap, st.(mode := FastMode(m)), out), rest)
  {
    hide WellFormed, Reaches;
  }

  lemma FastReady(wrap: bool, st: Regs, out: seq<byte>, src: BitSource)
    requires st.mode == LEN && src.Valid() && Thrifty(LEN, Abs(wrap, st, out), src.Acc())
    ensures (src.bits < 8 || src.bits < Needs(st.lit, src.hold)) && src.bits <= 30 && Abs(wrap, st, out).wrap == wrap && Abs(wrap, st, out).last == st.last
  {
    hide Step, BitSource.Valid, Needs, ToBits;
    LenStarved(wrap, st, out, src.Acc());
    src.Fits();
    NeedsMore(src, st.lit);
    NextIs(st.lit, src.hold, src.bits);
  }

  /** inflateInit2_ for a window of 32 kilobytes. */
  method InflateInit2(wrap: bool, ghost stream: seq<byte>) returns (z: Inflater)
    ensures z.Idle() && z.st.mode == HEAD && z.o.Out() == [] && z.wrap == wrap && z.src.stream == stream && z.src.base + z.src.next == 0
    ensures fresh(z) && fresh(z.src) && fresh(z.w) && fresh(z.w.window) && fresh(z.o) && fresh(z.codes) && fresh(z.work)
  {
    hide TableAt, BitSource.Valid, BitSource.Rest, Window.Valid, Checks, Goes, FixedCodes, LengthTable, On, Inflater.Inv;
    var fixed, distFix, fixEnd := MakeFixed();
    var src := new BitSource(stream);
    var w := new Window(15);
    var o := new Output();
    var codes := new Entry[ENOUGH];
    var work := new nat[288];
    z := new Inflater(wrap, src, w, o, codes, work, fixed, distFix, fixEnd);
  }
}
