/** Reading one symbol with the tables, and the steps of the inflate machine that inflate() and inflate_fast() share. */
module Decode {
  import opened Bits
  import opened Canonical
  import opened InfTrees
  import opened Tokens
  import opened Machine
  import opened Runs
  import opened Lookup
  import opened BitSource
  import Adler32

  // ---- the machine

  /** One step further on the run from c. */
  lemma Go(c: Conf, s: State, r: seq<bool>, s': State, used: nat)
    requires WellFormed(s) && Reaches(c, Conf(s, r)) && Step(s, r) == Next(s', used)
    ensures used <= |r| && WellFormed(s') && Reaches(c, Conf(s', r[used..]))
  {
    hide WellFormed, Step, Reaches;
    StepKeeps(s, r);
    ReachesNext(Conf(s, r), Conf(s', r[used..]), used);
    ReachesTrans(c, Conf(s, r), Conf(s', r[used..]));
  }

  function Copied(s: State, c: Codes, length: nat, dist: nat, k: nat): State
    requires k <= length
  {
    State(s.wrap, s.last, if k == length then Phase.Len(c) else MatchCopy(c, length - k, dist), Copy(s.out, dist, k))
  }

  lemma CopyStep(s: State, c: Codes, length: nat, dist: nat, bits: seq<bool>)
    requires s.phase == MatchCopy(c, length, dist) && 1 <= length && 1 <= dist <= |s.out|
    ensures Step(s, bits) == Outcome.Next(Emit(s, if length == 1 then Phase.Len(c) else MatchCopy(c, length - 1, dist), s.out[|s.out| - dist]), 0)
  {
    hide Acceptable, DecodeSymbol, Take, Adler32.Adler, Ordered;
  }

  /** The machine copies the first k bytes of a match. */
  lemma {:induction false} CopyPart(s: State, c: Codes, length: nat, dist: nat, k: nat, bits: seq<bool>)
    requires s.phase == MatchCopy(c, length, dist) && 1 <= k <= length && 1 <= dist <= |s.out|
    ensures Reaches(Conf(s, bits), Conf(Copied(s, c, length, dist, k), bits))
    decreases k
  {
    hide Reaches, Step;
    var b := s.out[|s.out| - dist];
    var n := Emit(s, if length == 1 then Phase.Len(c) else MatchCopy(c, length - 1, dist), b);
    CopyStep(s, c, length, dist, bits);
    ReachesNext(Conf(s, bits), Conf(n, bits), 0);
    assert Copy(s.out, dist, k) == Copy(s.out + [b], dist, k - 1);
    if k > 1 {
      CopyPart(n, c, length - 1, dist, k - 1, bits);
      ReachesTrans(Conf(s, bits), Conf(n, bits), Conf(Copied(s, c, length, dist, k), bits));
    }
  }

  lemma StoredStep(s: State, length: nat, b: byte, bits: seq<bool>, more: seq<bool>)
    requires s.phase == CopyBytes(length) && 1 <= length && bits == ToBits(b, 8) + more
    ensures Step(s, bits) == Outcome.Next(Emit(s, CopyBytes(length - 1), b), 8) && |bits| >= 8 && bits[8..] == more
  {
    hide Acceptable, DecodeSymbol, Take, Adler32.Adler, Ordered, ToBits;
    FirstByte(b, bits, more);
  }

  /** The machine copies k bytes of a stored block. */
  lemma {:induction false} StoredPart(s: State, length: nat, bytes: seq<byte>, rest: seq<bool>)
    requires s.phase == CopyBytes(length) && |bytes| <= length
    ensures Reaches(Conf(s, BytesBits(bytes) + rest), Conf(State(s.wrap, s.last, CopyBytes(length - |bytes|), s.out + bytes), rest))
    decreases |bytes|
  {
    hide Reaches, ToBits, Take, Step;
    var bits := BytesBits(bytes) + rest;
    var end := Conf(State(s.wrap, s.last, CopyBytes(length - |bytes|), s.out + bytes), rest);
    if |bytes| == 0 {
      assert s.out + bytes == s.out && bits == rest;
      ReachesSelf(end);
    } else {
      var more := BytesBits(bytes[1..]) + rest;
      Associative(ToBits(bytes[0], 8), BytesBits(bytes[1..]), rest);
      StoredStep(s, length, bytes[0], bits, more);
      var n := Emit(s, CopyBytes(length - 1), bytes[0]);
      ReachesNext(Conf(s, bits), Conf(n, more), 8);
      StoredPart(n, length - 1, bytes[1..], rest);
      Associative(s.out, [bytes[0]], bytes[1..]);
      assert [bytes[0]] + bytes[1..] == bytes;
      ReachesTrans(Conf(s, bits), Conf(n, more), end);
    }
  }

  lemma FirstByte(b: byte, bits: seq<bool>, more: seq<bool>)
    requires bits == ToBits(b, 8) + more
    ensures |bits| >= 8 && ByteOf(Take(bits, 8)) == b && bits[8..] == more
  {
    hide ToBits;
    Pow2Values();
    assert bits[..8] == ToBits(b, 8);
    FromToBitsExact(b, 8);
  }

  // ---- one symbol

  /** Further bits do not make the code that starts the stream any shorter. */
  lemma NeedsLonger(lens: seq<nat>, hold: nat, bits: nat, more: nat, n: nat, h: nat)
    requires Decodable(lens) && hold < Pow2(bits) && h == Above(hold, bits, more) && h < Pow2(bits + n) && bits < Needs(lens, hold)
    ensures bits < Needs(lens, h)
  {
    hide DecodeSymbol, Needs, ToBits, Pow2, Decodable;
    NextIs(lens, hold, bits);
    NextIs(lens, h, bits + n);
    if Needs(lens, h) <= bits {
      ToBitsAppend(hold, bits, more, n);
      ShorterDecodes(lens, ToBits(hold, bits), ToBits(more, n));
    }
  }

  /** A symbol whose code is within the first part of a stream is found in that part already. */
  lemma ShorterDecodes(lens: seq<nat>, acc: seq<bool>, more: seq<bool>)
    requires Decodable(lens)
    requires !DecodeSymbol(lens, acc + more).NeedMore? && Used(lens, DecodeSymbol(lens, acc + more)) <= |acc|
    ensures !DecodeSymbol(lens, acc).NeedMore?
  {
    hide CodeBits, Kraft, Mirror, Window;
    DecodableKraft(lens);
    var d := DecodeSymbol(lens, acc + more);
    if d.Found? {
      DecodeIff(lens, acc + more, d.sym);
      DecodeIff(lens, acc, d.sym);
      assert (acc + more)[..lens[d.sym]] == acc[..lens[d.sym]];
    } else {
      WindowLow(acc, 1);
      WindowLow(acc + more, 1);
      assert (acc + more)[..1] == acc[..1];
      NoCodeStable(lens, Window(acc + more), Window(acc));
    }
  }

  /** The accumulator holds no whole byte more than the next symbol needs. */
  ghost predicate Lean(lens: seq<nat>, hold: nat, bits: nat) { bits < 8 + Needs(lens, hold) }

  /** t[start..end] is the table for lens. */
  ghost predicate TableAt(t: array<Entry>, start: nat, end: nat, root: nat, kind: Kind, lens: seq<nat>)
    reads t
  {
    start <= end <= t.Length && Ready(t[start..end], root, kind, lens)
  }

  /** The bits that a symbol takes. */
  function Used(lens: seq<nat>, d: Symbol): nat {
    if d.Found? && d.sym < |lens| then lens[d.sym] else 1
  }

  /** What the entry says is what the symbol stands for. */
  ghost predicate Tells(e: Entry, kind: Kind, lens: seq<nat>, d: Symbol)
    requires |lens| <= MaxSymbols(kind)
  {
    match d
    case NeedMore => false
    case Found(n) => n < |lens| && e == SymbolEntry(kind, n, e.bits)
    case NoCode => e == INVALID
  }

  lemma EntryTells(e: Entry, kind: Kind, lens: seq<nat>, d: Symbol, used: nat)
    requires |lens| <= MaxSymbols(kind) && EntryOf(e, kind, lens, d, used)
    ensures Tells(e, kind, lens, d) && Used(lens, d) == used + e.bits
  {
  }

  /** What the accumulator decodes to is what the whole rest of the stream decodes to. */
  lemma RestDecodes(src: BitSource, lens: seq<nat>)
    requires src.Valid() && Decodable(lens) && !Lookup.Next(lens, src.hold, src.bits).NeedMore?
    ensures DecodeSymbol(lens, src.Rest()) == Lookup.Next(lens, src.hold, src.bits)
  {
    hide DecodeSymbol, Decodable, ToBits, BytesBits;
    DecodeStable(lens, src.Acc(), BytesBits(src.stream[src.base + src.next..]));
  }

  /** A symbol whose code is in the accumulator is found there. */
  lemma StillDecodes(src: BitSource, lens: seq<nat>)
    requires src.Valid() && Decodable(lens) && !DecodeSymbol(lens, src.Rest()).NeedMore? && Used(lens, DecodeSymbol(lens, src.Rest())) <= src.bits
    ensures DecodeSymbol(lens, src.Acc()) == DecodeSymbol(lens, src.Rest())
  {
    hide DecodeSymbol, Decodable, ToBits, BytesBits;
    var more := BytesBits(src.stream[src.base + src.next..]);
    ShorterDecodes(lens, src.Acc(), more);
    DecodeStable(lens, src.Acc(), more);
  }

  /** The first entry, and what it says about the bits at hand. */
  ghost predicate AtRoot(t: seq<Entry>, root: nat, kind: Kind, lens: seq<nat>, hold: nat, bits: nat, e: Entry) {
    && hold < Pow2(bits) && Low(hold, root) < |t| && e == t[Low(hold, root)] && 1 <= root <= MAX_BITS && |lens| <= MaxSymbols(kind)
    && 1 <= Needs(lens, hold) <= MAX_BITS
    && if IsLink(e) then e.bits == root < Needs(lens, hold) && root + e.op <= MAX_BITS
       else e.bits == Needs(lens, hold) && (e.bits <= bits ==> EntryOf(e, kind, lens, Lookup.Next(lens, hold, bits), 0))
  }

  lemma RootIs(t: seq<Entry>, root: nat, kind: Kind, lens: seq<nat>, hold: nat, bits: nat)
    requires Ready(t, root, kind, lens) && hold < Pow2(bits)
    ensures Low(hold, root) < |t| && AtRoot(t, root, kind, lens, hold, bits, t[Low(hold, root)])
  {
    hide Needs, Low, Pow2, Lookup.Next, EntryOf, Decodes, Rejects, Decodable;
    RootEntry(t, root, kind, lens, hold, bits);
    NextIs(lens, hold, bits);
  }

  /** What pulling a byte leaves as it is. */
  lemma PullKeeps(t: seq<Entry>, root: nat, kind: Kind, lens: seq<nat>, hold: nat, bits: nat, x: nat, hold': nat)
    requires Ready(t, root, kind, lens) && hold < Pow2(bits) && hold' == Above(hold, bits, x) && hold' < Pow2(bits + 8)
    requires bits < Needs(lens, hold)
    ensures Lean(lens, hold', bits + 8) && (root <= bits ==> Low(hold', root) == Low(hold, root))
  {
    hide Needs, Low, Pow2, Decodes, Rejects, Decodable, Above;
    NeedsLonger(lens, hold, bits, x, 8, hold');
    if root <= bits {
      LowStable(hold, bits, x, root);
    }
  }

  lemma TableIs(t: array<Entry>, start: nat, end: nat, root: nat, kind: Kind, lens: seq<nat>)
    requires TableAt(t, start, end, root, kind, lens)
    ensures start <= end <= t.Length && Ready(t[start..end], root, kind, lens)
  {
  }

  /** The loop that pulls bytes until the first entry is complete. */
  method PeekRoot(src: BitSource, t: array<Entry>, start: nat, root: nat, ghost end: nat, ghost kind: Kind, ghost lens: seq<nat>)
    returns (ok: bool, e: Entry)
    requires src.Valid() && TableAt(t, start, end, root, kind, lens) && Lean(lens, src.hold, src.bits)
    modifies src`hold, src`bits, src`next
    ensures src.Valid() && src.Rest() == old(src.Rest()) && src.next >= old(src.next) && Lean(lens, src.hold, src.bits)
    ensures AtRoot(t[start..end], root, kind, lens, src.hold, src.bits, e)
    ensures if ok then e.bits <= src.bits else src.next == |src.inp| && src.bits < e.bits
  {
    hide Ready, Needs, Low, Pow2, BitSource.Rest, BitSource.Valid, Above, TableAt, EntryOf, Lookup.Next, Lean;
    TableIs(t, start, end, root, kind, lens);
    ghost var tab := t[start..end];
    src.Fits();
    RootIs(tab, root, kind, lens, src.hold, src.bits);
    e := t[start + Low(src.hold, root)];
    while e.bits > src.bits
      invariant src.Valid() && src.Rest() == old(src.Rest()) && src.next >= old(src.next) && Lean(lens, src.hold, src.bits)
      invariant AtRoot(tab, root, kind, lens, src.hold, src.bits, e)
      decreases |src.inp| - src.next
    {
      src.Fits();
      if src.next == |src.inp| {
        return false, e;
      }
      ghost var h, b := src.hold, src.bits;
      src.PullByte();
      src.Fits();
      PullKeeps(tab, root, kind, lens, h, b, src.inp[src.next - 1], src.hold);
      RootIs(tab, root, kind, lens, src.hold, src.bits);
      e := t[start + Low(src.hold, root)];
    }
    return true, e;
  }

  lemma ReadyDecodable(t: seq<Entry>, root: nat, kind: Kind, lens: seq<nat>)
    requires Ready(t, root, kind, lens)
    ensures Decodable(lens) && |lens| <= MaxSymbols(kind)
  {
  }

  lemma LowStable(hold: nat, bits: nat, more: nat, root: nat)
    requires root <= bits
    ensures Low(Above(hold, bits, more), root) == Low(hold, root)
  {
    Pow2Add(bits - root, root);
    LowHigh(hold, root);
    MulAssoc(more, Pow2(bits - root), Pow2(root));
    MulAdd(High(hold, root), more * Pow2(bits - root), Pow2(root));
    LowHighUnique(hold + more * Pow2(bits), root, High(hold, root) + more * Pow2(bits - root), Low(hold, root));
  }

  /** The entry that the link last leads to. */
  ghost predicate AtSub(t: seq<Entry>, root: nat, kind: Kind, lens: seq<nat>, hold: nat, bits: nat, last: Entry, e: Entry) {
    && hold < Pow2(bits) && !IsLink(e) && |lens| <= MaxSymbols(kind) && last.bits == root <= bits && root + e.bits == Needs(lens, hold) <= MAX_BITS
    && (root + e.bits <= bits ==> EntryOf(e, kind, lens, Lookup.Next(lens, hold, bits), root))
    && Low(hold, root) < |t| && t[Low(hold, root)] == last
  }

  /** Where the second entry is. */
  function SubIndexOf(last: Entry, hold: nat): nat { last.val + High(Low(hold, last.bits + last.op), last.bits) }

  lemma SubIs(t: seq<Entry>, root: nat, kind: Kind, lens: seq<nat>, hold: nat, bits: nat, last: Entry)
    requires Ready(t, root, kind, lens) && hold < Pow2(bits) && Low(hold, root) < |t| && last == t[Low(hold, root)] && IsLink(last)
    requires last.bits <= bits
    ensures SubIndexOf(last, hold) < |t| && AtSub(t, root, kind, lens, hold, bits, last, t[SubIndexOf(last, hold)])
    ensures SubIndexOf(last, hold) == last.val + Low(High(hold, root), last.op)
  {
    hide Needs, Low, High, Pow2, Lookup.Next, EntryOf, Decodes, Rejects, Decodable;
    RootEntry(t, root, kind, lens, hold, bits);
    LinkedEntry(t, root, kind, lens, hold, bits);
    NextIs(lens, hold, bits);
  }

  /** The same for the second entry, with the link last. */
  method PeekSub(src: BitSource, t: array<Entry>, start: nat, root: nat, last: Entry, ghost end: nat, ghost kind: Kind, ghost lens: seq<nat>)
    returns (ok: bool, e: Entry)
    requires src.Valid() && TableAt(t, start, end, root, kind, lens) && Lean(lens, src.hold, src.bits)
    requires Low(src.hold, root) < end - start && last == t[start..end][Low(src.hold, root)] && IsLink(last) && last.bits <= src.bits
    modifies src`hold, src`bits, src`next
    ensures src.Valid() && src.Rest() == old(src.Rest()) && src.next >= old(src.next) && Lean(lens, src.hold, src.bits)
    ensures AtSub(t[start..end], root, kind, lens, src.hold, src.bits, last, e)
    ensures if ok then root + e.bits <= src.bits else src.next == |src.inp| && src.bits < root + e.bits
  {
    hide Ready, Needs, Low, High, Pow2, BitSource.Rest, BitSource.Valid, Above, TableAt, EntryOf, Lookup.Next, Lean, SubIndexOf;
    TableIs(t, start, end, root, kind, lens);
    ghost var tab := t[start..end];
    src.Fits();
    SubIs(tab, root, kind, lens, src.hold, src.bits, last);
    e := t[start + SubIndexOf(last, src.hold)];
    while last.bits + e.bits > src.bits
      invariant src.Valid() && src.Rest() == old(src.Rest()) && src.next >= old(src.next) && Lean(lens, src.hold, src.bits)
      invariant AtSub(tab, root, kind, lens, src.hold, src.bits, last, e)
      decreases |src.inp| - src.next
    {
      src.Fits();
      if src.next == |src.inp| {
        return false, e;
      }
      ghost var h, b := src.hold, src.bits;
      src.PullByte();
      src.Fits();
      PullKeeps(tab, root, kind, lens, h, b, src.inp[src.next - 1], src.hold);
      SubIs(tab, root, kind, lens, src.hold, src.bits, last);
      e := t[start + SubIndexOf(last, src.hold)];
    }
    return true, e;
  }

  lemma Starving(lens: seq<nat>, hold: nat, bits: nat)
    requires hold < Pow2(bits) && bits < Needs(lens, hold)
    ensures DecodeSymbol(lens, ToBits(hold, bits)).NeedMore?
  {
    hide DecodeSymbol, Needs, Pow2, ToBits;
    NextIs(lens, hold, bits);
  }

  /** Drops the rest of a symbol's code, used bits of it being gone. */
  lemma Dropped(r: seq<bool>, used: nat, n: nat)
    requires used + n <= |r|
    ensures r[used..][n..] == r[used + n..]
  {
  }

  /** Reads one symbol, as in the modes LEN and DIST. In the tables a link is what has no bits in its high half. */
  method ReadSymbol(src: BitSource, t: array<Entry>, start: nat, root: nat, ghost end: nat, ghost kind: Kind, ghost lens: seq<nat>)
    returns (ok: bool, e: Entry)
    requires src.Valid() && TableAt(t, start, end, root, kind, lens) && Lean(lens, src.hold, src.bits)
    modifies src`hold, src`bits, src`next
    ensures src.Valid() && src.next >= old(src.next)
    ensures !ok ==> src.Rest() == old(src.Rest()) && src.next == |src.inp| && DecodeSymbol(lens, src.Acc()).NeedMore?
    ensures ok ==> var d := DecodeSymbol(lens, old(src.Rest()));
      && |lens| <= MaxSymbols(kind) && Tells(e, kind, lens, d) && src.bits < 8
      && Used(lens, d) <= |old(src.Rest())| && src.Rest() == old(src.Rest())[Used(lens, d)..]
  {
    hide Ready, Needs, Low, High, Pow2, BitSource.Rest, EntryOf, DecodeSymbol, Tells, Used, BitSource.Valid, TableAt, ToBits;
    TableIs(t, start, end, root, kind, lens);
    ReadyDecodable(t[start..end], root, kind, lens);
    ok, e := PeekRoot(src, t, start, root, end, kind, lens);
    src.Fits();
    if !ok {
      Starving(lens, src.hold, src.bits);
      return;
    }
    if IsLink(e) {
      var last := e;
      ok, e := PeekSub(src, t, start, root, last, end, kind, lens);
      src.Fits();
      if !ok {
        Starving(lens, src.hold, src.bits);
        return;
      }
      EntryTells(e, kind, lens, Lookup.Next(lens, src.hold, src.bits), root);
      RestDecodes(src, lens);
      src.DropBits(last.bits);
      src.DropBits(e.bits);
      Dropped(old(src.Rest()), root, e.bits);
    } else {
      EntryTells(e, kind, lens, Lookup.Next(lens, src.hold, src.bits), 0);
      RestDecodes(src, lens);
      src.DropBits(e.bits);
    }
  }
}
