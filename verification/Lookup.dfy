/** Looking up the next symbol in a decoding table: what inflate() and inflate_fast() find agrees with the code. */
module Lookup {
  import opened Bits
  import opened Canonical
  import opened InfTrees
  import opened Machine
  import opened Runs

  /** t decodes lens, and lens is a code that can be decoded. */
  ghost predicate Ready(t: seq<Entry>, root: nat, kind: Kind, lens: seq<nat>) {
    |lens| <= MaxSymbols(kind) && Decodable(lens) && Decodes(t, root, kind, lens) && Rejects(t, root, lens)
  }

  /** The window of an accumulator. */
  lemma WindowIs(hold: nat, bits: nat)
    requires hold < Pow2(bits)
    ensures Window(ToBits(hold, bits)) == Low(hold, MAX_BITS)
  {
    hide ToBits, Pow2;
    if bits > MAX_BITS {
      ToBitsSplit(hold, MAX_BITS, bits - MAX_BITS);
      assert ToBits(hold, bits)[..MAX_BITS] == ToBits(Low(hold, MAX_BITS), MAX_BITS);
      FromToBitsExact(Low(hold, MAX_BITS), MAX_BITS);
    } else {
      FromToBitsExact(hold, bits);
      Pow2Mono(bits, MAX_BITS);
      LowHighUnique(hold, MAX_BITS, 0, hold);
    }
  }

  /** What the code says about the accumulator. */
  ghost function Next(lens: seq<nat>, hold: nat, bits: nat): Symbol { DecodeSymbol(lens, ToBits(hold, bits)) }

  /** The number of bits the next symbol takes, as far as the window shows. */
  ghost function Needs(lens: seq<nat>, hold: nat): nat {
    var v := Mirror(Low(hold, MAX_BITS));
    if HasSymbol(lens, v) then lens[SymbolOf(lens, v)] else 1
  }

  lemma NextIs(lens: seq<nat>, hold: nat, bits: nat)
    requires hold < Pow2(bits)
    ensures Next(lens, hold, bits).NeedMore? <==> bits < Needs(lens, hold)
    ensures Next(lens, hold, bits).Found? ==> lens[Next(lens, hold, bits).sym] == Needs(lens, hold)
    ensures Next(lens, hold, bits).NoCode? ==> Needs(lens, hold) == 1
    ensures 1 <= Needs(lens, hold) <= MAX_BITS
  {
    hide Mirror, Window, Covers, ToBits, Low;
    WindowIs(hold, bits);
  }

  /** The entry of the symbol, when used bits of its code have been dropped before. */
  ghost predicate EntryOf(e: Entry, kind: Kind, lens: seq<nat>, s: Symbol, used: nat)
    requires |lens| <= MaxSymbols(kind)
  {
    match s
    case NeedMore => false
    case Found(n) => n < |lens| && lens[n] >= used && e == SymbolEntry(kind, n, lens[n] - used)
    case NoCode => used == 0 && e == INVALID
  }

  /** The first lookup. If it finds no link, its entry is that of the next symbol as soon as the bits are there. */
  lemma RootEntry(t: seq<Entry>, root: nat, kind: Kind, lens: seq<nat>, hold: nat, bits: nat)
    requires Ready(t, root, kind, lens) && hold < Pow2(bits)
    ensures 1 <= root <= MAX_BITS && Low(hold, root) < |t|
    ensures var e := t[Low(hold, root)];
      if IsLink(e) then e.bits == root < Needs(lens, hold) && root + e.op <= MAX_BITS
      else e.bits == Needs(lens, hold) && (e.bits <= bits ==> EntryOf(e, kind, lens, Next(lens, hold, bits), 0))
  {
    hide Mirror, Low, High, Covers, DecodeSymbol, SymbolEntry, Acceptable, Pow2, ToBits;
    var x := Low(hold, MAX_BITS);
    LowLow(hold, root, MAX_BITS);
    Pow2Values();
    Pow2Mono(root, MAX_BITS);
    NextIs(lens, hold, bits);
    WindowIs(hold, bits);
    NextSymbol(lens, hold, bits);
    var v := Mirror(x);
    if HasSymbol(lens, v) {
      var n := SymbolOf(lens, v);
      assert Placed(t, root, kind, lens, n, x, |t|);
    }
  }

  lemma NextSymbol(lens: seq<nat>, hold: nat, bits: nat)
    requires hold < Pow2(bits)
    ensures var v := Mirror(Low(hold, MAX_BITS));
      !Next(lens, hold, bits).NeedMore? ==> Next(lens, hold, bits) == if HasSymbol(lens, v) then Found(SymbolOf(lens, v)) else NoCode
  {
    hide Mirror, Window, Covers, ToBits, Low;
    WindowIs(hold, bits);
  }

  /** The second lookup. */
  lemma LinkedEntry(t: seq<Entry>, root: nat, kind: Kind, lens: seq<nat>, hold: nat, bits: nat)
    requires Ready(t, root, kind, lens) && hold < Pow2(bits) && Low(hold, root) < |t| && IsLink(t[Low(hold, root)])
    ensures var e := t[Low(hold, root)];
      var j := e.val + Low(High(hold, root), e.op);
      && j < |t| && root + t[j].bits == Needs(lens, hold) && !IsLink(t[j]) && High(Low(hold, e.bits + e.op), e.bits) == Low(High(hold, root), e.op)
      && (root + t[j].bits <= bits ==> EntryOf(t[j], kind, lens, Next(lens, hold, bits), root))
  {
    hide Mirror, Low, High, Covers, DecodeSymbol, SymbolEntry, Acceptable, Pow2, ToBits;
    var x := Low(hold, MAX_BITS);
    LowLow(hold, root, MAX_BITS);
    Pow2Values();
    Pow2Mono(root, MAX_BITS);
    NextIs(lens, hold, bits);
    WindowIs(hold, bits);
    NextSymbol(lens, hold, bits);
    var v := Mirror(x);
    if HasSymbol(lens, v) {
      var n := SymbolOf(lens, v);
      assert Placed(t, root, kind, lens, n, x, |t|);
      var e := t[Low(hold, root)];
      SubIndex(hold, root, e.op);
    }
  }

  lemma SubIndex(hold: nat, root: nat, op: nat)
    requires root + op <= MAX_BITS
    ensures Low(High(Low(hold, MAX_BITS), root), op) == Low(High(hold, root), op)
    ensures High(Low(hold, root + op), root) == Low(High(hold, root), op)
  {
    hide Low, High;
    LowSplit(hold, root, op);
    LowSplit(Low(hold, MAX_BITS), root, op);
    LowLow(hold, root + op, MAX_BITS);
  }

  lemma NextStable(lens: seq<nat>, hold: nat, bits: nat, more: nat, n: nat, h: nat)
    requires Decodable(lens) && hold < Pow2(bits) && !Next(lens, hold, bits).NeedMore? && h == Above(hold, bits, more)
    ensures Next(lens, h, bits + n) == Next(lens, hold, bits)
  {
    hide DecodeSymbol, Needs, ToBits, Pow2, Decodable;
    ToBitsAppend(hold, bits, more, n);
    DecodeStable(lens, ToBits(hold, bits), ToBits(more, n));
  }

  /** Bits that come later change nothing that is needed now. */
  lemma NeedsStable(lens: seq<nat>, hold: nat, bits: nat, more: nat, n: nat, h: nat)
    requires Decodable(lens) && hold < Pow2(bits) && h == Above(hold, bits, more) && h < Pow2(bits + n)
    requires Needs(lens, hold) <= bits && n % 8 == 0
    ensures Needs(lens, h) == Needs(lens, hold)
    ensures Next(lens, h, bits + n) == Next(lens, hold, bits)
  {
    hide DecodeSymbol, Needs, ToBits, Pow2, Decodable, Next;
    NextIs(lens, hold, bits);
    NextStable(lens, hold, bits, more, n, h);
    NextIs(lens, h, bits + n);
  }
}
