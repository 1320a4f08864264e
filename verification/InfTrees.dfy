/** The decoding tables of inftrees.c: a root table indexed by the next bits of the stream, with one
    level of sub-tables for the codes longer than the root index. */
module InfTrees {
  import opened Bits
  import opened Canonical

  const ENOUGH: nat := 2048
  const MAXD: nat := 592

  datatype Kind = CODES | LENS | DISTS

  /** op: 0 literal, 1..15 link (index bits of the sub-table), 16 + extra bits for a length or a
      distance, 96 end of block, otherwise (bit 6 set) invalid. */
  datatype Entry = Entry(op: nat, bits: nat, val: nat)

  const LBASE: seq<nat> := [
    3, 4, 5, 6, 7, 8, 9, 10, 11, 13, 15, 17, 19, 23, 27, 31,
    35, 43, 51, 59, 67, 83, 99, 115, 131, 163, 195, 227, 258, 0, 0]
  const LEXT: seq<nat> := [
    16, 16, 16, 16, 16, 16, 16, 16, 17, 17, 17, 17, 18, 18, 18, 18,
    19, 19, 19, 19, 20, 20, 20, 20, 21, 21, 21, 21, 16, 201, 196]
  const DBASE: seq<nat> := [
    1, 2, 3, 4, 5, 7, 9, 13, 17, 25, 33, 49, 65, 97, 129, 193,
    257, 385, 513, 769, 1025, 1537, 2049, 3073, 4097, 6145,
    8193, 12289, 16385, 24577, 0, 0]
  const DEXT: seq<nat> := [
    16, 16, 16, 16, 17, 17, 18, 18, 19, 19, 20, 20, 21, 21, 22, 22,
    23, 23, 24, 24, 25, 25, 26, 26, 27, 27,
    28, 28, 29, 29, 64, 64]

  function MaxSymbols(kind: Kind): nat {
    match kind case CODES => 19 case LENS => 288 case DISTS => 32
  }

  /** The entry of symbol sym when b bits of its code remain to be dropped. */
  function SymbolEntry(kind: Kind, sym: nat, b: nat): (e: Entry)
    requires sym < MaxSymbols(kind)
    ensures e.bits == b && !IsLink(e)
  {
    match kind
    case CODES => Entry(0, b, sym)
    case LENS =>
      if sym < 256 then Entry(0, b, sym)
      else if sym > 256 then Entry(LEXT[sym - 257], b, LBASE[sym - 257])
      else Entry(96, b, 0)
    case DISTS => Entry(DEXT[sym], b, DBASE[sym])
  }

  const INVALID: Entry := Entry(64, 1, 0)

  predicate IsLink(e: Entry) { 0 < e.op < 16 }

  /** Looking up a stream window x finds e, through at most one link; sub-tables end by hi. */
  ghost predicate Finds(t: seq<Entry>, root: nat, x: nat, e: Entry, linked: bool, hi: nat) {
    var i := Low(x, root);
    i < |t| && hi <= |t| &&
    if !linked then t[i] == e
    else IsLink(t[i]) && t[i].bits == root && Pow2(root) <= t[i].val && t[i].val + Pow2(t[i].op) <= hi && root + t[i].op <= MAX_BITS &&
         var j := t[i].val + Low(High(x, root), t[i].op);
         j < |t| && t[j] == e
  }

  /** Symbol n is found from every window that starts with its code. */
  ghost predicate Placed(t: seq<Entry>, root: nat, kind: Kind, lens: seq<nat>, n: nat, x: nat, hi: nat)
    requires n < |lens| <= MaxSymbols(kind)
  {
    if lens[n] <= root then Finds(t, root, x, SymbolEntry(kind, n, lens[n]), false, hi)
    else Finds(t, root, x, SymbolEntry(kind, n, lens[n] - root), true, hi)
  }

  /** The table decodes the canonical code of lens: every window that starts with the code of a
      symbol finds that symbol and drops exactly its length. */
  ghost predicate Decodes(t: seq<Entry>, root: nat, kind: Kind, lens: seq<nat>)
    requires |lens| <= MaxSymbols(kind)
  {
    && 1 <= root <= MAX_BITS
    && Pow2(root) <= |t|
    && forall n: nat, x: nat | x < FULL && Covers(lens, n, Mirror(x)) :: Placed(t, root, kind, lens, n, x, |t|)
  }

  ghost predicate NoCodes(lens: seq<nat>) {
    forall l | 1 <= l <= MAX_BITS :: Count(lens, l) == 0
  }

  ghost predicate SingleBitCode(lens: seq<nat>) {
    Count(lens, 1) == 1 && forall l | 2 <= l <= MAX_BITS :: Count(lens, l) == 0
  }

  /** The code lengths that inflate_table accepts. */
  ghost predicate Acceptable(kind: Kind, lens: seq<nat>) {
    NoCodes(lens) || Kraft(lens) == FULL || (kind != CODES && SingleBitCode(lens))
  }

  // ---- counting and validity

  method CountLengths(lens: seq<nat>) returns (count: array<nat>)
    requires ValidLens(lens)
    ensures fresh(count) && count.Length == MAX_BITS + 1
    ensures forall l: nat | l <= MAX_BITS :: count[l] == Count(lens, l)
  {
    count := new nat[MAX_BITS + 1](_ => 0);
    var sym: nat := 0;
    while sym < |lens|
      invariant 0 <= sym <= |lens|
      invariant forall l: nat | l <= MAX_BITS :: count[l] == Count(lens[..sym], l)
    {
      forall l: nat | l <= MAX_BITS
        ensures Count(lens[..sym + 1], l) == Count(lens[..sym], l) + (if lens[sym] == l then 1 else 0)
      {
        CountStep(lens, sym, l);
      }
      count[lens[sym]] := count[lens[sym]] + 1;
      sym := sym + 1;
    }
    assert lens[..sym] == lens;
  }

  /** The greatest code length in use up to l, or 0. */
  function Longest(lens: seq<nat>, l: nat): (m: nat)
    ensures m <= l && (m == 0 || Count(lens, m) != 0)
    ensures forall k | m < k <= l :: Count(lens, k) == 0
  {
    if l == 0 || Count(lens, l) != 0 then l else Longest(lens, l - 1)
  }

  /** The least code length in use from l on, or MAX_BITS + 1. */
  function Shortest(lens: seq<nat>, l: nat): (m: nat)
    requires l <= MAX_BITS + 1
    ensures l <= m <= MAX_BITS + 1 && (m == MAX_BITS + 1 || Count(lens, m) != 0)
    ensures forall k | l <= k < m :: Count(lens, k) == 0
    decreases MAX_BITS + 1 - l
  {
    if l == MAX_BITS + 1 || Count(lens, l) != 0 then l else Shortest(lens, l + 1)
  }

  function MaxLength(lens: seq<nat>): nat { Longest(lens, MAX_BITS) }
  function MinLength(lens: seq<nat>): nat { Shortest(lens, 1) }

  /** The number of root index bits: the request, forced between the code lengths in use. */
  function RootBits(lens: seq<nat>, bits: nat): nat {
    var root := if bits > MaxLength(lens) then MaxLength(lens) else bits;
    if MaxLength(lens) == 0 then 1 else if root < MinLength(lens) then MinLength(lens) else root
  }

  method LengthRange(lens: seq<nat>, count: array<nat>) returns (min: nat, max: nat)
    requires count.Length == MAX_BITS + 1
    requires forall l: nat | l <= MAX_BITS :: count[l] == Count(lens, l)
    ensures max == MaxLength(lens)
    ensures max > 0 ==> min == MinLength(lens) <= max
  {
    hide Count;
    max := MAX_BITS;
    while max >= 1 && count[max] == 0
      invariant max <= MAX_BITS
      invariant Longest(lens, max) == MaxLength(lens)
    {
      max := max - 1;
    }
    min := 1;
    if max == 0 {
      return;
    }
    while count[min] == 0
      invariant 1 <= min <= max
      invariant Shortest(lens, min) == MinLength(lens)
      decreases max - min
    {
      min := min + 1;
    }
  }

  /** The over-subscription check: left is the number of unused fifteen-bit strings. */
  method Unused(lens: seq<nat>, count: array<nat>) returns (left: int)
    requires count.Length == MAX_BITS + 1
    requires forall l: nat | l <= MAX_BITS :: count[l] == Count(lens, l)
    ensures left < 0 <==> Kraft(lens) > FULL
    ensures left >= 0 ==> left == FULL - Kraft(lens)
  {
    left := 1;
    var len: nat := 1;
    Pow2Values();
    while len <= MAX_BITS
      invariant 1 <= len <= MAX_BITS + 1
      invariant left >= 0
      invariant ScaledInt(left, len - 1) == FULL - First(lens, len)
    {
      UnusedStep(lens, len, left);
      left := 2 * left;
      left := left - count[len];
      assert ScaledInt(left, len) == FULL - First(lens, len + 1);
      if left < 0 {
        MulMono(left, -1, Unit(len));
        FirstMono(lens, len + 1, MAX_BITS + 1);
        return;
      }
      len := len + 1;
    }
  }

  function ScaledInt(c: int, l: nat): int { c * Unit(l) }

  lemma UnusedStep(lens: seq<nat>, len: nat, left: int)
    requires 1 <= len <= MAX_BITS && ScaledInt(left, len - 1) == FULL - First(lens, len)
    ensures ScaledInt(2 * left - Count(lens, len), len) == FULL - First(lens, len + 1)
  {
    ScaledIntHalf(left, Count(lens, len), len);
  }

  lemma ScaledIntHalf(left: int, c: nat, l: nat)
    requires 1 <= l <= MAX_BITS
    ensures ScaledInt(2 * left - c, l) == ScaledInt(left, l - 1) - Scaled(c, l)
  {
    assert Unit(l - 1) == 2 * Unit(l);
    MulSub(2 * left, c, Unit(l));
    MulAssoc(left, 2, Unit(l));
  }

  // ---- sorting by length, then by symbol

  /** The number of symbols with a code shorter than l. */
  function Offset(lens: seq<nat>, l: nat): nat {
    if l <= 1 then 0 else Offset(lens, l - 1) + Count(lens, l - 1)
  }

  lemma OffsetFirst(lens: seq<nat>)
    ensures Offset(lens, 1) == 0
  {
  }

  lemma OffsetNext(lens: seq<nat>, l: nat)
    requires 1 <= l
    ensures Offset(lens, l + 1) == Offset(lens, l) + Count(lens, l)
  {
  }

  lemma {:induction false} OffsetMono(lens: seq<nat>, i: nat, j: nat)
    requires i <= j
    ensures Offset(lens, i) <= Offset(lens, j)
  {
    if i < j {
      OffsetMono(lens, i, j - 1);
    }
  }

  lemma {:induction false} OffsetStep(lens: seq<nat>, l: nat)
    requires |lens| > 0
    ensures Offset(lens, l) == Offset(lens[..|lens| - 1], l) + (if 1 <= lens[|lens| - 1] < l then 1 else 0)
  {
    if l > 1 {
      OffsetStep(lens, l - 1);
    }
  }

  lemma {:induction false} OffsetBound(lens: seq<nat>, l: nat)
    ensures Offset(lens, l) <= |lens|
  {
    if |lens| == 0 {
      OffsetEmpty(l);
      assert lens == [];
    } else {
      OffsetBound(lens[..|lens| - 1], l);
      OffsetStep(lens, l);
    }
  }

  lemma {:induction false} OffsetEmpty(l: nat)
    ensures Offset([], l) == 0
  {
    if l > 1 {
      OffsetEmpty(l - 1);
    }
  }

  /** Distinct ranks of the sorted order are distinct places, and all of them exist. */
  lemma Rank(lens: seq<nat>, l: nat, i: nat)
    requires 1 <= l && i < Count(lens, l)
    ensures Offset(lens, l) + i < Offset(lens, l + 1) <= |lens|
  {
    OffsetBound(lens, l + 1);
  }

  lemma RankDistinct(lens: seq<nat>, l: nat, i: nat, l': nat, i': nat)
    requires 1 <= l && 1 <= l' && i < Count(lens, l) && i' < Count(lens, l')
    requires Offset(lens, l) + i == Offset(lens, l') + i'
    ensures l == l' && i == i'
  {
    if l < l' {
      OffsetMono(lens, l + 1, l');
    } else if l' < l {
      OffsetMono(lens, l' + 1, l);
    }
  }

  ghost predicate Sorted(lens: seq<nat>, work: seq<nat>) {
    forall l: nat, i: nat | 1 <= l <= MAX_BITS && i < Count(lens, l) ::
      Offset(lens, l) + i < |work| && work[Offset(lens, l) + i] == Nth(lens, l, i)
  }

  /** The part of the sorted order that holds symbols below s. */
  ghost predicate SortedBelow(lens: seq<nat>, work: seq<nat>, s: nat)
    requires s <= |lens| <= |work|
  {
    forall l: nat, i: nat | 1 <= l <= MAX_BITS && i < Count(lens, l) ::
      Nth(lens, l, i) < s ==> Offset(lens, l) + i < |work| && work[Offset(lens, l) + i] == Nth(lens, l, i)
  }

  lemma SortedStep(lens: seq<nat>, work: seq<nat>, s: nat, at: nat, work': seq<nat>)
    requires ValidLens(lens) && s < |lens| <= |work| && SortedBelow(lens, work, s)
    requires lens[s] != 0 ==> at == Offset(lens, lens[s]) + Count(lens[..s], lens[s]) && at < |work| && work' == work[at := s]
    requires lens[s] == 0 ==> work' == work
    ensures SortedBelow(lens, work', s + 1)
  {
    hide Offset, Count, Nth;
    forall l: nat, i: nat | 1 <= l <= MAX_BITS && i < Count(lens, l) && Nth(lens, l, i) < s + 1
      ensures Offset(lens, l) + i < |work'| && work'[Offset(lens, l) + i] == Nth(lens, l, i)
    {
      Rank(lens, l, i);
      if lens[s] != 0 {
        NthUnique(lens, lens[s], Count(lens[..s], lens[s]), s);
        if Offset(lens, l) + i == at {
          RankDistinct(lens, l, i, lens[s], Count(lens[..s], lens[s]));
        }
      }
    }
  }

  method Offsets(lens: seq<nat>, count: array<nat>) returns (offs: array<nat>)
    requires count.Length == MAX_BITS + 1
    requires forall l: nat | l <= MAX_BITS :: count[l] == Count(lens, l)
    ensures fresh(offs) && offs.Length == MAX_BITS + 1
    ensures forall l: nat | 1 <= l <= MAX_BITS :: offs[l] == Offset(lens, l)
  {
    hide Offset, Count;
    offs := new nat[MAX_BITS + 1](_ => 0);
    var len: nat := 1;
    OffsetFirst(lens);
    while len < MAX_BITS
      invariant 1 <= len <= MAX_BITS
      invariant forall l: nat | 1 <= l <= len :: offs[l] == Offset(lens, l)
    {
      OffsetNext(lens, len);
      offs[len + 1] := offs[len] + count[len];
      len := len + 1;
    }
  }

  method SortSymbols(lens: seq<nat>, count: array<nat>, work: array<nat>)
    requires ValidLens(lens) && count.Length == MAX_BITS + 1 && work.Length >= |lens| && work != count
    requires forall l: nat | l <= MAX_BITS :: count[l] == Count(lens, l)
    modifies work
    ensures Sorted(lens, work[..])
  {
    hide SortedBelow, Offset, Count;
    var offs := Offsets(lens, count);
    SortedNone(lens, work[..]);
    var sym: nat := 0;
    while sym < |lens|
      invariant 0 <= sym <= |lens|
      invariant forall l: nat | 1 <= l <= MAX_BITS :: offs[l] == Offset(lens, l) + Count(lens[..sym], l)
      invariant SortedBelow(lens, work[..], sym)
    {
      ghost var before := work[..];
      var l := lens[sym];
      if l != 0 {
        SortedPlace(lens, sym);
        work[offs[l]] := sym;
        SortedStep(lens, before, sym, offs[l], work[..]);
        offs[l] := offs[l] + 1;
      } else {
        SortedStep(lens, before, sym, 0, work[..]);
      }
      CountSteps(lens, sym);
      sym := sym + 1;
    }
    SortedAll(lens, work[..]);
  }

  lemma SortedNone(lens: seq<nat>, work: seq<nat>)
    requires |lens| <= |work|
    ensures SortedBelow(lens, work, 0)
  {
  }

  lemma SortedAll(lens: seq<nat>, work: seq<nat>)
    requires |lens| <= |work| && SortedBelow(lens, work, |lens|)
    ensures Sorted(lens, work)
  {
  }

  lemma SortedPlace(lens: seq<nat>, sym: nat)
    requires sym < |lens| && 1 <= lens[sym] <= MAX_BITS
    ensures Offset(lens, lens[sym]) + Count(lens[..sym], lens[sym]) < |lens|
  {
    CountAll(lens, sym, lens[sym]);
    Rank(lens, lens[sym], Count(lens[..sym], lens[sym]));
  }

  // ---- stepping to the next code: incrementing a bit-reversed number

  lemma {:induction false} RevOnes(k: nat)
    ensures Rev(Pow2(k) - 1, k) == Pow2(k) - 1
  {
    if k != 0 {
      RevOnes(k - 1);
      assert (Pow2(k) - 1) / 2 == Pow2(k - 1) - 1;
    }
  }

  lemma RevOne(n: nat)
    requires n >= 1
    ensures Rev(1, n) == Pow2(n - 1)
  {
    RevZero(n - 1);
  }

  lemma RevTwiceOnes(k: nat, n: nat)
    ensures Rev(2 * (Pow2(k) - 1), k + n + 1) == Pow2(k + n) - Pow2(n)
  {
    var ones := Pow2(k) - 1;
    assert Rev(2 * ones, k + n + 1) == Rev(ones, k + n);
    RevShift(ones, k, n);
    RevOnes(k);
    MulSub(Pow2(k), 1, Pow2(n));
    Pow2Add(k, n);
  }

  /** Two numbers that agree below bit p differ, reversed, by the reversals of what is above. */
  lemma RevOverSplit(lo: nat, p: nat, y: nat, z: nat, n: nat)
    requires lo < Pow2(p)
    ensures Rev(lo + z * Pow2(p), p + n) - Rev(lo + y * Pow2(p), p + n) == Rev(z, n) - Rev(y, n)
  {
    RevAppend(lo, p, y, n);
    RevAppend(lo, p, z, n);
  }

  /** The carry runs over a block of k ones above bit p, which is clear. */
  lemma CarryStop(huff: nat, p: nat, k: nat, n: nat, w: nat, z: nat, lo: nat, y: nat)
    requires lo < Pow2(p) && w == k + n + 1 && z == p + w
    requires y == 2 * (Pow2(k) - 1) && huff == lo + y * Pow2(p)
    ensures Rev(lo + Pow2(p), z) == Rev(huff, z) + Pow2(n)
  {
    hide Rev;
    RevTwiceOnes(k, n);
    RevOne(w);
    RevOverSplit(lo, p, y, 1, w);
    assert 1 * Pow2(p) == Pow2(p);
  }

  lemma StopAt(huff: nat, len: nat, p: nat)
    requires p < len <= MAX_BITS
    requires High(huff, p + 1) == Pow2(len - 1 - p) - 1 && High(huff, p) % 2 == 0
    ensures Mirror(Low(huff, p) + Pow2(p)) == Mirror(huff) + Unit(len)
    ensures Low(huff, p) + Pow2(p) < Pow2(len)
  {
    hide Low, High, Rev, Pow2;
    LowHigh(huff, p);
    LowTwice(huff, p);
    CarryStop(huff, p, len - 1 - p, MAX_BITS - len, MAX_BITS - p, MAX_BITS, Low(huff, p), High(huff, p));
    LowBelow(huff, p, len);
  }

  lemma LowBelow(huff: nat, p: nat, len: nat)
    requires p < len
    ensures Low(huff, p) + Pow2(p) < Pow2(len)
  {
    Pow2Mono(p + 1, len);
  }

  lemma CarryOut(huff: nat, len: nat)
    requires len <= MAX_BITS && huff == Pow2(len) - 1
    ensures Mirror(huff) + Unit(len) == FULL
  {
    hide Mirror, Rev, Scaled;
    MirrorShort(huff, len);
    RevOnes(len);
    ScaledFull(len);
    ScaledAdd(huff, 1, len);
  }

  /** Backwards increment of the len-bit code huff: the next code of that length, in stream order. */
  method NextHuff(huff: nat, len: nat) returns (next: nat)
    requires 1 <= len <= MAX_BITS && huff < Pow2(len)
    ensures next < Pow2(len)
    ensures Mirror(huff) + Unit(len) <= FULL
    ensures Mirror(huff) + Unit(len) < FULL ==> Mirror(next) == Mirror(huff) + Unit(len)
    ensures Mirror(huff) + Unit(len) == FULL ==> next == 0
  {
    var incr, p := FindCarry(huff, len);
    hide Mirror, Unit, Pow2;
    if incr != 0 {
      BitSetHigh(huff, p);
      StopAt(huff, len, p);
      next := ClearAndSet(huff, incr);
    } else {
      next := 0;
      CarryOut(huff, len);
    }
  }

  /** The highest clear bit of huff below bit len, if there is one. */
  method FindCarry(huff: nat, len: nat) returns (incr: nat, ghost p: int)
    requires 1 <= len <= MAX_BITS && huff < Pow2(len)
    ensures -1 <= p < len
    ensures incr == 0 <==> p == -1
    ensures p >= 0 ==> incr == Pow2(p) && High(huff, p) % 2 == 0 && High(huff, p + 1) == Pow2(len - 1 - p) - 1
    ensures p == -1 ==> huff == Pow2(len) - 1
  {
    hide Low, High, BitSet, Pow2;
    incr := Pow2(len - 1);
    p := len - 1;
    LowHighUnique(huff, len, 0, huff);
    Pow2Zero();
    while incr != 0 && BitSet(huff, incr)
      invariant -1 <= p < len
      invariant incr == if p >= 0 then Pow2(p) else 0
      invariant High(huff, p + 1) == Pow2(len - 1 - p) - 1
      decreases incr
    {
      CarryStep(huff, p, len - 1 - p);
      incr := incr / 2;
      p := p - 1;
    }
    if p >= 0 {
      BitSetHigh(huff, p);
    } else {
      LowHigh(huff, 0);
    }
  }

  lemma Pow2Zero()
    ensures Pow2(0) == 1
  {
  }

  lemma CarryStep(huff: nat, p: nat, k: nat)
    requires BitSet(huff, Pow2(p)) && High(huff, p + 1) == Pow2(k) - 1
    ensures High(huff, p) == Pow2(k + 1) - 1
    ensures Pow2(p) / 2 == if p > 0 then Pow2(p - 1) else 0
  {
    LowTwice(huff, p);
    BitSetHigh(huff, p);
  }

  /** huff & incr, for incr a power of two. */
  predicate BitSet(huff: nat, incr: nat)
    requires incr > 0
  {
    huff / incr % 2 == 1
  }

  /** huff &= incr - 1, huff += incr. */
  function ClearAndSet(huff: nat, incr: nat): nat
    requires incr > 0
  {
    huff % incr + incr
  }

  lemma BitSetHigh(huff: nat, p: nat)
    ensures BitSet(huff, Pow2(p)) <==> High(huff, p) % 2 == 1
    ensures ClearAndSet(huff, Pow2(p)) == Low(huff, p) + Pow2(p)
  {
  }

  // ---- filling a table

  /** t' is t with e in every place of the table [next, next + 2^curr) whose index ends in the m bits h. */
  ghost predicate Filled(t: seq<Entry>, t': seq<Entry>, next: nat, curr: nat, m: nat, h: nat, e: Entry) {
    |t'| == |t| && forall i: nat | i < |t| ::
      t'[i] == if next <= i < next + Pow2(curr) && Low(i - next, m) == h then e else t[i]
  }

  lemma ModBlock(y: int, d: int, g: int)
    requires d > 0 && g * d <= y < g * d + d
    ensures y % d == y - g * d
  {
    DivMod(y, d, g, y - g * d);
  }

  method Fill(table: array<Entry>, start: nat, next: nat, curr: nat, m: nat, h: nat, e: Entry)
    requires m <= curr && h < Pow2(m) && start + next + Pow2(curr) <= table.Length
    modifies table
    ensures table[..start] == old(table[..start])
    ensures Filled(old(table[start..]), table[start..], next, curr, m, h, e)
  {
    ghost var t := table[..];
    ghost var at := start + next;
    var incr := Pow2(m);
    var fill: int := Pow2(curr);
    ghost var g: int := Pow2(curr - m);
    Pow2Add(curr - m, m);
    while fill != 0
      invariant 0 <= g && fill == g * incr && 0 <= fill <= Pow2(curr)
      invariant forall i | 0 <= i < table.Length ::
        table[i] == if at + fill <= i < at + Pow2(curr) && (i - at) % incr == h then e else t[i]
      decreases fill
    {
      assert g >= 1;
      MulSub(g, 1, incr);
      MulMono(0, g - 1, incr);
      fill := fill - incr;
      g := g - 1;
      forall y: int | fill <= y < fill + incr
        ensures y % incr == y - fill
      {
        ModBlock(y, incr, g);
      }
      table[start + next + h + fill] := e;
    }
  }

  /** Index bits of a window: the low a + b bits are the low a bits with b more above them. */
  lemma LowSplit(x: nat, a: nat, b: nat)
    ensures Low(x, a + b) == Low(High(x, a), b) * Pow2(a) + Low(x, a)
    ensures Low(Low(x, a + b), a) == Low(x, a) && High(Low(x, a + b), a) == Low(High(x, a), b)
  {
    LowHigh(x, a);
    LowHigh(High(x, a), b);
    var q, r, k := High(High(x, a), b), Low(High(x, a), b), Low(x, a);
    MulAdd(q * Pow2(b), r, Pow2(a));
    MulAssoc(q, Pow2(b), Pow2(a));
    Pow2Add(b, a);
    MulMono(r + 1, Pow2(b), Pow2(a));
    MulAdd(r, 1, Pow2(a));
    LowHighUnique(x, a + b, q, r * Pow2(a) + k);
    LowHighUnique(r * Pow2(a) + k, a, r, k);
  }

  lemma LowLow(x: nat, a: nat, b: nat)
    requires a <= b
    ensures Low(Low(x, b), a) == Low(x, a)
  {
    LowSplit(x, a, b - a);
  }

  /** A window starts with the len bits of huff when its root index and its sub-table index both do. */
  lemma SplitIndex(x: nat, huff: nat, root: nat, len: nat, m: nat)
    requires len == root + m && huff < Pow2(len)
    ensures Low(x, len) == huff <==> Low(x, root) == Low(huff, root) && Low(High(x, root), m) == High(huff, root)
    ensures High(huff, root) < Pow2(m)
  {
    LowSplit(x, root, m);
    LowSplit(huff, root, m);
    LowHighUnique(huff, len, 0, huff);
    LowHigh(huff, root);
  }

  // ---- progress of the main loop: every window below P, read reversed, is done

  /** Windows below P outside the root slot low are placed, in sub-tables that end by hi. */
  ghost predicate Done(t: seq<Entry>, root: nat, kind: Kind, lens: seq<nat>, P: nat, hi: nat, low: int)
    requires |lens| <= MaxSymbols(kind)
  {
    hi <= |t| && forall n: nat, x: nat ::
      x < FULL && Covers(lens, n, Mirror(x)) && Mirror(x) < P && Low(x, root) != low
      ==> Placed(t, root, kind, lens, n, x, hi)
  }

  /** Windows below P inside the root slot low are placed in the sub-table at next. */
  ghost predicate Current(t: seq<Entry>, root: nat, kind: Kind, lens: seq<nat>, P: nat, next: nat, curr: nat, low: nat)
    requires |lens| <= MaxSymbols(kind)
  {
    && 1 <= curr && root + curr <= MAX_BITS && low < Pow2(root) <= next && next + Pow2(curr) <= |t|
    && t[low] == Entry(curr, root, next)
    && forall n: nat, x: nat ::
      x < FULL && Covers(lens, n, Mirror(x)) && Mirror(x) < P && Low(x, root) == low
      ==> root < lens[n] && t[next + Low(High(x, root), curr)] == SymbolEntry(kind, n, lens[n] - root)
  }

  /** What the main loop knows of the code being entered: symbol i of length len, stored as huff. */
  ghost predicate AtCode(lens: seq<nat>, len: nat, i: nat, huff: nat, P: nat) {
    && 1 <= len <= MAX_BITS && i < Count(lens, len)
    && huff < Pow2(len)
    && P == First(lens, len) + Scaled(i, len) == Mirror(huff)
  }

  lemma AtCodeCovers(lens: seq<nat>, len: nat, i: nat, huff: nat, P: nat, x: nat)
    requires AtCode(lens, len, i, huff, P) && x < FULL
    ensures Low(x, len) == huff <==> P <= Mirror(x) < P + Unit(len)
    ensures Low(x, len) == huff ==> Covers(lens, Nth(lens, len, i), Mirror(x))
  {
    hide Low, Mirror, Scaled;
    StartsWith(x, huff, len);
  }

  lemma FillRoot(t: seq<Entry>, t': seq<Entry>, root: nat, kind: Kind, lens: seq<nat>,
                 len: nat, i: nat, huff: nat, P: nat)
    requires |lens| <= MaxSymbols(kind) && AtCode(lens, len, i, huff, P)
    requires len <= root && Pow2(root) <= |t|
    requires Done(t, root, kind, lens, P, 0, -1)
    requires Filled(t, t', 0, root, len, huff, SymbolEntry(kind, Nth(lens, len, i), len))
    ensures Done(t', root, kind, lens, P + Unit(len), 0, -1)
  {
    hide Low, High, Mirror, Scaled, Unit, Covers, SymbolEntry;
    forall n: nat, x: nat | x < FULL && Covers(lens, n, Mirror(x)) && Mirror(x) < P + Unit(len) && Low(x, root) != -1
      ensures Placed(t', root, kind, lens, n, x, 0)
    {
      AtCodeCovers(lens, len, i, huff, P, x);
      LowLow(x, len, root);
      if Mirror(x) < P {
        LengthBelow(lens, n, Mirror(x), len, i);
        assert Placed(t, root, kind, lens, n, x, 0);
      } else {
        CoversUnique(lens, n, Nth(lens, len, i), Mirror(x));
      }
    }
  }

  /** A symbol whose interval reaches below the current code is no longer than it. */
  lemma LengthBelow(lens: seq<nat>, n: nat, v: nat, len: nat, i: nat)
    requires Covers(lens, n, v) && v < First(lens, len) + Scaled(i, len)
    requires i <= Count(lens, len) && 1 <= len
    ensures lens[n] <= len
  {
    hide Scaled, Unit;
    IntervalInside(lens, n);
    if len < lens[n] {
      FirstMono(lens, len + 1, lens[n]);
      ScaledMono(i, Count(lens, len), len);
    }
  }

  lemma FillSub(t: seq<Entry>, t': seq<Entry>, root: nat, kind: Kind, lens: seq<nat>,
                len: nat, i: nat, huff: nat, P: nat, next: nat, curr: nat, low: nat)
    requires |lens| <= MaxSymbols(kind) && AtCode(lens, len, i, huff, P)
    requires root < len <= root + curr && low == Low(huff, root)
    requires Done(t, root, kind, lens, P, next, low) && Current(t, root, kind, lens, P, next, curr, low)
    requires Filled(t, t', next, curr, len - root, High(huff, root), SymbolEntry(kind, Nth(lens, len, i), len - root))
    ensures Done(t', root, kind, lens, P + Unit(len), next, low)
    ensures Current(t', root, kind, lens, P + Unit(len), next, curr, low)
  {
    hide Low, High, Mirror, Scaled, Unit, Covers, SymbolEntry;
    var e := SymbolEntry(kind, Nth(lens, len, i), len - root);
    forall n: nat, x: nat | x < FULL && Covers(lens, n, Mirror(x)) && Mirror(x) < P + Unit(len) && Low(x, root) != low
      ensures Placed(t', root, kind, lens, n, x, next)
    {
      FillElsewhere(lens, len, i, huff, P, root, x);
      PlacedKept(t, t', root, kind, lens, n, x, next);
    }
    forall n: nat, x: nat | x < FULL && Covers(lens, n, Mirror(x)) && Mirror(x) < P + Unit(len) && Low(x, root) == low
      ensures root < lens[n] && t'[next + Low(High(x, root), curr)] == SymbolEntry(kind, n, lens[n] - root)
    {
      FillHere(lens, len, i, huff, P, root, curr, n, x);
      FillPlace(t, t', next, curr, len - root, High(huff, root), e, Low(High(x, root), curr));
    }
  }

  /** Windows of the interval being entered lie in its root slot. */
  lemma FillElsewhere(lens: seq<nat>, len: nat, i: nat, huff: nat, P: nat, root: nat, x: nat)
    requires AtCode(lens, len, i, huff, P) && root <= len && x < FULL
    requires Low(x, root) != Low(huff, root) && Mirror(x) < P + Unit(len)
    ensures Mirror(x) < P
  {
    hide Low, High, Mirror, Scaled;
    AtCodeCovers(lens, len, i, huff, P, x);
    SplitIndex(x, huff, root, len, len - root);
  }

  /** Inside the root slot, the places being filled are those of the windows of the interval. */
  lemma FillHere(lens: seq<nat>, len: nat, i: nat, huff: nat, P: nat, root: nat, curr: nat, n: nat, x: nat)
    requires AtCode(lens, len, i, huff, P) && root <= len <= root + curr && x < FULL
    requires Covers(lens, n, Mirror(x))
    requires Low(x, root) == Low(huff, root) && Mirror(x) < P + Unit(len)
    ensures Low(Low(High(x, root), curr), len - root) == High(huff, root) <==> P <= Mirror(x)
    ensures P <= Mirror(x) ==> n == Nth(lens, len, i)
  {
    hide Low, High, Mirror, Scaled;
    AtCodeCovers(lens, len, i, huff, P, x);
    SplitIndex(x, huff, root, len, len - root);
    LowLow(High(x, root), len - root, curr);
    if P <= Mirror(x) {
      CoversUnique(lens, n, Nth(lens, len, i), Mirror(x));
    }
  }

  lemma FillPlace(t: seq<Entry>, t': seq<Entry>, next: nat, curr: nat, m: nat, h: nat, e: Entry, y: nat)
    requires Filled(t, t', next, curr, m, h, e) && y < Pow2(curr) && next + Pow2(curr) <= |t|
    ensures t'[next + y] == if Low(y, m) == h then e else t[next + y]
  {
    var i := next + y;
    assert Low(i - next, m) == Low(y, m);
  }

  lemma PlacedKept(t: seq<Entry>, t': seq<Entry>, root: nat, kind: Kind, lens: seq<nat>, n: nat, x: nat, hi: nat)
    requires n < |lens| <= MaxSymbols(kind) && |t'| == |t| && Pow2(root) <= hi
    requires Placed(t, root, kind, lens, n, x, hi)
    requires forall i: nat | i < hi :: t'[i] == t[i]
    ensures Placed(t', root, kind, lens, n, x, hi)
  {
    hide Low, High, SymbolEntry, Pow2;
  }

  // ---- the space used by sub-tables

  /** Room enough for the root table and its sub-tables. A sub-table whose codes all have one length
      has no more places than symbols; at most one sub-table ends with each length above root + 1. */
  function Space(n: nat, root: nat, max: nat): nat {
    Pow2(root) + if max > root then n + Pow2(max - root + 1) else 0
  }

  /** The sub-table of root slot low was opened at symbol i0 of length len0 with curr index bits. */
  ghost predicate Slot(lens: seq<nat>, root: nat, max: nat, low: nat, curr: nat, used: nat, len0: nat, i0: nat) {
    && root < len0 <= root + curr <= max <= MAX_BITS
    && low < Pow2(root)
    && i0 < Count(lens, len0)
    && Mirror(low) == First(lens, len0) + Scaled(i0, len0)
    && used + 4 <= Pow2(root) + Offset(lens, len0) + i0 + Pow2(len0 - root + 1) + Pow2(curr)
    && (len0 == root + curr ==> i0 + Pow2(curr) <= Count(lens, len0))
    && (len0 < root + curr ==> First(lens, root + curr) < Mirror(low) + Unit(root))
    && (root + curr < max ==> First(lens, root + curr + 1) >= Mirror(low) + Unit(root))
  }

  lemma SlotSpace(lens: seq<nat>, root: nat, max: nat, low: nat, curr: nat, used: nat, len0: nat, i0: nat)
    requires Slot(lens, root, max, low, curr, used, len0, i0)
    ensures used < Space(|lens|, root, max)
  {
    hide Mirror, Low, High, Scaled, Unit, First, Count;
    Rank(lens, len0, i0);
    if len0 == root + curr {
      OffsetBound(lens, len0 + 1);
      Pow2Mono(len0 - root + 1, max - root + 1);
    } else {
      Pow2Mono(len0 - root + 1, curr);
      Pow2Mono(curr + 1, max - root + 1);
    }
  }

  /** A slot of the root table, counted in codes of length l. */
  lemma SlotWidth(root: nat, l: nat)
    requires root <= l <= MAX_BITS
    ensures Scaled(Pow2(l - root), l) == Unit(root)
  {
    Pow2Add(l - root, MAX_BITS - l);
  }

  lemma ScaledInjective(a: nat, b: nat, l: nat)
    requires Scaled(a, l) <= Scaled(b, l)
    ensures a <= b
  {
    if b < a {
      ScaledMono(b + 1, a, l);
      ScaledAdd(b, 1, l);
    }
  }

  /** The space accounting carries over to the first code beyond the slot. */
  lemma NextSlot(lens: seq<nat>, root: nat, max: nat, low: nat, curr: nat, used: nat, len0: nat, i0: nat,
                 len: nat, i: nat, huff: nat, P: nat)
    requires Slot(lens, root, max, low, curr, used, len0, i0) && AtCode(lens, len, i, huff, P)
    requires 1 <= root && len0 <= len && P == Mirror(low) + Unit(root)
    ensures used + 4 <= Pow2(root) + Offset(lens, len) + i + Pow2(len - root + 1)
  {
    hide Mirror, Low, High, Scaled, Unit, Offset, First, Count;
    if len0 == root + curr {
      NextSlotUniform(lens, root, low, curr, len0, i0, len, i);
      Pow2Mono(len0 - root + 1, len - root + 1);
    } else {
      NextSlotMixed(lens, root + curr, Mirror(low) + Unit(root), len, i);
      OffsetAt(lens, len0, i0, len, i);
      Pow2Mono(len0 - root + 1, curr);
      Pow2Mono(curr + 1, len - root + 1);
    }
  }

  lemma NextSlotUniform(lens: seq<nat>, root: nat, low: nat, curr: nat, len0: nat, i0: nat, len: nat, i: nat)
    requires 1 <= root < len0 <= len <= MAX_BITS && len0 == root + curr
    requires i0 + Pow2(curr) <= Count(lens, len0)
    requires Mirror(low) == First(lens, len0) + Scaled(i0, len0)
    requires First(lens, len) + Scaled(i, len) == Mirror(low) + Unit(root)
    ensures Offset(lens, len0) + i0 + Pow2(curr) <= Offset(lens, len) + i
  {
    hide Mirror, Scaled, Unit, First, Count;
    if len == len0 {
      SlotWidth(root, len);
      ScaledAdd(i0, Pow2(curr), len);
      ScaledInjective(i0 + Pow2(curr), i, len);
    } else {
      OffsetMono(lens, len0 + 1, len);
    }
  }

  /** The first code at or after end is at least as long as any length whose codes start below end. */
  lemma NextSlotMixed(lens: seq<nat>, l: nat, end: nat, len: nat, i: nat)
    requires First(lens, l) < end <= First(lens, len) + Scaled(i, len)
    requires 1 <= len && i < Count(lens, len)
    ensures l <= len
  {
    hide Scaled, Unit;
    if len < l {
      FirstMono(lens, len + 1, l);
      ScaledMono(i, Count(lens, len), len);
    }
  }

  lemma OffsetAt(lens: seq<nat>, len0: nat, i0: nat, len: nat, i: nat)
    requires 1 <= len0 < len && i0 < Count(lens, len0)
    ensures Offset(lens, len0) + i0 <= Offset(lens, len) + i
  {
    OffsetMono(lens, len0 + 1, len);
  }

  /** Codes inside the slot fit the index of its sub-table. */
  lemma InSlot(lens: seq<nat>, root: nat, max: nat, low: nat, curr: nat, used: nat, len0: nat, i0: nat,
               len: nat, i: nat, huff: nat, P: nat)
    requires Slot(lens, root, max, low, curr, used, len0, i0) && AtCode(lens, len, i, huff, P)
    requires len <= max && P < Mirror(low) + Unit(root)
    ensures len <= root + curr
  {
    if root + curr < len {
      FirstMono(lens, root + curr + 1, len);
    }
  }

  /** One step of the look-ahead: left counts the free strings of length l up to the slot end. */
  lemma SubTableStep(lens: seq<nat>, l: nat, c: nat, from: nat, left: int, end: nat)
    requires 1 <= l <= MAX_BITS && First(lens, l + 1) == from + Scaled(c, l)
    requires ScaledInt(left, l) == end - from
    ensures left - c <= 0 <==> end <= First(lens, l + 1)
    ensures l < MAX_BITS ==> ScaledInt(2 * (left - c), l + 1) == end - First(lens, l + 1)
  {
    MulSub(left, c, Unit(l));
    if left - c <= 0 {
      MulMono(left - c, 0, Unit(l));
    } else {
      MulMono(1, left - c, Unit(l));
    }
    if l < MAX_BITS {
      ScaledIntHalf(left - c, 0, l + 1);
    }
  }

  lemma FirstRest(lens: seq<nat>, len: nat, i: nat)
    requires 1 <= len && i <= Count(lens, len)
    ensures First(lens, len + 1) == First(lens, len) + Scaled(i, len) + Scaled(Count(lens, len) - i, len)
  {
    ScaledAdd(i, Count(lens, len) - i, len);
  }

  lemma SlotEnd(root: nat, low: nat)
    requires root <= MAX_BITS && low < Pow2(root)
    ensures Mirror(low) + Unit(root) <= FULL
  {
    hide Rev, Mirror, Pow2, Low, High;
    MirrorShort(low, root);
    ScaledAdd(Rev(low, root), 1, root);
    ScaledMono(Rev(low, root) + 1, Pow2(root), root);
    ScaledFull(root);
  }

  lemma {:induction false} FirstBeyond(lens: seq<nat>, max: nat, l: nat)
    requires max < l <= MAX_BITS + 1
    requires forall k | max < k <= MAX_BITS :: Count(lens, k) == 0
    ensures First(lens, l) == First(lens, max + 1)
  {
    if max + 1 < l {
      FirstBeyond(lens, max, l - 1);
    }
  }

  /** When all codes left have the greatest length, they fill the slot. */
  lemma SlotFull(lens: seq<nat>, root: nat, len: nat, i: nat, low: nat)
    requires Kraft(lens) == FULL && root < len <= MAX_BITS && low < Pow2(root)
    requires forall l | len < l <= MAX_BITS :: Count(lens, l) == 0
    requires i < Count(lens, len) && Mirror(low) == First(lens, len) + Scaled(i, len)
    ensures i + Pow2(len - root) <= Count(lens, len)
  {
    hide Mirror, Scaled, Unit;
    SlotEnd(root, low);
    SlotWidth(root, len);
    FirstBeyond(lens, len, MAX_BITS + 1);
    FirstRest(lens, len, i);
    ScaledInjective(Pow2(len - root), Count(lens, len) - i, len);
  }

  /** How many index bits the sub-table opened at symbol i of length len needs. */
  method SubTableBits(lens: seq<nat>, count: array<nat>, len: nat, root: nat, max: nat,
                      ghost i: nat, ghost low: nat, ghost used: nat) returns (curr: nat)
    requires count.Length == MAX_BITS + 1 && Kraft(lens) == FULL
    requires root < len <= max <= MAX_BITS && low < Pow2(root)
    requires i < Count(lens, len) && Mirror(low) == First(lens, len) + Scaled(i, len)
    requires forall l | max < l <= MAX_BITS :: Count(lens, l) == 0
    requires count[len] == Count(lens, len) - i
    requires forall l: nat | len < l <= MAX_BITS :: count[l] == Count(lens, l)
    requires used + 4 <= Pow2(root) + Offset(lens, len) + i + Pow2(len - root + 1)
    ensures Slot(lens, root, max, low, curr, used + Pow2(curr), len, i)
  {
    hide Mirror, Scaled, ScaledInt, Unit, Offset, Count;
    ghost var end := Mirror(low) + Unit(root);
    curr := len - root;
    var left: int := Pow2(curr);
    SlotWidth(root, len);
    ScaledIntNat(Pow2(curr), len);
    FirstRest(lens, len, i);
    while curr + root < max
      invariant len <= root + curr <= max
      invariant left > 0
      invariant root + curr == len ==> left == Pow2(curr) && ScaledInt(left, len) == end - Mirror(low)
      invariant root + curr > len ==> ScaledInt(left, root + curr) == end - First(lens, root + curr)
      invariant root + curr > len ==> First(lens, root + curr) < end
    {
      ghost var from := if root + curr == len then Mirror(low) else First(lens, root + curr);
      SubTableStep(lens, curr + root, count[curr + root], from, left, end);
      left := left - count[curr + root];
      if left <= 0 {
        break;
      }
      curr := curr + 1;
      left := 2 * left;
    }
    if len == max {
      SlotFull(lens, root, len, i, low);
    }
  }

  lemma ScaledIntNat(c: nat, l: nat)
    ensures ScaledInt(c, l) == Scaled(c, l)
  {
  }

  // ---- the main loop

  /** The local variables of the main loop. drop is 0 while the root table is filled and root afterwards;
      low is -1 until the first sub-table is opened. */
  datatype Cursor = Cursor(sym: nat, len: nat, huff: nat, curr: nat, drop: nat, low: int, next: nat, used: nat)

  /** The cursor stands at a code: the work[sym] of length len, to be stored as huff. */
  ghost predicate AtSymbol(lens: seq<nat>, c: Cursor) {
    Offset(lens, c.len) <= c.sym && AtCode(lens, c.len, c.sym - Offset(lens, c.len), c.huff, Mirror(c.huff))
  }

  /** The table being filled is the root table, or the sub-table opened at symbol i0 of length len0. */
  ghost predicate AtTable(lens: seq<nat>, root: nat, max: nat, c: Cursor, len0: nat, i0: nat) {
    if c.low == -1 then c.drop == 0 && c.curr == root && c.next == 0 && c.used == Pow2(root)
    else
      && c.low >= 0 && c.drop == root && Pow2(root) <= c.next && c.used == c.next + Pow2(c.curr)
      && Slot(lens, root, max, c.low, c.curr, c.used, len0, i0)
  }

  /** The code at the cursor belongs to the table being filled. */
  ghost predicate InTable(root: nat, c: Cursor, len0: nat) {
    if c.low == -1 then c.len <= root
    else len0 <= c.len && root < c.len <= root + c.curr && c.low == Low(c.huff, root)
  }

  /** Every window below P is placed. */
  ghost predicate Entered(t: seq<Entry>, root: nat, kind: Kind, lens: seq<nat>, c: Cursor, P: nat)
    requires |lens| <= MaxSymbols(kind)
  {
    if c.low < 0 then Done(t, root, kind, lens, P, 0, -1)
    else Done(t, root, kind, lens, P, c.next, c.low) && Current(t, root, kind, lens, P, c.next, c.curr, c.low)
  }

  ghost predicate CountsLeft(lens: seq<nat>, count: seq<nat>, c: Cursor) {
    && |count| == MAX_BITS + 1 && c.len <= MAX_BITS && Offset(lens, c.len) <= c.sym
    && count[c.len] == Offset(lens, c.len + 1) - c.sym
    && forall l: nat | c.len < l <= MAX_BITS :: count[l] == Count(lens, l)
  }

  method EnterCode(kind: Kind, lens: seq<nat>, work: array<nat>, table: array<Entry>, start: nat, root: nat,
                   ghost max: nat, c: Cursor, ghost len0: nat, ghost i0: nat)
    requires ValidLens(lens) && |lens| <= MaxSymbols(kind) && Sorted(lens, work[..]) && 1 <= root <= MAX_BITS
    requires start + c.used <= table.Length
    requires AtSymbol(lens, c) && AtTable(lens, root, max, c, len0, i0) && InTable(root, c, len0)
    requires Entered(table[start..], root, kind, lens, c, Mirror(c.huff))
    modifies table
    ensures table[..start] == old(table[..start])
    ensures Entered(table[start..], root, kind, lens, c, Mirror(c.huff) + Unit(c.len))
  {
    hide Mirror, Scaled, Unit, Offset, First, Count, Low, High, SymbolEntry, Done, Current, Pow2, Rev;
    ghost var i := c.sym - Offset(lens, c.len);
    ghost var t := table[start..];
    SortedAt(lens, work[..], c.len, i, c.sym);
    var e := SymbolEntry(kind, work[c.sym], c.len - c.drop);
    EntryFits(c, root);
    Fill(table, start, c.next, c.curr, c.len - c.drop, High(c.huff, c.drop), e);
    if c.low == -1 {
      FillRoot(t, table[start..], root, kind, lens, c.len, i, c.huff, Mirror(c.huff));
    } else {
      FillSub(t, table[start..], root, kind, lens, c.len, i, c.huff, Mirror(c.huff), c.next, c.curr, c.low);
    }
  }

  lemma EntryFits(c: Cursor, root: nat)
    requires c.huff < Pow2(c.len) && c.drop <= c.len
    ensures High(c.huff, c.drop) < Pow2(c.len - c.drop)
    ensures High(c.huff, 0) == c.huff
  {
    SplitIndex(c.huff, c.huff, c.drop, c.len, c.len - c.drop);
    LowHigh(c.huff, 0);
  }

  lemma SortedAt(lens: seq<nat>, work: seq<nat>, l: nat, i: nat, k: nat)
    requires Sorted(lens, work) && 1 <= l <= MAX_BITS && i < Count(lens, l) && k == Offset(lens, l) + i
    ensures k < |work| && work[k] == Nth(lens, l, i)
  {
    hide Offset, Count, Nth;
    var n := Nth(lens, l, i);
    assert work[Offset(lens, l) + i] == n;
  }

  /** Codes of the lengths between len and the next length in use do not move the interval. */
  lemma {:induction false} SkipLengths(lens: seq<nat>, len: nat, max: nat) returns (next: nat)
    requires 1 <= len < max <= MAX_BITS && Count(lens, max) != 0
    ensures len < next <= max && Count(lens, next) != 0
    ensures Offset(lens, next) == Offset(lens, len + 1) && First(lens, next) == First(lens, len + 1)
    decreases max - len
  {
    if Count(lens, len + 1) != 0 {
      next := len + 1;
    } else {
      next := SkipLengths(lens, len + 1, max);
      ScaledAdd(0, 0, len + 1);
    }
  }

  /** The last code ends at the Kraft sum. */
  lemma LastCode(lens: seq<nat>, c: Cursor, max: nat)
    requires AtSymbol(lens, c) && c.len == max && c.sym + 1 == Offset(lens, max + 1)
    requires forall l | max < l <= MAX_BITS :: Count(lens, l) == 0
    ensures Mirror(c.huff) + Unit(c.len) == Kraft(lens)
  {
    hide Mirror, Unit, Scaled;
    FirstBeyond(lens, max, MAX_BITS + 1);
    ScaledAdd(c.sym - Offset(lens, c.len), 1, c.len);
  }

  /** The interval of the code at the cursor ends inside the Kraft sum. */
  lemma CodeEnd(lens: seq<nat>, c: Cursor)
    requires AtSymbol(lens, c)
    ensures Mirror(c.huff) + Unit(c.len) == First(lens, c.len) + Scaled(c.sym + 1 - Offset(lens, c.len), c.len)
    ensures Mirror(c.huff) + Unit(c.len) <= First(lens, c.len + 1) <= Kraft(lens)
    ensures Mirror(c.huff) < Kraft(lens)
  {
    hide Mirror, Scaled;
    ScaledAdd(c.sym - Offset(lens, c.len), 1, c.len);
    ScaledMono(c.sym + 1 - Offset(lens, c.len), Count(lens, c.len), c.len);
    FirstMono(lens, c.len + 1, MAX_BITS + 1);
  }

  lemma MirrorZero()
    ensures Mirror(0) == 0
  {
    RevZero(MAX_BITS);
  }

  /** Goes to the next symbol, or reports that the last one has been entered. */
  method Advance(lens: seq<nat>, work: array<nat>, count: array<nat>, max: nat, c: Cursor) returns (more: bool, next: Cursor)
    requires ValidLens(lens) && Sorted(lens, work[..]) && work != count && Kraft(lens) <= FULL
    requires AtSymbol(lens, c) && CountsLeft(lens, count[..], c) && c.len <= max <= MAX_BITS && Count(lens, max) != 0
    requires forall l | max < l <= MAX_BITS :: Count(lens, l) == 0
    modifies count
    ensures next.curr == c.curr && next.drop == c.drop && next.low == c.low && next.next == c.next && next.used == c.used
    ensures !more ==> Mirror(c.huff) + Unit(c.len) == Kraft(lens) && next.len == c.len == max
    ensures !more && Kraft(lens) == FULL ==> next.huff == 0
    ensures !more && Kraft(lens) < FULL ==> next.huff < Pow2(c.len) && Mirror(next.huff) == Kraft(lens) && next.huff != 0
    ensures more ==> AtSymbol(lens, next) && CountsLeft(lens, count[..], next) && c.len <= next.len <= max
    ensures more ==> Mirror(next.huff) == Mirror(c.huff) + Unit(c.len) && next.huff < Pow2(c.len)
    ensures more ==> next.sym == c.sym + 1 && Mirror(next.huff) <= First(lens, c.len + 1)
  {
    hide Mirror, Scaled, Unit, First, Count, Pow2, Rev, Sorted;
    var huff := NextHuff(c.huff, c.len);
    CodeEnd(lens, c);
    next := c.(sym := c.sym + 1, huff := huff);
    count[c.len] := count[c.len] - 1;
    more := true;
    if count[c.len] == 0 {
      if c.len == max {
        more := false;
        LastCode(lens, c, max);
        MirrorZero();
        return;
      }
      ghost var len := SkipLengths(lens, c.len, max);
      SortedAt(lens, work[..], len, 0, next.sym);
      next := next.(len := lens[work[next.sym]]);
      NextLength(lens, c, next);
    } else {
      SameLength(lens, c, next);
    }
  }

  lemma NextLength(lens: seq<nat>, c: Cursor, next: Cursor)
    requires AtSymbol(lens, c) && Kraft(lens) <= FULL && next.huff < Pow2(c.len)
    requires Mirror(c.huff) + Unit(c.len) < FULL ==> Mirror(next.huff) == Mirror(c.huff) + Unit(c.len)
    requires next.sym == c.sym + 1 == Offset(lens, c.len + 1) == Offset(lens, next.len)
    requires c.len < next.len <= MAX_BITS && Count(lens, next.len) != 0
    requires First(lens, next.len) == First(lens, c.len + 1)
    ensures AtSymbol(lens, next) && Mirror(next.huff) == Mirror(c.huff) + Unit(c.len)
  {
    hide Mirror, Scaled, Unit;
    CodeEnd(lens, c);
    Pow2Mono(c.len, next.len);
    ScaledAdd(0, 1, next.len);
    FirstMono(lens, next.len + 1, MAX_BITS + 1);
    ScaledMono(1, Count(lens, next.len), next.len);
  }

  lemma SameLength(lens: seq<nat>, c: Cursor, next: Cursor)
    requires AtSymbol(lens, c) && Kraft(lens) <= FULL && next.huff < Pow2(c.len)
    requires Mirror(c.huff) + Unit(c.len) < FULL ==> Mirror(next.huff) == Mirror(c.huff) + Unit(c.len)
    requires next.sym == c.sym + 1 < Offset(lens, c.len + 1) && next.len == c.len
    ensures AtSymbol(lens, next) && Mirror(next.huff) == Mirror(c.huff) + Unit(c.len)
  {
    hide Mirror, Scaled, Unit;
    CodeEnd(lens, c);
    var i := next.sym - Offset(lens, c.len);
    ScaledAdd(i, 1, c.len);
    ScaledMono(i + 1, Count(lens, c.len), c.len);
    FirstMono(lens, c.len + 1, MAX_BITS + 1);
  }

  // ---- opening a sub-table

  /** A code of length len ends inside its root slot. */
  lemma CodeInSlot(huff: nat, len: nat, root: nat, m: nat)
    requires huff < Pow2(len) && len == root + m <= MAX_BITS
    ensures Mirror(Low(huff, root)) <= Mirror(huff)
    ensures Mirror(huff) + Unit(len) <= Mirror(Low(huff, root)) + Unit(root)
  {
    hide Low, High, Rev, Mirror, Scaled;
    SplitAt(huff, root);
    MirrorShort(Low(huff, root), root);
    SplitIndex(huff, huff, root, len, m);
    var h := High(huff, root);
    RevShift(h, m, MAX_BITS - len);
    ScaledProduct(Rev(h, m), len);
    SlotWidth(root, len);
    ScaledAdd(Rev(h, m), 1, len);
    ScaledMono(Rev(h, m) + 1, Pow2(m), len);
  }

  lemma ScaledProduct(c: nat, l: nat)
    requires l <= MAX_BITS
    ensures c * Pow2(MAX_BITS - l) == Scaled(c, l)
  {
  }

  /** The first code of a new slot starts where the slot does. */
  lemma SlotBoundary(huff: nat, root: nat, low: nat)
    requires root <= MAX_BITS && low < Pow2(root) && Low(huff, root) != low
    requires Mirror(low) <= Mirror(huff) <= Mirror(low) + Unit(root)
    ensures Mirror(huff) == Mirror(low) + Unit(root) == Mirror(Low(huff, root))
  {
    hide Low, High, Rev, Mirror, Scaled, Unit;
    var s := Low(huff, root);
    StartsWith(huff, low, root);
    StartsWith(huff, s, root);
    MirrorShort(s, root);
    MirrorShort(low, root);
    ScaledAdd(Rev(low, root), 1, root);
    UnitPositive(root);
    SameBlock(Rev(low, root) + 1, Rev(s, root), root, 0);
  }

  lemma UnitPositive(l: nat)
    ensures Unit(l) > 0
  {
  }

  lemma LinkDone(t: seq<Entry>, t': seq<Entry>, root: nat, kind: Kind, lens: seq<nat>, P: nat,
                 next: nat, curr: nat, low: nat, next2: nat, low2: nat, e: Entry)
    requires |lens| <= MaxSymbols(kind) && root <= MAX_BITS && low2 < Pow2(root) && P == Mirror(low2)
    requires low2 != low && next2 == next + Pow2(curr)
    requires Done(t, root, kind, lens, P, next, low) && Current(t, root, kind, lens, P, next, curr, low)
    requires low2 < |t| && t' == t[low2 := e]
    ensures Done(t', root, kind, lens, P, next2, low2)
  {
    hide Mirror, Low, High, SymbolEntry, Covers, Pow2, Unit;
    forall n: nat, x: nat | x < FULL && Covers(lens, n, Mirror(x)) && Mirror(x) < P && Low(x, root) != low2
      ensures Placed(t', root, kind, lens, n, x, next2)
    {
      if Low(x, root) != low {
        PlacedBelow(t, t', root, kind, lens, n, x, next, next2, low2);
      } else {
        PlacedHere(t, t', root, kind, lens, n, x, next, curr, low, low2);
      }
    }
  }

  lemma PlacedBelow(t: seq<Entry>, t': seq<Entry>, root: nat, kind: Kind, lens: seq<nat>, n: nat, x: nat,
                    next: nat, next2: nat, low2: nat)
    requires n < |lens| <= MaxSymbols(kind) && |t'| == |t| && low2 < Pow2(root) <= next <= next2 <= |t|
    requires Placed(t, root, kind, lens, n, x, next) && Low(x, root) != low2
    requires forall i: nat | i < |t| && i != low2 :: t'[i] == t[i]
    ensures Placed(t', root, kind, lens, n, x, next2)
  {
    hide Low, High, SymbolEntry, Pow2;
  }

  lemma PlacedHere(t: seq<Entry>, t': seq<Entry>, root: nat, kind: Kind, lens: seq<nat>, n: nat, x: nat,
                   next: nat, curr: nat, low: nat, low2: nat)
    requires n < |lens| <= MaxSymbols(kind) && |t'| == |t| && low2 < Pow2(root) <= next && next + Pow2(curr) <= |t|
    requires low != low2 && low < Pow2(root) && Low(x, root) == low && root < lens[n]
    requires 1 <= curr && root + curr <= MAX_BITS && t[low] == Entry(curr, root, next)
    requires t[next + Low(High(x, root), curr)] == SymbolEntry(kind, n, lens[n] - root)
    requires forall i: nat | i < |t| && i != low2 :: t'[i] == t[i]
    ensures Placed(t', root, kind, lens, n, x, next + Pow2(curr))
  {
    hide Low, High, SymbolEntry, Pow2;
  }

  lemma LinkDoneFirst(t: seq<Entry>, t': seq<Entry>, root: nat, kind: Kind, lens: seq<nat>, P: nat, low2: nat, e: Entry)
    requires |lens| <= MaxSymbols(kind) && root <= MAX_BITS && low2 < Pow2(root) <= |t|
    requires Done(t, root, kind, lens, P, 0, -1) && t' == t[low2 := e]
    ensures Done(t', root, kind, lens, P, Pow2(root), low2)
  {
    hide Mirror, Low, High, SymbolEntry, Scaled, Pow2;
    forall n: nat, x: nat | x < FULL && Covers(lens, n, Mirror(x)) && Mirror(x) < P && Low(x, root) != low2
      ensures Placed(t', root, kind, lens, n, x, Pow2(root))
    {
      assert Placed(t, root, kind, lens, n, x, 0);
    }
  }

  /** Nothing below the start of a slot lies in it. */
  lemma LinkCurrent(t: seq<Entry>, root: nat, kind: Kind, lens: seq<nat>, P: nat, next: nat, curr: nat, low: nat)
    requires |lens| <= MaxSymbols(kind) && 1 <= curr && root + curr <= MAX_BITS
    requires low < Pow2(root) <= next && next + Pow2(curr) <= |t| && P == Mirror(low) && t[low] == Entry(curr, root, next)
    ensures Current(t, root, kind, lens, P, next, curr, low)
  {
    hide Mirror, Low, High, SymbolEntry, Pow2, Unit, Covers;
    forall x: nat | Low(x, root) == low
      ensures P <= Mirror(x)
    {
      StartsWith(x, low, root);
    }
  }

  /** The cursor has left the table being filled: its code is longer than the root index and starts
      a root slot of its own. */
  ghost predicate AtSlot(lens: seq<nat>, root: nat, c: Cursor, len0: nat) {
    && root < c.len && Low(c.huff, root) != c.low
    && if c.low == -1 then c.huff < Pow2(root)
       else c.low >= 0 && len0 <= c.len && Mirror(c.low) <= Mirror(c.huff) <= Mirror(c.low) + Unit(root)
  }

  /** A root slot being opened starts at its first code, with the space used so far accounted for. */
  lemma SlotOpens(lens: seq<nat>, root: nat, max: nat, c: Cursor, len0: nat, i0: nat)
    requires 1 <= root <= MAX_BITS && AtSymbol(lens, c) && AtTable(lens, root, max, c, len0, i0) && AtSlot(lens, root, c, len0)
    ensures Mirror(Low(c.huff, root)) == Mirror(c.huff)
    ensures c.used + 4 <= Pow2(root) + c.sym + Pow2(c.len - root + 1)
  {
    hide Mirror, Low, High, Scaled, Unit, Count, Offset, First, Rev;
    if c.low == -1 {
      LowHighUnique(c.huff, root, 0, c.huff);
      Pow2Mono(2, c.len - root + 1);
      Pow2Values();
    } else {
      SlotBoundary(c.huff, root, c.low);
      NextSlot(lens, root, max, c.low, c.curr, c.used, len0, i0, c.len, c.sym - Offset(lens, c.len), c.huff, Mirror(c.huff));
    }
  }

  method OpenSubTable(kind: Kind, lens: seq<nat>, count: array<nat>, table: array<Entry>, start: nat, root: nat,
                      max: nat, c: Cursor, ghost len0: nat, ghost i0: nat)
    returns (ret: int, next: Cursor)
    requires |lens| <= MaxSymbols(kind) && Kraft(lens) == FULL && 1 <= root < c.len <= max <= MAX_BITS
    requires start + Space(|lens|, root, max) <= table.Length
    requires AtSymbol(lens, c) && CountsLeft(lens, count[..], c)
    requires forall l | max < l <= MAX_BITS :: Count(lens, l) == 0
    requires AtTable(lens, root, max, c, len0, i0) && AtSlot(lens, root, c, len0)
    requires Entered(table[start..], root, kind, lens, c, Mirror(c.huff))
    modifies table
    ensures table[..start] == old(table[..start])
    ensures ret == 0 || (ret == 1 && kind == LENS && Space(|lens|, root, max) >= ENOUGH - MAXD)
    ensures ret == 0 ==> next == c.(curr := next.curr, drop := root, low := Low(c.huff, root), next := c.used, used := next.used)
    ensures ret == 0 ==> AtTable(lens, root, max, next, c.len, c.sym - Offset(lens, c.len))
    ensures ret == 0 ==> InTable(root, next, c.len)
    ensures ret == 0 ==> Entered(table[start..], root, kind, lens, next, Mirror(c.huff))
  {
    hide Mirror, Low, High, Scaled, Unit, Count, Offset, First, Rev, Done, Current, Pow2, Space;
    var low := Low(c.huff, root);
    ghost var i := c.sym - Offset(lens, c.len);
    SlotOpens(lens, root, max, c, len0, i0);
    OffsetNext(lens, c.len);
    var curr := SubTableBits(lens, count, c.len, root, max, i, low, c.used);
    SlotSpace(lens, root, max, low, curr, c.used + Pow2(curr), c.len, i);
    next := c.(curr := curr, drop := root, low := low, next := c.used, used := c.used + Pow2(curr));
    if kind == LENS && next.used >= ENOUGH - MAXD {
      ret := 1;
      return;
    }
    ret := 0;
    ghost var t := table[start..];
    table[start + low] := Entry(curr, root, c.used);
    assert table[start..] == t[low := Entry(curr, root, c.used)];
    if c.low == -1 {
      LinkDoneFirst(t, table[start..], root, kind, lens, Mirror(c.huff), low, Entry(curr, root, c.used));
    } else {
      LinkDone(t, table[start..], root, kind, lens, Mirror(c.huff), c.next, c.curr, c.low, c.used, low, Entry(curr, root, c.used));
    }
    LinkCurrent(table[start..], root, kind, lens, Mirror(c.huff), c.used, curr, low);
  }

  /** After a step inside the table, the cursor is still at its slot or just past it. */
  lemma StepInTable(lens: seq<nat>, root: nat, max: nat, c: Cursor, next: Cursor, len0: nat, i0: nat)
    requires 1 <= root && AtSymbol(lens, c) && AtTable(lens, root, max, c, len0, i0) && InTable(root, c, len0)
    requires AtSymbol(lens, next) && c.len <= next.len <= max && next.huff < Pow2(c.len)
    requires Mirror(next.huff) == Mirror(c.huff) + Unit(c.len)
    requires next.curr == c.curr && next.drop == c.drop && next.low == c.low && next.next == c.next && next.used == c.used
    ensures AtTable(lens, root, max, next, len0, i0)
    ensures next.len > root && Low(next.huff, root) != next.low ==> AtSlot(lens, root, next, len0)
    ensures !(next.len > root && Low(next.huff, root) != next.low) ==> InTable(root, next, len0)
  {
    hide Mirror, Low, High, Scaled, Unit, Count, Offset, First, Rev;
    if c.low == -1 {
      Pow2Mono(c.len, root);
    } else {
      CodeInSlot(c.huff, c.len, root, c.len - root);
      if Low(next.huff, root) == next.low {
        StartsWith(next.huff, c.low, root);
        InSlot(lens, root, max, c.low, c.curr, c.used, len0, i0, next.len, next.sym - Offset(lens, next.len), next.huff, Mirror(next.huff));
      }
    }
  }

  /** The main loop: enters the codes in canonical order. huff is the code after the last one. */
  method EnterCodes(kind: Kind, lens: seq<nat>, count: array<nat>, work: array<nat>, table: array<Entry>, start: nat,
                    root: nat, min: nat, max: nat)
    returns (ret: int, c: Cursor)
    requires ValidLens(lens) && |lens| <= MaxSymbols(kind) && Sorted(lens, work[..]) && work != count
    requires count.Length == MAX_BITS + 1 && forall l: nat | l <= MAX_BITS :: count[l] == Count(lens, l)
    requires 1 <= min <= root <= max <= MAX_BITS && Count(lens, min) != 0 && Count(lens, max) != 0
    requires forall l | 1 <= l <= MAX_BITS && Count(lens, l) != 0 :: min <= l <= max
    requires Kraft(lens) <= FULL && (root < max ==> Kraft(lens) == FULL)
    requires start + Space(|lens|, root, max) <= table.Length
    modifies table, count
    ensures table[..start] == old(table[..start])
    ensures ret == 0 || (ret == 1 && kind == LENS && Space(|lens|, root, max) >= ENOUGH - MAXD)
    ensures ret == 0 ==> start + c.used <= table.Length && Decodes(table[start..start + c.used], root, kind, lens)
    ensures ret == 0 ==> c.used <= Space(|lens|, root, max) && Pow2(root) <= c.used && c.len == max
    ensures ret == 0 && root == max ==> c.drop == 0 && c.next == 0 && c.used == Pow2(root)
    ensures ret == 0 && Kraft(lens) == FULL ==> c.huff == 0
    ensures ret == 0 && Kraft(lens) < FULL ==> c.huff < Pow2(max) && Mirror(c.huff) == Kraft(lens) && c.huff != 0
  {
    hide Mirror, Low, High, Scaled, Unit, Count, Offset, First, Rev, Done, Current, Pow2, Space, Sorted, Decodes, Slot;
    ghost var len0: nat, i0: nat := 0, 0;
    c := Cursor(0, min, 0, root, 0, -1, 0, Pow2(root));
    StartCursor(lens, min, max);
    StartTable(table[start..], root, kind, lens, max, c);
    while true
      invariant AtSymbol(lens, c) && CountsLeft(lens, count[..], c) && c.len <= max
      invariant AtTable(lens, root, max, c, len0, i0) && InTable(root, c, len0)
      invariant Entered(table[start..], root, kind, lens, c, Mirror(c.huff))
      invariant table[..start] == old(table[..start])
      decreases |lens| - c.sym
    {
      SpaceUsed(lens, root, max, c, len0, i0);
      SymbolBound(lens, c);
      EnterCode(kind, lens, work, table, start, root, max, c, len0, i0);
      var more, next := Advance(lens, work, count, max, c);
      if !more {
        SpaceUsed(lens, root, max, c, len0, i0);
        FinalTable(table[start..], root, kind, lens, max, c, len0, i0);
        assert table[start..][..c.used] == table[start..start + c.used];
        c := next;
        return 0, c;
      }
      StepInTable(lens, root, max, c, next, len0, i0);
      c := next;
      if c.len > root && Low(c.huff, root) != c.low {
        ret, next := OpenSubTable(kind, lens, count, table, start, root, max, c, len0, i0);
        if ret != 0 {
          return;
        }
        len0, i0 := c.len, c.sym - Offset(lens, c.len);
        c := next;
      }
    }
  }

  lemma StartCursor(lens: seq<nat>, min: nat, max: nat)
    requires 1 <= min <= max <= MAX_BITS && Count(lens, min) != 0
    requires forall l | 1 <= l <= MAX_BITS && Count(lens, l) != 0 :: min <= l <= max
    ensures Offset(lens, min) == 0 && First(lens, min) == 0 && Scaled(0, min) == 0 && Mirror(0) == 0
    ensures Offset(lens, min + 1) == Count(lens, min)
  {
    hide Scaled, Count;
    NoneBelow(lens, min);
    ScaledAdd(0, 0, min);
    RevZero(MAX_BITS);
  }

  lemma {:induction false} NoneBelow(lens: seq<nat>, l: nat)
    requires forall k: nat | 1 <= k < l :: Count(lens, k) == 0
    ensures Offset(lens, l) == 0 && First(lens, l) == 0
  {
    if l > 1 {
      NoneBelow(lens, l - 1);
      ScaledAdd(0, 0, l - 1);
    }
  }

  lemma StartTable(t: seq<Entry>, root: nat, kind: Kind, lens: seq<nat>, max: nat, c: Cursor)
    requires |lens| <= MaxSymbols(kind) && c.low == -1
    ensures Entered(t, root, kind, lens, c, 0)
  {
  }

  lemma SpaceUsed(lens: seq<nat>, root: nat, max: nat, c: Cursor, len0: nat, i0: nat)
    requires root <= max && AtTable(lens, root, max, c, len0, i0)
    ensures Pow2(root) <= c.used <= Space(|lens|, root, max)
    ensures root == max ==> c.low == -1
  {
    hide Pow2, Offset, First, Count, Unit, Mirror, Scaled;
    if c.low != -1 {
      SlotSpace(lens, root, max, c.low, c.curr, c.used, len0, i0);
    }
  }

  lemma SymbolBound(lens: seq<nat>, c: Cursor)
    requires AtSymbol(lens, c)
    ensures c.sym < |lens|
  {
    hide Offset, Count, Mirror;
    Rank(lens, c.len, c.sym - Offset(lens, c.len));
  }

  lemma FinalTable(t: seq<Entry>, root: nat, kind: Kind, lens: seq<nat>, max: nat, c: Cursor, len0: nat, i0: nat)
    requires |lens| <= MaxSymbols(kind) && 1 <= root <= MAX_BITS && Pow2(root) <= c.used <= |t|
    requires AtTable(lens, root, max, c, len0, i0) && Entered(t, root, kind, lens, c, Kraft(lens))
    ensures Decodes(t[..c.used], root, kind, lens)
  {
    hide Mirror, Low, High, SymbolEntry, Pow2, Unit, Scaled, First, Slot;
    Pow2Mono(1, root);
    Pow2Values();
    forall n: nat, x: nat | x < FULL && Covers(lens, n, Mirror(x))
      ensures Placed(t[..c.used], root, kind, lens, n, x, c.used)
    {
      BelowKraft(lens, n, Mirror(x));
      if c.low == -1 || Low(x, root) != c.low {
        PlacedSlice(t, root, kind, lens, n, x, c.next, c.used);
      } else {
        PlacedHere(t, t, root, kind, lens, n, x, c.next, c.curr, c.low, if c.low == 0 then 1 else 0);
        PlacedSlice(t, root, kind, lens, n, x, c.used, c.used);
      }
    }
  }

  lemma PlacedSlice(t: seq<Entry>, root: nat, kind: Kind, lens: seq<nat>, n: nat, x: nat, hi: nat, used: nat)
    requires n < |lens| <= MaxSymbols(kind) && Pow2(root) <= used <= |t| && hi <= used
    requires Placed(t, root, kind, lens, n, x, hi)
    ensures Placed(t[..used], root, kind, lens, n, x, used)
  {
    hide Low, High, SymbolEntry, Pow2;
  }

  lemma BelowKraft(lens: seq<nat>, n: nat, v: nat)
    requires Covers(lens, n, v)
    ensures v < Kraft(lens)
  {
    hide Scaled, Unit;
    IntervalInside(lens, n);
    FirstMono(lens, lens[n] + 1, MAX_BITS + 1);
  }

  // ---- the whole routine

  /** Windows that start with no code find the invalid-code marker. */
  ghost predicate Rejects(t: seq<Entry>, root: nat, lens: seq<nat>) {
    forall x: nat | x < FULL && (forall n: nat :: !Covers(lens, n, Mirror(x))) ::
      Low(x, root) < |t| && t[Low(x, root)] == INVALID
  }

  /** The table space that accepted lengths need. */
  function SpaceNeeded(lens: seq<nat>, bits: nat): nat {
    if MaxLength(lens) == 0 then 2 else Space(|lens|, RootBits(lens, bits), MaxLength(lens))
  }

  lemma NoCodesMax(lens: seq<nat>)
    ensures MaxLength(lens) == 0 <==> NoCodes(lens)
    ensures NoCodes(lens) ==> Kraft(lens) == 0 && forall n: nat, v: nat :: !Covers(lens, n, v)
  {
    if NoCodes(lens) {
      NoneBelow(lens, MAX_BITS + 1);
      forall n: nat, v: nat
        ensures !Covers(lens, n, v)
      {
        if Covers(lens, n, v) {
          CountAll(lens, n, lens[n]);
        }
      }
    }
  }

  /** An incomplete code with no length above 1 is one code of one bit. */
  lemma Incomplete(lens: seq<nat>)
    requires MaxLength(lens) == 1
    ensures Kraft(lens) == Count(lens, 1) * 16384
    ensures Kraft(lens) < FULL <==> SingleBitCode(lens)
  {
    Pow2Values();
    FirstBeyond(lens, 1, MAX_BITS + 1);
    assert Unit(1) == Pow2(14);
    assert First(lens, 2) == Scaled(Count(lens, 1), 1);
  }

  lemma SingleBitMax(lens: seq<nat>)
    requires SingleBitCode(lens)
    ensures MaxLength(lens) == 1
  {
  }

  lemma EmptyTable(t: seq<Entry>, kind: Kind, lens: seq<nat>)
    requires |lens| <= MaxSymbols(kind) && NoCodes(lens) && t == [INVALID, INVALID]
    ensures Decodes(t, 1, kind, lens) && Rejects(t, 1, lens)
  {
    hide Mirror, Low, Covers;
    NoCodesMax(lens);
    Pow2Values();
  }

  /** The routine's test of the unused strings accepts exactly the acceptable lengths. */
  lemma AcceptTest(kind: Kind, lens: seq<nat>, left: int)
    requires MaxLength(lens) > 0
    requires left < 0 <==> Kraft(lens) > FULL
    requires left >= 0 ==> left == FULL - Kraft(lens)
    ensures left < 0 || (left > 0 && (kind == CODES || MaxLength(lens) != 1)) <==> !Acceptable(kind, lens)
  {
    hide First, Count;
    NoCodesMax(lens);
    if MaxLength(lens) == 1 {
      Incomplete(lens);
    } else if SingleBitCode(lens) {
      SingleBitMax(lens);
    }
  }

  lemma RootSpace(n: nat, root: nat, max: nat)
    ensures Space(n, root, max) >= Pow2(root)
  {
  }

  /** A complete code leaves no window without a symbol. */
  lemma FullRejects(t: seq<Entry>, root: nat, lens: seq<nat>)
    requires Kraft(lens) == FULL
    ensures Rejects(t, root, lens)
  {
    hide Mirror, Low, Covers, First;
    forall x: nat | x < FULL
      ensures exists n: nat :: Covers(lens, n, Mirror(x))
    {
      var n := CoversExists(lens, MAX_BITS + 1, Mirror(x));
    }
  }

  /** The table of a single one-bit code: the other bit is invalid. */
  lemma SingleTable(t: seq<Entry>, t': seq<Entry>, kind: Kind, lens: seq<nat>)
    requires |lens| <= MaxSymbols(kind) && Kraft(lens) == 16384 && Decodes(t, 1, kind, lens) && |t| == 2
    requires t' == t[1 := INVALID]
    requires SingleBitCode(lens)
    ensures Decodes(t', 1, kind, lens) && Rejects(t', 1, lens)
  {
    hide Mirror, Low, First, Count, SymbolEntry;
    Pow2Values();
    forall x: nat | x < FULL
      ensures Low(x, 1) < 2 && (Low(x, 1) == 0 <==> Mirror(x) < 16384)
    {
      FirstBit(x);
    }
    forall n: nat, x: nat | x < FULL && Covers(lens, n, Mirror(x))
      ensures Placed(t', 1, kind, lens, n, x, 2)
    {
      BelowKraft(lens, n, Mirror(x));
      CountAll(lens, n, lens[n]);
      assert Placed(t, 1, kind, lens, n, x, 2);
    }
    forall x: nat | x < FULL && (forall n: nat :: !Covers(lens, n, Mirror(x)))
      ensures Low(x, 1) == 1
    {
      if Mirror(x) < 16384 {
        var n := CoversExists(lens, MAX_BITS + 1, Mirror(x));
      }
    }
  }

  lemma FirstBit(x: nat)
    ensures Low(x, 1) < 2 && (Low(x, 1) == 0 <==> Mirror(x) < 16384)
  {
    Pow2Values();
    StartsWith(x, 0, 1);
    RevZero(MAX_BITS);
    assert Unit(1) == Pow2(14);
  }

  /** Marks the codes that an incomplete set leaves over. Only a single one-bit code gets here, so the
      loop never has to fall back from a sub-table to the root table. */
  method FillRest(kind: Kind, lens: seq<nat>, table: array<Entry>, start: nat, root: nat, c: Cursor)
    requires |lens| <= MaxSymbols(kind) && SingleBitCode(lens) && Kraft(lens) == 16384
    requires root == 1 && c.len == 1 && c.drop == 0 && c.next == 0 && c.used == 2
    requires c.huff < Pow2(c.len) && Mirror(c.huff) == Kraft(lens)
    requires start + c.used <= table.Length && Decodes(table[start..start + c.used], root, kind, lens)
    modifies table
    ensures table[..start] == old(table[..start])
    ensures Decodes(table[start..start + c.used], root, kind, lens)
    ensures Rejects(table[start..start + c.used], root, lens)
  {
    hide Decodes, Rejects, First, Mirror, Low, High;
    Pow2Values();
    var marker := Entry(64, c.len - c.drop, 0);
    ghost var t := table[start..start + 2];
    var huff := c.huff;
    FirstBit(huff);
    LowHighUnique(huff, 1, 0, huff);
    LowHighUnique(huff, 0, huff, 0);
    assert Unit(1) == Pow2(14);
    while huff != 0
      invariant huff == c.huff || huff == 0
      invariant table[..start] == old(table[..start])
      invariant table[start..start + 2] == if huff == 0 then t[1 := INVALID] else t
      decreases huff
    {
      if c.drop != 0 {
        assert false;
      }
      table[start + c.next + High(huff, c.drop)] := marker;
      assert table[start..start + 2] == t[1 := INVALID];
      huff := NextHuff(huff, c.len);
    }
    SingleTable(t, table[start..start + 2], kind, lens);
  }

  method InflateTable(kind: Kind, lens: seq<nat>, table: array<Entry>, start: nat, bits: nat, work: array<nat>)
    returns (ret: int, next: nat, root: nat)
    requires ValidLens(lens) && |lens| <= MaxSymbols(kind) && |lens| <= work.Length && 1 <= bits <= MAX_BITS
    requires Acceptable(kind, lens) ==> start + SpaceNeeded(lens, bits) <= table.Length
    modifies table, work
    ensures ret != -1 <==> Acceptable(kind, lens)
    ensures ret == -1 || ret == 0 || (ret == 1 && kind == LENS && SpaceNeeded(lens, bits) >= ENOUGH - MAXD)
    ensures ret == 0 ==> root == RootBits(lens, bits) && start <= next <= start + SpaceNeeded(lens, bits)
    ensures ret == 0 ==> Decodes(table[start..next], root, kind, lens)
    ensures ret == 0 ==> Rejects(table[start..next], root, lens)
    ensures start <= table.Length ==> table[..start] == old(table[..start])
  {
    hide Mirror, Low, High, Scaled, Unit, Count, First, Pow2, Space, Decodes, Rejects, Covers;
    var count := CountLengths(lens);
    var min, max := LengthRange(lens, count);
    NoCodesMax(lens);
    root := if bits > max then max else bits;
    if max == 0 {
      table[start] := INVALID;
      table[start + 1] := INVALID;
      EmptyTable(table[start..start + 2], kind, lens);
      return 0, start + 2, 1;
    }
    root := if root < min then min else root;
    var left := Unused(lens, count);
    AcceptTest(kind, lens, left);
    if left < 0 || (left > 0 && (kind == CODES || max != 1)) {
      return -1, start, root;
    }
    SortSymbols(lens, count, work);
    if kind == LENS && Pow2(root) >= ENOUGH - MAXD {
      RootSpace(|lens|, root, max);
      return 1, start, root;
    }
    var c: Cursor;
    ret, c := EnterCodes(kind, lens, count, work, table, start, root, min, max);
    next := start + c.used;
    if ret != 0 {
      return;
    }
    if c.huff != 0 {
      Incomplete(lens);
      Pow2Values();
      FillRest(kind, lens, table, start, root, c);
    } else {
      FullRejects(table[start..next], root, lens);
    }
  }

  // ---- the size of codes[ENOUGH]

  /** If no length is below min, the symbols own at most as much as if all had length min. */
  lemma {:induction false} KraftAtMost(lens: seq<nat>, min: nat, l: nat)
    requires 1 <= min && l <= MAX_BITS + 1 && forall k: nat | 1 <= k < min :: Count(lens, k) == 0
    ensures First(lens, l) <= Scaled(Offset(lens, l), min)
  {
    if l > 1 {
      KraftAtMost(lens, min, l - 1);
      var c := Count(lens, l - 1);
      ScaledAdd(Offset(lens, l - 1), c, min);
      ScaledShorter(c, min, l - 1);
    }
  }

  lemma ScaledShorter(c: nat, l: nat, l': nat)
    requires l' <= MAX_BITS
    ensures c == 0 || l <= l' ==> Scaled(c, l') <= Scaled(c, l)
  {
    if c > 0 && l <= l' {
      Pow2Mono(MAX_BITS - l', MAX_BITS - l);
      MulMono(Unit(l'), Unit(l), c);
    }
  }

  /** A complete code whose shortest length is min has at least 2^min symbols. */
  lemma CompleteSize(lens: seq<nat>)
    requires Kraft(lens) == FULL && MaxLength(lens) > 0
    ensures Pow2(MinLength(lens)) <= |lens|
  {
    hide Scaled, First, Offset, Count, Pow2, Unit;
    var min := MinLength(lens);
    KraftAtMost(lens, min, MAX_BITS + 1);
    OffsetBound(lens, MAX_BITS + 1);
    ScaledMono(Offset(lens, MAX_BITS + 1), |lens|, min);
    ScaledFull(min);
    ScaledInjective(Pow2(min), |lens|, min);
  }

  lemma SpaceBound(kind: Kind, lens: seq<nat>, bits: nat)
    requires Acceptable(kind, lens) && 1 <= bits <= MAX_BITS && |lens| < Pow2(bits + 1)
    ensures SpaceNeeded(lens, bits) <= Pow2(bits) + |lens| + Pow2(MAX_BITS + 1 - bits)
  {
    hide First, Count, Pow2;
    var max := MaxLength(lens);
    Pow2Mono(1, bits);
    Pow2Mono(1, MAX_BITS + 1 - bits);
    Pow2Values();
    NoCodesMax(lens);
    if max > bits {
      if SingleBitCode(lens) {
        SingleBitMax(lens);
      } else {
        CompleteSize(lens);
        if bits < MinLength(lens) {
          Pow2Mono(bits + 1, MinLength(lens));
        }
        Pow2Mono(max - bits + 1, MAX_BITS + 1 - bits);
      }
    } else if max > 0 {
      Pow2Mono(max, bits);
    }
  }

  /** codes[ENOUGH] always has room for the two tables of a dynamic block, one after the other, and
      the space check of the literal/length table never fires. */
  lemma EnoughSuffices(lens: seq<nat>, dists: seq<nat>)
    requires Acceptable(LENS, lens) && Acceptable(DISTS, dists) && |lens| <= 288 && |dists| <= 30
    ensures SpaceNeeded(lens, 9) < ENOUGH - MAXD
    ensures |lens| <= 286 ==> SpaceNeeded(lens, 9) + SpaceNeeded(dists, 6) <= ENOUGH
  {
    Pow2Values();
    SpaceBound(LENS, lens, 9);
    SpaceBound(DISTS, dists, 6);
  }
}
