/** The CRC-32 of section 8 of RFC 1952: a word at a time on machines of either byte order, and combination of two. */
module Crc32 {
  // ---- polynomials over GF(2), the lowest power in the highest bit

  const POLY: bv32 := 0xedb88320
  const ONES: bv32 := 0xffffffff

  function Plus(a: bv32, b: bv32): bv32 { a ^ b }

  /** Multiplication by x modulo the polynomial: what one bit of input does to the register. */
  function TimesX(c: bv32): bv32 { if c & 1 == 1 then 0xedb88320 ^ (c >> 1) else c >> 1 }

  function Shift(c: bv32, n: nat): bv32
    decreases n
  {
    if n == 0 then c else Shift(TimesX(c), n - 1)
  }

  /** The definition: each byte is added to the register, which is shifted eight times. */
  function Feed(c: bv32, b: bv8): bv32 { Shift(Plus(c, b as bv32), 8) }

  function Register(c: bv32, buf: seq<bv8>): bv32
    decreases |buf|
  {
    if |buf| == 0 then c else Feed(Register(c, buf[..|buf| - 1]), buf[|buf| - 1])
  }

  /** The check value of more bytes after those of the check value crc; that of no bytes is 0. */
  function Crc(crc: bv32, buf: seq<bv8>): bv32 { Plus(Register(Plus(crc, ONES), buf), ONES) }

  // ---- addition

  lemma Commutes(a: bv32, b: bv32)
    ensures Plus(a, b) == Plus(b, a)
  {
  }

  lemma Associates(a: bv32, b: bv32, c: bv32)
    ensures Plus(Plus(a, b), c) == Plus(a, Plus(b, c))
  {
  }

  lemma Cancels(a: bv32, b: bv32)
    ensures Plus(a, a) == 0 && Plus(a, 0) == a == Plus(0, a) && Plus(Plus(a, b), b) == a
  {
  }

  lemma XorTwice(x: bv32, y: bv32, p: bv32)
    ensures (p ^ x) ^ (p ^ y) == x ^ y && p ^ (x ^ y) == (p ^ x) ^ y == x ^ (p ^ y)
  {
  }

  lemma XorParts(a: bv32, b: bv32)
    ensures (a ^ b) >> 1 == (a >> 1) ^ (b >> 1)
    ensures (a ^ b) & 1 == 1 <==> (a & 1 == 1) != (b & 1 == 1)
  {
  }

  lemma TimesXLinear(a: bv32, b: bv32)
    ensures TimesX(Plus(a, b)) == Plus(TimesX(a), TimesX(b))
  {
    XorParts(a, b);
    XorTwice(a >> 1, b >> 1, 0xedb88320);
  }

  lemma {:induction false} ShiftLinear(a: bv32, b: bv32, n: nat)
    ensures Shift(Plus(a, b), n) == Plus(Shift(a, n), Shift(b, n))
    decreases n
  {
    hide TimesX, Plus;
    if n > 0 {
      TimesXLinear(a, b);
      ShiftLinear(TimesX(a), TimesX(b), n - 1);
    }
  }

  lemma {:induction false} ShiftMore(c: bv32, m: nat, n: nat)
    ensures Shift(c, m + n) == Shift(Shift(c, m), n)
    decreases m
  {
    hide TimesX;
    if m > 0 {
      ShiftMore(TimesX(c), m - 1, n);
    }
  }

  lemma ShiftNone(c: bv32)
    ensures Shift(c, 0) == c
  {
  }

  lemma {:induction false} ShiftZero(n: nat)
    ensures Shift(0, n) == 0
  {
    if n > 0 {
      ShiftZero(n - 1);
    }
  }

  // ---- bytes of the register

  function Byte0(w: bv32): bv32 { w & 0xff }
  function Byte1(w: bv32): bv32 { (w >> 8) & 0xff }
  function Byte2(w: bv32): bv32 { (w >> 16) & 0xff }
  function Byte3(w: bv32): bv32 { w >> 24 }

  /** All but the last byte. */
  function Down(w: bv32): bv32 { w >> 8 }

  /** A shift without a carry. */
  lemma Doubled(c: bv32)
    requires c <= 0x7fffffff
    ensures TimesX(c << 1) == c
  {
  }

  lemma ShiftTwo(c: bv32)
    requires c <= 0x3fffffff
    ensures Shift(c << 2, 2) == c
  {
    hide TimesX;
    assert c << 2 == (c << 1) << 1 && c << 1 <= 0x7fffffff;
    Doubled(c << 1);
    Doubled(c);
    assert Shift(c << 1, 1) == Shift(c, 0);
  }

  lemma ShiftFour(c: bv32)
    requires c <= 0x0fffffff
    ensures Shift(c << 4, 4) == c
  {
    hide Shift;
    assert c << 4 == (c << 2) << 2 && c << 2 <= 0x3fffffff;
    ShiftTwo(c << 2);
    ShiftTwo(c);
    ShiftMore(c << 4, 2, 2);
  }

  /** Without a carry eight steps only shift. */
  lemma ShiftByte(c: bv32)
    requires c <= 0xffffff
    ensures Shift(c << 8, 8) == c
  {
    hide Shift;
    assert c << 8 == (c << 4) << 4 && c << 4 <= 0x0fffffff;
    ShiftFour(c << 4);
    ShiftFour(c);
    ShiftMore(c << 8, 4, 4);
  }

  lemma BytesOf(c: bv32)
    ensures c == (c & 0xff) ^ ((c >> 8) << 8) && c >> 8 <= 0xffffff
  {
  }

  /** A shift by a byte, as a table of 256 entries gives it. */
  lemma ByteStep(c: bv32)
    ensures Shift(c, 8) == Plus(Shift(Byte0(c), 8), Down(c))
  {
    hide Shift;
    BytesOf(c);
    ShiftByte(c >> 8);
    ShiftLinear(c & 0xff, (c >> 8) << 8, 8);
  }

  // ---- words

  /** A shift of a value that starts higher up. */
  lemma ShiftHigher(c: bv32, n: nat)
    requires c <= 0xffffff
    ensures Shift(c << 8, 8 + n) == Shift(c, n)
  {
    hide Shift;
    ShiftByte(c);
    ShiftMore(c << 8, 8, n);
  }

  lemma SecondByte(c: bv32, n: nat)
    requires c <= 0xff
    ensures Shift(c << 8, 8 + n) == Shift(c, n)
  {
    hide Shift;
    ShiftHigher(c, n);
  }

  lemma ThirdByte(c: bv32, n: nat)
    requires c <= 0xff
    ensures Shift(c << 16, 16 + n) == Shift(c, n)
  {
    hide Shift;
    assert c << 16 == (c << 8) << 8 && c << 8 <= 0xffffff;
    ShiftHigher(c << 8, 8 + n);
    ShiftHigher(c, n);
  }

  lemma FourthByte(c: bv32, n: nat)
    requires c <= 0xff
    ensures Shift(c << 24, 24 + n) == Shift(c, n)
  {
    hide Shift;
    assert c << 24 == (c << 16) << 8 && c << 16 <= 0xffffff;
    ShiftHigher(c << 16, 16 + n);
    ThirdByte(c, n);
  }

  lemma WordOf(w: bv32)
    ensures w == (((w & 0xff) ^ (((w >> 8) & 0xff) << 8)) ^ (((w >> 16) & 0xff) << 16)) ^ ((w >> 24) << 24)
    ensures w & 0xff <= 0xff && (w >> 8) & 0xff <= 0xff && (w >> 16) & 0xff <= 0xff && w >> 24 <= 0xff
  {
  }

  lemma Bytewise(w: bv32)
    ensures w == Plus(Plus(Plus(Byte0(w), Byte1(w) << 8), Byte2(w) << 16), Byte3(w) << 24)
    ensures Byte0(w) <= 0xff && Byte1(w) <= 0xff && Byte2(w) <= 0xff && Byte3(w) <= 0xff
  {
    WordOf(w);
  }

  /** A shift by a word, as four tables give it. */
  lemma WordStep(w: bv32)
    ensures Shift(w, 32) == Plus(Plus(Plus(Shift(Byte0(w), 32), Shift(Byte1(w), 24)), Shift(Byte2(w), 16)), Shift(Byte3(w), 8))
  {
    hide Shift, Plus, Byte0, Byte1, Byte2, Byte3;
    Bytewise(w);
    var a, b, c, d := Byte0(w), Byte1(w) << 8, Byte2(w) << 16, Byte3(w) << 24;
    ShiftLinear(Plus(Plus(a, b), c), d, 32);
    ShiftLinear(Plus(a, b), c, 32);
    ShiftLinear(a, b, 32);
    SecondByte(Byte1(w), 24);
    ThirdByte(Byte2(w), 16);
    FourthByte(Byte3(w), 8);
  }

  /** A byte fed after n steps might have been added before them, higher up. */
  lemma FeedAfter(x: bv32, b: bv8, u: bv32, n: nat)
    requires Shift(u, n) == b as bv32
    ensures Feed(Shift(x, n), b) == Shift(Plus(x, u), n + 8)
  {
    hide Shift, Plus;
    ShiftLinear(x, u, n);
    ShiftMore(Plus(x, u), n, 8);
  }

  /** What a little-endian machine reads at four bytes. */
  function Word(b: seq<bv8>): bv32
    requires |b| == 4
  {
    Plus(Plus(Plus(b[0] as bv32, (b[1] as bv32) << 8), (b[2] as bv32) << 16), (b[3] as bv32) << 24)
  }

  lemma FeedTwo(c: bv32, b0: bv8, b1: bv8)
    ensures Feed(Feed(c, b0), b1) == Shift(Plus(Plus(c, b0 as bv32), (b1 as bv32) << 8), 16)
  {
    hide Shift, Plus;
    var u := b1 as bv32;
    SecondByte(u, 0);
    ShiftNone(u);
    FeedAfter(Plus(c, b0 as bv32), b1, u << 8, 8);
  }

  lemma FeedThree(c: bv32, b2: bv8)
    ensures Feed(Shift(c, 16), b2) == Shift(Plus(c, (b2 as bv32) << 16), 24)
  {
    hide Shift, Plus;
    var u := b2 as bv32;
    ThirdByte(u, 0);
    ShiftNone(u);
    FeedAfter(c, b2, u << 16, 16);
  }

  lemma FeedFour(c: bv32, b3: bv8)
    ensures Feed(Shift(c, 24), b3) == Shift(Plus(c, (b3 as bv32) << 24), 32)
  {
    hide Shift, Plus;
    var u := b3 as bv32;
    FourthByte(u, 0);
    ShiftNone(u);
    FeedAfter(c, b3, u << 24, 24);
  }

  /** Four bytes at once. */
  lemma FeedWord(c: bv32, b: seq<bv8>)
    requires |b| == 4
    ensures Feed(Feed(Feed(Feed(c, b[0]), b[1]), b[2]), b[3]) == Shift(Plus(c, Word(b)), 32)
  {
    hide Shift, Plus, Feed;
    var u0, u1, u2, u3 := b[0] as bv32, (b[1] as bv32) << 8, (b[2] as bv32) << 16, (b[3] as bv32) << 24;
    FeedTwo(c, b[0], b[1]);
    FeedThree(Plus(Plus(c, u0), u1), b[2]);
    FeedFour(Plus(Plus(Plus(c, u0), u1), u2), b[3]);
    Associates(c, u0, u1);
    Associates(c, Plus(u0, u1), u2);
    Associates(c, Plus(Plus(u0, u1), u2), u3);
  }

  lemma RegisterWord(c: bv32, buf: seq<bv8>, i: nat)
    requires i + 4 <= |buf|
    ensures Register(c, buf[..i + 4]) == Shift(Plus(Register(c, buf[..i]), Word(buf[i..i + 4])), 32)
  {
    hide Shift, Plus, Feed;
    RegisterNext(c, buf, i);
    RegisterNext(c, buf, i + 1);
    RegisterNext(c, buf, i + 2);
    RegisterNext(c, buf, i + 3);
    FeedWord(Register(c, buf[..i]), buf[i..i + 4]);
  }

  lemma RegisterNext(c: bv32, buf: seq<bv8>, i: nat)
    requires i < |buf|
    ensures Register(c, buf[..i + 1]) == Feed(Register(c, buf[..i]), buf[i])
  {
    hide Feed;
    assert buf[..i + 1][..i] == buf[..i];
  }

  lemma RegisterNone(c: bv32, buf: seq<bv8>)
    ensures Register(c, buf[..0]) == c && buf[..|buf|] == buf
  {
  }

  // ---- tables

  /** What a byte becomes in 8, 16, 24 and 32 steps; the tables from 4 on have the bytes of these in reverse. */
  function Entry(k: nat, n: nat): bv32
    requires k < 8 && n < 256
  {
    if k < 4 then Shift((n as bv8) as bv32, 8 * k + 8) else Reversed(Shift((n as bv8) as bv32, 8 * (k - 4) + 8))
  }

  /** REV. */
  function Reversed(w: bv32): bv32 { (w >> 24) + ((w >> 8) & 0xff00) + ((w & 0xff00) << 8) + ((w & 0xff) << 24) }

  predicate Sized(t: array2<bv32>) { t.Length0 == 8 && t.Length1 == 256 }

  ghost predicate IsTable(t: array2<bv32>)
    reads t
  {
    Sized(t) && forall k: nat, n: nat | k < 8 && n < 256 :: t[k, n] == Entry(k, n)
  }

  /** The powers of x in the polynomial, except the highest. */
  const EXPONENTS: seq<nat> := [0, 1, 2, 4, 5, 7, 8, 10, 11, 12, 16, 22, 23, 26]

  function Power(k: nat): bv32
    requires k < 32
  {
    1 << (31 - k)
  }

  function Terms(n: nat): bv32
    requires n <= 14
  {
    if n == 0 then 0 else Terms(n - 1) | Power(EXPONENTS[n - 1])
  }

  lemma FewTerms()
    ensures Terms(4) == 0xe8000000
  {
    assert Terms(2) == 0xc0000000;
  }

  lemma SomeTerms()
    ensures Terms(6) == 0xed000000
  {
    FewTerms();
  }

  lemma MoreTerms()
    ensures Terms(10) == 0xedb80000
  {
    SomeTerms();
    assert Terms(8) == 0xeda00000;
  }

  lemma AllTerms()
    ensures Terms(14) == POLY
  {
    MoreTerms();
    assert Terms(12) == 0xedb88200;
  }

  /** The polynomial as a bit pattern. */
  method MakePoly() returns (poly: bv32)
    ensures poly == POLY
  {
    hide Power;
    poly := 0;
    for n := 0 to 14
      invariant poly == Terms(n)
    {
      poly := poly | Power(EXPONENTS[n]);
    }
    AllTerms();
  }

  /** The next table, from the first. */
  lemma EntryNext(k: nat, n: nat)
    requires k < 3 && n < 256
    ensures Entry(k + 1, n) == Plus(Shift(Byte0(Entry(k, n)), 8), Down(Entry(k, n)))
    ensures Entry(k + 5, n) == Reversed(Entry(k + 1, n)) && Entry(4, n) == Reversed(Entry(0, n))
  {
    hide Shift, Plus, Reversed, Byte0, Down;
    ShiftMore((n as bv8) as bv32, 8 * k + 8, 8);
    ByteStep(Entry(k, n));
  }

  lemma ShiftLast(c: bv32, k: nat)
    ensures Shift(c, k + 1) == TimesX(Shift(c, k))
  {
    hide TimesX;
    ShiftMore(c, k, 1);
    ShiftNone(TimesX(Shift(c, k)));
  }

  function ByPoly(poly: bv32, c: bv32): bv32 { if c & 1 == 1 then poly ^ (c >> 1) else c >> 1 }

  lemma ByPolyIs(c: bv32)
    ensures ByPoly(POLY, c) == TimesX(c)
  {
  }

  /** One value of the first table. */
  method MakeEntry(poly: bv32, n: nat) returns (c: bv32)
    requires poly == POLY && n < 256
    ensures c == Entry(0, n)
  {
    hide Shift, TimesX, ByPoly;
    c := (n as bv8) as bv32;
    ShiftNone(c);
    for k := 0 to 8
      invariant c == Shift((n as bv8) as bv32, k)
    {
      ShiftLast((n as bv8) as bv32, k);
      ByPolyIs(c);
      c := ByPoly(poly, c);
    }
  }

  function Index(c: bv32): (i: nat)
    ensures i < 256
  {
    (Byte0(c) as bv8) as int
  }

  lemma Narrowed(c: bv32)
    ensures ((((c & 0xff) as bv8) as int) as bv8) as bv32 == c & 0xff
  {
  }

  lemma AtIndex(c: bv32)
    ensures (Index(c) as bv8) as bv32 == Byte0(c)
  {
    Narrowed(c);
  }

  lemma AtEntry(c: bv32, k: nat)
    requires k < 4
    ensures Entry(k, Index(c)) == Shift(Byte0(c), 8 * k + 8) && Entry(k + 4, Index(c)) == Reversed(Shift(Byte0(c), 8 * k + 8))
  {
    hide Shift, Index, Reversed, Byte0;
    AtIndex(c);
  }

  /** The value for n in the next table and the one with its bytes in reverse. */
  method MakeNext(t: array2<bv32>, n: nat, k: nat, c: bv32) returns (d: bv32)
    requires Sized(t) && n < 256 && 1 <= k < 4 && c == Entry(k - 1, n) && forall m: nat | m < 256 :: t[0, m] == Entry(0, m)
    modifies t
    ensures d == t[k, n] == Entry(k, n) && t[k + 4, n] == Entry(k + 4, n)
    ensures forall j: nat, m: nat | j < 8 && m < 256 && (m != n || (j != k && j != k + 4)) :: t[j, m] == old(t[j, m])
  {
    hide Entry, Shift, Plus, Reversed, Index, Byte0, Down;
    EntryNext(k - 1, n);
    AtEntry(c, 0);
    d := Plus(t[0, Index(c)], Down(c));
    t[k, n], t[k + 4, n] := d, Reversed(d);
  }

  /** The other values for n. */
  method MakeRow(t: array2<bv32>, n: nat)
    requires Sized(t) && n < 256 && forall m: nat | m < 256 :: t[0, m] == Entry(0, m)
    modifies t
    ensures forall k: nat | k < 8 :: t[k, n] == Entry(k, n)
    ensures forall k: nat, m: nat | k < 8 && m < 256 && (k == 0 || m != n) :: t[k, m] == old(t[k, m])
  {
    hide Entry, Shift, Plus, Reversed, Index;
    var c := t[0, n];
    t[4, n] := Reversed(c);
    EntryNext(0, n);
    for k := 1 to 4
      invariant c == Entry(k - 1, n)
      invariant forall j: nat | j < k || 4 <= j < k + 4 :: t[j, n] == Entry(j, n)
      invariant forall j: nat, m: nat | j < 8 && m < 256 && (j == 0 || m != n) :: t[j, m] == old(t[j, m])
    {
      c := MakeNext(t, n, k, c);
    }
  }

  /** make_crc_table. */
  method MakeCrcTable() returns (t: array2<bv32>)
    ensures fresh(t) && IsTable(t)
  {
    hide Entry, Shift, Plus;
    var poly := MakePoly();
    t := new bv32[8, 256];
    for n := 0 to 256
      invariant forall m: nat | m < n :: t[0, m] == Entry(0, m)
    {
      var c := MakeEntry(poly, n);
      t[0, n] := c;
    }
    for n := 0 to 256
      invariant forall m: nat | m < 256 :: t[0, m] == Entry(0, m)
      invariant forall k: nat, m: nat | k < 8 && m < n :: t[k, m] == Entry(k, m)
    {
      MakeRow(t, n);
    }
  }

  // ---- the little-endian machine

  lemma LowBytesSum(c: bv32, b: bv32)
    requires b <= 0xff
    ensures Down(Plus(c, b)) == Down(c)
  {
  }

  lemma FeedIs(c: bv32, b: bv8)
    ensures Feed(c, b) == Plus(Shift(Byte0(Plus(c, b as bv32)), 8), Down(c))
  {
    hide Shift, Plus, Byte0, Down;
    LowBytesSum(c, b as bv32);
    ByteStep(Plus(c, b as bv32));
  }

  /** One byte. */
  method Do1(t: array2<bv32>, c: bv32, b: bv8) returns (d: bv32)
    requires IsTable(t)
    ensures d == Feed(c, b)
  {
    hide Shift, Plus, Byte0, Down, Index, Feed, Entry;
    var x := Plus(c, b as bv32);
    AtEntry(x, 0);
    FeedIs(c, b);
    d := Plus(t[0, Index(x)], Down(c));
  }

  /** DOLIT4: four bytes. */
  method DoLit4(t: array2<bv32>, c: bv32, b: seq<bv8>) returns (d: bv32)
    requires IsTable(t) && |b| == 4
    ensures d == Shift(Plus(c, Word(b)), 32)
  {
    hide Shift, Plus, Byte0, Byte1, Byte2, Byte3, Index, Entry, Word;
    var x := Plus(c, Word(b));
    WordStep(x);
    AtEntry(Byte0(x), 3);
    AtEntry(Byte1(x), 2);
    AtEntry(Byte2(x), 1);
    AtEntry(Byte3(x), 0);
    Bytewise(x);
    OneByte(Byte0(x));
    OneByte(Byte1(x));
    OneByte(Byte2(x));
    OneByte(Byte3(x));
    d := Plus(Plus(Plus(t[3, Index(Byte0(x))], t[2, Index(Byte1(x))]), t[1, Index(Byte2(x))]), t[0, Index(Byte3(x))]);
  }

  lemma OneByte(c: bv32)
    requires c <= 0xff
    ensures Byte0(c) == c
  {
  }

  /** The bytes from i to j, a word at a time. */
  method Words(t: array2<bv32>, c: bv32, buf: seq<bv8>, i: nat, j: nat, ghost c0: bv32) returns (d: bv32)
    requires IsTable(t) && i <= j <= |buf| && (j - i) % 4 == 0 && c == Register(c0, buf[..i])
    ensures d == Register(c0, buf[..j])
  {
    hide Plus, Feed, Shift, IsTable, Word;
    d := c;
    var k := i;
    while k < j
      invariant i <= k <= j && (j - k) % 4 == 0 && d == Register(c0, buf[..k])
    {
      RegisterWord(c0, buf, k);
      d := DoLit4(t, d, buf[k..k + 4]);
      k := k + 4;
    }
  }

  /** crc32_little. The buffer starts at address align. */
  method Crc32Little(t: array2<bv32>, crc: bv32, buf: seq<bv8>, align: nat) returns (r: bv32)
    requires IsTable(t)
    ensures r == Crc(crc, buf)
  {
    hide Plus, Feed, Shift, IsTable, Word, Register;
    var c := Plus(crc, ONES);
    RegisterNone(c, buf);
    ghost var c0 := c;
    var i := 0;
    while i < |buf| && (align + i) % 4 != 0
      invariant i <= |buf| && c == Register(c0, buf[..i])
    {
      RegisterNext(c0, buf, i);
      c := Do1(t, c, buf[i]);
      i := i + 1;
    }
    while |buf| - i >= 32
      invariant i <= |buf| && c == Register(c0, buf[..i])
    {
      c := Words(t, c, buf, i, i + 32, c0);
      i := i + 32;
    }
    while |buf| - i >= 4
      invariant i <= |buf| && c == Register(c0, buf[..i])
    {
      c := Words(t, c, buf, i, i + 4, c0);
      i := i + 4;
    }
    while i < |buf|
      invariant i <= |buf| && c == Register(c0, buf[..i])
    {
      RegisterNext(c0, buf, i);
      c := Do1(t, c, buf[i]);
      i := i + 1;
    }
    r := Plus(c, ONES);
  }

  // ---- the big-endian machine, whose register has its bytes in reverse

  lemma ReversedSum(a: bv32, b: bv32)
    ensures Reversed(a ^ b) == Reversed(a) ^ Reversed(b)
  {
  }

  lemma ReversedPlus(a: bv32, b: bv32)
    ensures Reversed(Plus(a, b)) == Plus(Reversed(a), Reversed(b))
  {
    ReversedSum(a, b);
  }

  lemma ReversedTwice(w: bv32)
    ensures Reversed(Reversed(w)) == w && Reversed(ONES) == ONES
  {
  }

  lemma ReversedBytes(w: bv32)
    ensures Byte0(Reversed(w)) == Byte3(w) && Byte1(Reversed(w)) == Byte2(w)
    ensures Byte2(Reversed(w)) == Byte1(w) && Byte3(Reversed(w)) == Byte0(w)
  {
  }

  function Up(w: bv32): bv32 { w << 8 }

  lemma ReversedShift(w: bv32)
    ensures ((w >> 8) >> 24) + (((w >> 8) >> 8) & 0xff00) + (((w >> 8) & 0xff00) << 8) + (((w >> 8) & 0xff) << 24)
         == ((w >> 24) + ((w >> 8) & 0xff00) + ((w & 0xff00) << 8) + ((w & 0xff) << 24)) << 8
  {
  }

  lemma ReversedShifted(w: bv32)
    ensures Reversed(w >> 8) == Reversed(w) << 8
  {
    ReversedShift(w);
  }

  lemma ReversedDown(w: bv32)
    ensures Reversed(Down(w)) == Up(Reversed(w))
  {
    hide Reversed;
    ReversedShifted(w);
  }

  lemma FirstByteSum(c: bv32, b: bv32)
    requires b <= 0xff
    ensures Byte0(Plus(c, b)) == Plus(Byte0(c), b) <= 0xff
  {
  }

  /** What a big-endian machine reads at four bytes. */
  function BigWord(b: seq<bv8>): bv32
    requires |b| == 4
  {
    Plus(Plus(Plus((b[0] as bv32) << 24, (b[1] as bv32) << 16), (b[2] as bv32) << 8), b[3] as bv32)
  }

  lemma ReversedPart0(b: bv32)
    requires b <= 0xff
    ensures Reversed(b) == b << 24
  {
  }

  lemma ReversedPart1(b: bv32)
    requires b <= 0xff
    ensures Reversed(b << 8) == b << 16
  {
  }

  lemma ReversedPart2(b: bv32)
    requires b <= 0xff
    ensures Reversed(b << 16) == b << 8
  {
  }

  lemma ReversedPart3(b: bv32)
    requires b <= 0xff
    ensures Reversed(b << 24) == b
  {
  }

  lemma ReversedFour(a: bv32, b: bv32, c: bv32, d: bv32)
    ensures Reversed(Plus(Plus(Plus(a, b), c), d)) == Plus(Plus(Plus(Reversed(a), Reversed(b)), Reversed(c)), Reversed(d))
  {
    hide Plus, Reversed;
    ReversedPlus(Plus(Plus(a, b), c), d);
    ReversedPlus(Plus(a, b), c);
    ReversedPlus(a, b);
  }

  lemma ReversedSums(a: bv32, b: bv32, c: bv32, d: bv32)
    requires a <= 0xff && b <= 0xff && c <= 0xff && d <= 0xff
    ensures Reversed(Plus(Plus(Plus(a, b << 8), c << 16), d << 24)) == Plus(Plus(Plus(a << 24, b << 16), c << 8), d)
  {
    hide Plus, Reversed;
    ReversedFour(a, b << 8, c << 16, d << 24);
    ReversedPart0(a);
    ReversedPart1(b);
    ReversedPart2(c);
    ReversedPart3(d);
  }

  lemma BigWordIs(b: seq<bv8>)
    requires |b| == 4
    ensures BigWord(b) == Reversed(Word(b))
  {
    hide Plus, Reversed;
    ReversedSums(b[0] as bv32, b[1] as bv32, b[2] as bv32, b[3] as bv32);
  }

  /** One byte. */
  method DoBig1(t: array2<bv32>, d: bv32, b: bv8, ghost c: bv32) returns (e: bv32)
    requires IsTable(t) && d == Reversed(c)
    ensures e == Reversed(Feed(c, b))
  {
    hide Shift, Plus, Byte0, Byte3, Down, Up, Index, Feed, Entry, Reversed;
    var x := Plus(Byte3(d), b as bv32);
    ReversedBytes(c);
    FirstByteSum(c, b as bv32);
    OneByte(x);
    AtEntry(x, 0);
    FeedIs(c, b);
    ReversedPlus(Shift(x, 8), Down(c));
    ReversedDown(c);
    e := Plus(t[4, Index(x)], Up(d));
  }

  lemma Backwards(a: bv32, b: bv32, c: bv32, d: bv32)
    ensures Plus(Plus(Plus(a, b), c), d) == Plus(Plus(Plus(d, c), b), a)
  {
    hide Plus;
    Commutes(a, b);
    Commutes(Plus(b, a), c);
    Associates(c, b, a);
    Commutes(Plus(Plus(c, b), a), d);
    Associates(d, Plus(c, b), a);
    Associates(d, c, b);
  }

  /** DOBIG4: four bytes. */
  method DoBig4(t: array2<bv32>, d: bv32, b: seq<bv8>, ghost c: bv32) returns (e: bv32)
    requires IsTable(t) && |b| == 4 && d == Reversed(c)
    ensures e == Reversed(Shift(Plus(c, Word(b)), 32))
  {
    hide Shift, Plus, Byte0, Byte1, Byte2, Byte3, Index, Entry, Word, BigWord, Reversed;
    var x := Plus(d, BigWord(b));
    BigWordIs(b);
    ghost var y := Plus(c, Word(b));
    ReversedPlus(c, Word(b));
    ReversedBytes(y);
    Bytewise(y);
    var x0, x1, x2, x3 := Byte0(x), Byte1(x), Byte2(x), Byte3(x);
    OneByte(x0);
    OneByte(x1);
    OneByte(x2);
    OneByte(x3);
    AtEntry(x0, 0);
    AtEntry(x1, 1);
    AtEntry(x2, 2);
    AtEntry(x3, 3);
    e := Plus(Plus(Plus(t[4, Index(x0)], t[5, Index(x1)]), t[6, Index(x2)]), t[7, Index(x3)]);
    ReversedStep(y);
  }

  lemma ReversedStep(y: bv32)
    ensures Reversed(Shift(y, 32)) ==
      Plus(Plus(Plus(Reversed(Shift(Byte3(y), 8)), Reversed(Shift(Byte2(y), 16))), Reversed(Shift(Byte1(y), 24))), Reversed(Shift(Byte0(y), 32)))
  {
    hide Shift, Plus, Byte0, Byte1, Byte2, Byte3, Reversed;
    WordStep(y);
    var a, b, c, d := Shift(Byte0(y), 32), Shift(Byte1(y), 24), Shift(Byte2(y), 16), Shift(Byte3(y), 8);
    ReversedFour(a, b, c, d);
    Backwards(Reversed(a), Reversed(b), Reversed(c), Reversed(d));
  }

  method BigWords(t: array2<bv32>, d: bv32, buf: seq<bv8>, i: nat, j: nat, ghost c0: bv32) returns (e: bv32)
    requires IsTable(t) && i <= j <= |buf| && (j - i) % 4 == 0 && d == Reversed(Register(c0, buf[..i]))
    ensures e == Reversed(Register(c0, buf[..j]))
  {
    hide Plus, Feed, Shift, IsTable, Word, Reversed;
    e := d;
    var k := i;
    while k < j
      invariant i <= k <= j && (j - k) % 4 == 0 && e == Reversed(Register(c0, buf[..k]))
    {
      RegisterWord(c0, buf, k);
      e := DoBig4(t, e, buf[k..k + 4], Register(c0, buf[..k]));
      k := k + 4;
    }
  }

  method Start(crc: bv32) returns (d: bv32)
    ensures d == Reversed(Plus(crc, ONES))
  {
    hide Plus, Reversed;
    ReversedPlus(crc, ONES);
    ReversedTwice(crc);
    d := Plus(Reversed(crc), ONES);
  }

  method Finish(d: bv32, ghost c0: bv32, ghost buf: seq<bv8>) returns (r: bv32)
    requires d == Reversed(Register(c0, buf))
    ensures r == Plus(Register(c0, buf), ONES)
  {
    hide Plus, Feed, Reversed;
    ghost var c := Register(c0, buf);
    ReversedPlus(c, ONES);
    ReversedTwice(Plus(c, ONES));
    r := Reversed(Plus(d, ONES));
  }

  /** crc32_big. */
  method Crc32Big(t: array2<bv32>, crc: bv32, buf: seq<bv8>, align: nat) returns (r: bv32)
    requires IsTable(t)
    ensures r == Crc(crc, buf)
  {
    hide Plus, Feed, Shift, IsTable, Word, Reversed, Register;
    ghost var c0 := Plus(crc, ONES);
    RegisterNone(c0, buf);
    var d := Start(crc);
    var i := 0;
    while i < |buf| && (align + i) % 4 != 0
      invariant i <= |buf| && d == Reversed(Register(c0, buf[..i]))
    {
      RegisterNext(c0, buf, i);
      d := DoBig1(t, d, buf[i], Register(c0, buf[..i]));
      i := i + 1;
    }
    while |buf| - i >= 32
      invariant i <= |buf| && d == Reversed(Register(c0, buf[..i]))
    {
      d := BigWords(t, d, buf, i, i + 32, c0);
      i := i + 32;
    }
    while |buf| - i >= 4
      invariant i <= |buf| && d == Reversed(Register(c0, buf[..i]))
    {
      d := BigWords(t, d, buf, i, i + 4, c0);
      i := i + 4;
    }
    while i < |buf|
      invariant i <= |buf| && d == Reversed(Register(c0, buf[..i]))
    {
      RegisterNext(c0, buf, i);
      d := DoBig1(t, d, buf[i], Register(c0, buf[..i]));
      i := i + 1;
    }
    r := Finish(d, c0, buf);
  }

  /** crc32, a byte at a time or a word at a time. */
  method Crc32(t: array2<bv32>, crc: bv32, buf: seq<bv8>, byFour: bool, little: bool, align: nat) returns (r: bv32)
    requires IsTable(t)
    ensures r == Crc(crc, buf)
  {
    hide Plus, Feed, IsTable, Register;
    if byFour {
      if little {
        r := Crc32Little(t, crc, buf, align);
      } else {
        r := Crc32Big(t, crc, buf, align);
      }
      return;
    }
    var c := Plus(crc, ONES);
    RegisterNone(c, buf);
    ghost var c0 := c;
    var i := 0;
    while |buf| - i >= 8
      invariant i <= |buf| && c == Register(c0, buf[..i])
    {
      for k := 0 to 8
        invariant i + 8 <= |buf| && c == Register(c0, buf[..i + k])
      {
        RegisterNext(c0, buf, i + k);
        c := Do1(t, c, buf[i + k]);
      }
      i := i + 8;
    }
    while i < |buf|
      invariant i <= |buf| && c == Register(c0, buf[..i])
    {
      RegisterNext(c0, buf, i);
      c := Do1(t, c, buf[i]);
      i := i + 1;
    }
    r := Plus(c, ONES);
  }

  // ---- concatenation

  lemma {:induction false} RegisterLinear(c: bv32, d: bv32, buf: seq<bv8>)
    ensures Register(Plus(c, d), buf) == Plus(Shift(c, 8 * |buf|), Register(d, buf))
    decreases |buf|
  {
    hide Shift, Plus;
    if |buf| == 0 {
      ShiftNone(c);
    } else {
      var n := |buf| - 1;
      RegisterLinear(c, d, buf[..n]);
      var e, b := Register(d, buf[..n]), buf[n] as bv32;
      ShiftMore(c, 8 * n, 8);
      Associates(Shift(c, 8 * n), e, b);
      ShiftLinear(Shift(c, 8 * n), Plus(e, b), 8);
    }
  }

  lemma {:induction false} RegisterAppend(c: bv32, x: seq<bv8>, y: seq<bv8>)
    ensures Register(c, x + y) == Register(Register(c, x), y)
    decreases |y|
  {
    hide Feed;
    if |y| == 0 {
      assert x + y == x;
    } else {
      RegisterAppend(c, x, y[..|y| - 1]);
      assert (x + y)[..|x + y| - 1] == x + y[..|y| - 1];
    }
  }

  /** A running check value may be continued anywhere. */
  lemma CrcAppend(crc: bv32, x: seq<bv8>, y: seq<bv8>)
    ensures Crc(Crc(crc, x), y) == Crc(crc, x + y)
  {
    hide Register, Plus;
    var c := Plus(crc, ONES);
    RegisterAppend(c, x, y);
    Cancels(Register(c, x), ONES);
  }

  /** The first check value shifted by the length of the second string; after an empty string the second check value
      is not looked at. */
  function Combined(crc1: bv32, crc2: bv32, len2: nat): bv32 { if len2 == 0 then crc1 else Plus(Shift(crc1, 8 * len2), crc2) }

  lemma CombineIsConcatenation(crc: bv32, x: seq<bv8>, y: seq<bv8>)
    ensures Combined(Crc(crc, x), Crc(0, y), |y|) == Crc(crc, x + y)
  {
    hide Register, Plus, Shift;
    CrcAppend(crc, x, y);
    if |y| == 0 {
      assert x + y == x;
      return;
    }
    var c := Crc(crc, x);
    RegisterLinear(c, ONES, y);
    Cancels(ONES, 0);
    Associates(Shift(c, 8 * |y|), Register(ONES, y), ONES);
  }

  // ---- matrices over GF(2)

  const GF2_DIM: nat := 32

  function Twice(w: bv32): bv32 { w << 1 }
  function Half(w: bv32): bv32 { w >> 1 }

  /** v times two to the i. */
  function Raised(v: bv32, i: nat): bv32 { if i == 0 then v else Twice(Raised(v, i - 1)) }

  /** What is left of all ones after i bits have been shifted out. */
  function Ceiling(i: nat): bv32 { if i == 0 then ONES else Half(Ceiling(i - 1)) }

  /** The operator for n zero bits: column i is what it makes of bit i. */
  ghost predicate Represents(mat: seq<bv32>, n: nat) {
    |mat| == GF2_DIM && forall i: nat | i < GF2_DIM :: mat[i] == Shift(Raised(1, i), n)
  }

  lemma TwiceSum(a: bv32, b: bv32)
    ensures Twice(Plus(a, b)) == Plus(Twice(a), Twice(b))
  {
  }

  lemma {:induction false} RaisedLinear(a: bv32, b: bv32, i: nat)
    ensures Raised(Plus(a, b), i) == Plus(Raised(a, i), Raised(b, i))
  {
    hide Plus, Twice;
    if i > 0 {
      RaisedLinear(a, b, i - 1);
      TwiceSum(Raised(a, i - 1), Raised(b, i - 1));
    }
  }

  lemma {:induction false} RaisedTwice(v: bv32, i: nat)
    ensures Raised(Twice(v), i) == Raised(v, i + 1)
  {
    hide Twice;
    if i > 0 {
      RaisedTwice(v, i - 1);
    }
  }

  lemma TwiceZero()
    ensures Twice(0) == 0
  {
  }

  lemma {:induction false} RaisedZero(i: nat)
    ensures Raised(0, i) == 0
  {
    hide Twice;
    TwiceZero();
    if i > 0 {
      RaisedZero(i - 1);
    }
  }

  lemma LastBit(v: bv32)
    ensures v == if v & 1 == 1 then Plus(1, Twice(Half(v))) else Twice(Half(v))
  {
  }

  lemma HalfMonotone(v: bv32, c: bv32)
    requires v <= c
    ensures Half(v) <= Half(c)
  {
  }

  /** Thirty-two shifts leave nothing. */
  lemma CeilingLast()
    ensures Ceiling(31) == 1 && Ceiling(32) == 0
  {
    assert Ceiling(2) == 0x3fffffff;
    assert Ceiling(4) == 0x0fffffff;
    assert Ceiling(6) == 0x03ffffff;
    assert Ceiling(8) == 0x00ffffff;
    assert Ceiling(10) == 0x003fffff;
    assert Ceiling(12) == 0x000fffff;
    assert Ceiling(14) == 0x0003ffff;
    assert Ceiling(16) == 0x0000ffff;
    assert Ceiling(18) == 0x00003fff;
    assert Ceiling(20) == 0x00000fff;
    assert Ceiling(22) == 0x000003ff;
    assert Ceiling(24) == 0x000000ff;
    assert Ceiling(26) == 0x0000003f;
    assert Ceiling(28) == 0x0000000f;
    assert Ceiling(30) == 0x00000003;
  }

  /** One column of the product. */
  lemma TimesStep(v: bv32, i: nat, n: nat)
    ensures Shift(Raised(v, i), n) == if v & 1 == 1 then Plus(Shift(Raised(1, i), n), Shift(Raised(Half(v), i + 1), n)) else Shift(Raised(Half(v), i + 1), n)
  {
    hide Plus, Twice, Half, Shift, Raised;
    LastBit(v);
    RaisedTwice(Half(v), i);
    RaisedLinear(1, Twice(Half(v)), i);
    ShiftLinear(Raised(1, i), Raised(Half(v), i + 1), n);
  }

  lemma NoneLeft(i: nat, n: nat)
    ensures Shift(Raised(0, i), n) == 0
  {
    RaisedZero(i);
    ShiftZero(n);
  }

  predicate Odd(v: bv32) { v & 1 == 1 }

  predicate Bounded(v: bv32, i: nat) { v <= Ceiling(i) }

  /** What is left of vec after i bits is v, and its part of the product is missing in sum. */
  ghost predicate Left(v: bv32, i: nat, sum: bv32, vec: bv32, n: nat) {
    Bounded(v, i) && Plus(sum, Shift(Raised(v, i), n)) == Shift(vec, n)
  }

  lemma StillBounded(v: bv32, i: nat)
    requires Bounded(v, i) && v != 0
    ensures i < GF2_DIM && Bounded(Half(v), i + 1)
  {
    hide Half, Ceiling;
    InRange(v, i);
  }

  lemma StillLeft(v: bv32, i: nat, sum: bv32, vec: bv32, n: nat)
    requires Left(v, i, sum, vec, n) && v != 0
    ensures i < GF2_DIM
    ensures Odd(v) ==> Left(Half(v), i + 1, Plus(sum, Shift(Raised(1, i), n)), vec, n)
    ensures !Odd(v) ==> Left(Half(v), i + 1, sum, vec, n)
  {
    hide Plus, Half, Shift, Raised, Bounded, Odd;
    StillBounded(v, i);
    TimesNext(v, i, n);
    Associates(sum, Shift(Raised(1, i), n), Shift(Raised(Half(v), i + 1), n));
  }

  lemma NothingLeft(i: nat, sum: bv32, vec: bv32, n: nat)
    requires Left(0, i, sum, vec, n)
    ensures sum == Shift(vec, n)
  {
    hide Plus, Shift, Raised, Bounded;
    NoneLeft(i, n);
    Cancels(sum, 0);
  }

  /** gf2_matrix_times. */
  method MatrixTimes(mat: array<bv32>, vec: bv32, ghost n: nat) returns (sum: bv32)
    requires Represents(mat[..], n)
    ensures sum == Shift(vec, n)
  {
    hide Plus, Half, Shift, Raised, Odd, Left;
    sum := 0;
    var v, i := vec, 0;
    TimesStart(vec, n);
    while v != 0
      invariant i <= GF2_DIM && Left(v, i, sum, vec, n)
      decreases GF2_DIM - i
    {
      StillLeft(v, i, sum, vec, n);
      assert mat[..][i] == mat[i];
      if Odd(v) {
        sum := Plus(sum, mat[i]);
      }
      v, i := Half(v), i + 1;
    }
    NothingLeft(i, sum, vec, n);
  }

  lemma TimesStart(vec: bv32, n: nat)
    ensures Left(vec, 0, 0, vec, n)
  {
    hide Shift, Plus;
    Cancels(Shift(vec, n), 0);
  }

  lemma {:induction false} CeilingNone(i: nat)
    requires i >= 32
    ensures Ceiling(i) == 0
  {
    hide Half;
    if i == 32 {
      CeilingLast();
    } else {
      CeilingNone(i - 1);
      HalfZero();
    }
  }

  lemma HalfZero()
    ensures Half(0) == 0
  {
  }

  lemma InRange(v: bv32, i: nat)
    requires v <= Ceiling(i) && v != 0
    ensures i < GF2_DIM && Half(v) <= Ceiling(i + 1)
  {
    hide Half;
    HalfMonotone(v, Ceiling(i));
    if i >= 32 {
      CeilingNone(i);
    }
  }

  lemma TimesNext(v: bv32, i: nat, n: nat)
    ensures var r := Shift(Raised(Half(v), i + 1), n);
      Shift(Raised(v, i), n) == if Odd(v) then Plus(Shift(Raised(1, i), n), r) else r
  {
    hide Plus, Half, Shift, Raised;
    TimesStep(v, i, n);
  }

  /** gf2_matrix_square. */
  method MatrixSquare(square: array<bv32>, mat: array<bv32>, ghost n: nat)
    requires Represents(mat[..], n) && square.Length == GF2_DIM && square != mat
    modifies square
    ensures Represents(square[..], 2 * n)
  {
    hide Shift, Raised;
    for i := 0 to GF2_DIM
      invariant forall j: nat | j < i :: square[j] == Shift(Raised(1, j), 2 * n)
    {
      assert mat[..][i] == mat[i];
      ShiftMore(Raised(1, i), n, n);
      square[i] := MatrixTimes(mat, mat[i], n);
    }
  }

  lemma {:induction false} UnitFits(i: nat)
    requires i <= 31
    ensures Raised(1, i) <= Ceiling(31 - i)
  {
    hide Twice, Half;
    if i == 0 {
      CeilingLast();
    } else {
      UnitFits(i - 1);
      HalfTwice(Raised(1, i - 1), Ceiling(31 - i));
    }
  }

  lemma HalfTwice(u: bv32, c: bv32)
    requires u <= Half(c)
    ensures Twice(u) <= c && u <= 0x7fffffff
  {
  }

  /** The operator for one zero bit. */
  lemma OneZeroBit(i: nat)
    requires i < GF2_DIM
    ensures Shift(Raised(1, i), 1) == if i == 0 then POLY else Raised(1, i - 1)
  {
    hide Twice, Half, TimesX, Shift;
    ShiftLast(Raised(1, i), 0);
    ShiftNone(Raised(1, i));
    if i == 0 {
      OneTimesX();
    } else {
      UnitFits(i - 1);
      HalfTwice(Raised(1, i - 1), Ceiling(31 - i));
      DoubledIs(Raised(1, i - 1));
    }
  }

  lemma OneTimesX()
    ensures TimesX(1) == POLY
  {
  }

  lemma DoubledIs(c: bv32)
    requires c <= 0x7fffffff
    ensures TimesX(Twice(c)) == c
  {
    Doubled(c);
  }

  /** The operator for one zero bit. */
  method MakeOdd(odd: array<bv32>)
    requires odd.Length == GF2_DIM
    modifies odd
    ensures Represents(odd[..], 1)
  {
    hide Shift, Twice;
    odd[0] := POLY;
    OneZeroBit(0);
    var row: bv32 := 1;
    for n := 1 to GF2_DIM
      invariant row == Raised(1, n - 1)
      invariant forall j: nat | j < n :: odd[j] == Shift(Raised(1, j), 1)
    {
      OneZeroBit(n);
      odd[n] := row;
      row := Twice(row);
    }
  }


  /** The shift by len times w steps. */
  ghost function ShiftTimes(c: bv32, len: nat, w: nat): bv32 { Shift(c, len * w) }

  /** One bit of len. */
  lemma ShiftBit(c: bv32, len: nat, w: nat)
    ensures ShiftTimes(c, len, w) == ShiftTimes(if len % 2 == 1 then Shift(c, w) else c, len / 2, 2 * w)
    ensures ShiftTimes(c, 0, w) == c
  {
    hide Shift;
    ShiftNone(c);
    LowBitOf(len, w);
    if len % 2 == 1 {
      ShiftMore(c, w, len / 2 * (2 * w));
    }
  }

  lemma LowBitOf(len: nat, w: nat)
    ensures len * w == (if len % 2 == 1 then w else 0) + len / 2 * (2 * w)
  {
    assert len == len % 2 + len / 2 * 2;
  }

  /** Squares the operator, and applies it if the last bit of len is set. */
  method Apply(square: array<bv32>, mat: array<bv32>, crc: bv32, len: nat, ghost n: nat) returns (r: bv32)
    requires Represents(mat[..], n) && square.Length == GF2_DIM && square != mat
    modifies square
    ensures Represents(square[..], 2 * n) && ShiftTimes(r, len / 2, 4 * n) == ShiftTimes(crc, len, 2 * n)
  {
    hide Shift, Represents, ShiftTimes;
    MatrixSquare(square, mat, n);
    ShiftBit(crc, len, 2 * n);
    r := crc;
    if len % 2 == 1 {
      r := MatrixTimes(square, crc, 2 * n);
    }
  }

  /** The zeros operators by repeated squaring, applied for each bit of len2. */
  method ShiftZeros(crc1: bv32, len2: nat, even: array<bv32>, odd: array<bv32>) returns (r: bv32)
    requires len2 > 0 && even.Length == odd.Length == GF2_DIM && even != odd && Represents(odd[..], 4)
    modifies even, odd
    ensures r == Shift(crc1, 8 * len2)
  {
    hide Shift, Represents, ShiftTimes;
    r := crc1;
    var len := len2;
    ghost var z: nat := 4;
    while len != 0
      invariant Represents(odd[..], z) && ShiftTimes(r, len, 2 * z) == ShiftTimes(crc1, len2, 8) && (len == 0 ==> r == ShiftTimes(crc1, len2, 8))
      decreases len
    {
      r := Apply(even, odd, r, len, z);
      len := len / 2;
      if len == 0 {
        ShiftBit(r, 0, 4 * z);
        break;
      }
      r := Apply(odd, even, r, len, 2 * z);
      len := len / 2;
      z := 4 * z;
      ShiftBit(r, 0, 2 * z);
    }
    EightTimes(crc1, len2);
  }

  lemma EightTimes(c: bv32, len: nat)
    ensures ShiftTimes(c, len, 8) == Shift(c, 8 * len)
  {
    hide Shift;
  }

  /** crc32_combine. */
  method Crc32Combine(crc1: bv32, crc2: bv32, len2: nat) returns (r: bv32)
    ensures r == Combined(crc1, crc2, len2)
  {
    hide Shift, Plus, Represents;
    if len2 == 0 {
      return crc1;
    }
    var even, odd := new bv32[GF2_DIM], new bv32[GF2_DIM];
    MakeOdd(odd);
    MatrixSquare(even, odd, 1);
    MatrixSquare(odd, even, 2);
    r := ShiftZeros(crc1, len2, even, odd);
    r := Plus(r, crc2);
  }
}
