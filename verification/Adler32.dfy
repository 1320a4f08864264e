/** The Adler-32 checksum (section 9 of RFC 1950): deferred modulo, and combination of two checksums. */
module Adler32 {
  import opened Bits

  const BASE: nat := 65521
  const NMAX: nat := 5552

  // ---- which numbers these are

  ghost predicate Divides(d: nat, n: nat)
    requires d > 0
  {
    n % d == 0
  }

  ghost predicate Prime(n: nat) { n >= 2 && forall d: nat | 2 <= d < n :: !Divides(d, n) }

  lemma SmallDivisor(d: nat)
    requires 2 <= d < 256
    ensures !Divides(d, 65521)
  {
  }

  /** A divisor above 2^8 comes with one below. */
  lemma BaseIsPrime()
    ensures Prime(BASE)
  {
    forall d: nat | 2 <= d < BASE ensures !Divides(d, BASE) {
      if d < 256 {
        SmallDivisor(d);
      } else if Divides(d, BASE) {
        hide Divides;
        var q := Quotient(BASE, d);
        if q >= 256 {
          MulMono(256, q, d);
        } else if q > 1 {
          SmallDivisor(q);
        }
      }
    }
  }

  lemma Quotient(n: nat, d: nat) returns (q: nat)
    requires d > 0 && Divides(d, n) && n > 0
    ensures n == q * d && q > 0 && Divides(q, n)
  {
    q := n / d;
    assert n == q * d;
    DivMod(n, q, d, 0);
  }

  /** BASE is the largest prime below 65536. */
  lemma BaseIsGreatestPrime()
    ensures Prime(BASE) && BASE < 65536 && forall n: nat | BASE < n < 65536 :: !Prime(n)
  {
    BaseIsPrime();
    forall n: nat | BASE < n < 65536 ensures !Prime(n) {
      assert Divides(2, n) || Divides(3, n) || Divides(5, n) || Divides(7, n) || Divides(13, n) || Divides(19, n);
    }
  }

  /** NMAX is the largest n for which n bytes after a reduction cannot pass 2^32 - 1. */
  lemma NmaxIsGreatest(n: nat)
    ensures n <= NMAX <==> 255 * n * (n + 1) / 2 + (n + 1) * (BASE - 1) <= 0xffffffff
  {
    if n <= NMAX {
      MulMono(n, NMAX, 255 * (n + 1));
      MulMono(n + 1, NMAX + 1, 255 * NMAX);
    } else {
      MulMono(NMAX + 1, n, 255 * (n + 1));
      MulMono(NMAX + 2, n + 1, 255 * (NMAX + 1));
    }
  }

  /** The two component sums. */
  datatype Sums = Sums(a: nat, b: nat)

  /** The definition: both sums reduced after every byte. */
  function Update(s: Sums, buf: seq<byte>): Sums
    decreases |buf|
  {
    if |buf| == 0 then s
    else
      var t := Update(s, buf[..|buf| - 1]);
      var a := (t.a + buf[|buf| - 1]) % BASE;
      Sums(a, (t.b + a) % BASE)
  }

  function Adler(buf: seq<byte>): Sums { Update(Sums(1, 0), buf) }

  function Pack(s: Sums): nat { s.a + 65536 * s.b }

  predicate InRange(s: Sums) { s.a < BASE && s.b < BASE }

  /** The sums without any reduction. */
  function Raw(s: Sums, buf: seq<byte>): Sums
    decreases |buf|
  {
    if |buf| == 0 then s
    else
      var t := Raw(s, buf[..|buf| - 1]);
      var a := t.a + buf[|buf| - 1];
      Sums(a, t.b + a)
  }

  function Reduce(s: Sums): Sums { Sums(s.a % BASE, s.b % BASE) }

  lemma ModAdd(x: nat, y: nat)
    ensures (x % BASE + y) % BASE == (x + y) % BASE
  {
  }

  /** Reducing only at the end gives the definition. */
  lemma {:induction false} RawReduces(s: Sums, t: Sums, buf: seq<byte>)
    requires Reduce(s) == t
    ensures Reduce(Raw(s, buf)) == Update(t, buf)
    decreases |buf|
  {
    if |buf| > 0 {
      var r, u := Raw(s, buf[..|buf| - 1]), Update(t, buf[..|buf| - 1]);
      RawReduces(s, t, buf[..|buf| - 1]);
      var a := r.a + buf[|buf| - 1];
      ModAdd(r.a, buf[|buf| - 1]);
      ModAdd(r.b, a % BASE);
      ModAdd(a, r.b);
    }
  }

  function Triangle(n: nat): nat { if n == 0 then 0 else Triangle(n - 1) + n }

  lemma {:induction false} TriangleFormula(n: nat)
    ensures 2 * Triangle(n) == n * (n + 1)
  {
    if n > 0 {
      TriangleFormula(n - 1);
    }
  }

  /** How far the raw sums can grow over n bytes. */
  lemma {:induction false} RawBound(s: Sums, buf: seq<byte>)
    ensures s.a <= Raw(s, buf).a <= s.a + 255 * |buf|
    ensures s.b <= Raw(s, buf).b <= s.b + |buf| * s.a + 255 * Triangle(|buf|)
    decreases |buf|
  {
    if |buf| > 0 {
      RawBound(s, buf[..|buf| - 1]);
      MulAdd(|buf| - 1, 1, s.a);
    }
  }

  /** NMAX bytes after a reduction fit in 32 bits. */
  lemma RawFits(s: Sums, buf: seq<byte>)
    requires InRange(s) && |buf| <= NMAX
    ensures Raw(s, buf).a <= 0xffffffff && Raw(s, buf).b <= 0xffffffff
  {
    RawBound(s, buf);
    TriangleFormula(|buf|);
    MulMono(|buf|, NMAX, |buf| + 1);
    MulMono(|buf|, NMAX, s.a);
  }

  lemma {:induction false} RawAppend(s: Sums, x: seq<byte>, y: seq<byte>)
    ensures Raw(s, x + y) == Raw(Raw(s, x), y)
    decreases |y|
  {
    if |y| == 0 {
      assert x + y == x;
    } else {
      RawAppend(s, x, y[..|y| - 1]);
      assert (x + y)[..|x + y| - 1] == x + y[..|y| - 1];
    }
  }

  lemma {:induction false} UpdateAppend(s: Sums, x: seq<byte>, y: seq<byte>)
    ensures Update(s, x + y) == Update(Update(s, x), y)
    decreases |y|
  {
    if |y| == 0 {
      assert x + y == x;
    } else {
      UpdateAppend(s, x, y[..|y| - 1]);
      assert (x + y)[..|x + y| - 1] == x + y[..|y| - 1];
    }
  }

  lemma UpdateInRange(s: Sums, buf: seq<byte>)
    requires InRange(s)
    ensures InRange(Update(s, buf)) && Reduce(s) == s
  {
    ModSmall(s.a);
    ModSmall(s.b);
    RawReduces(s, s, buf);
  }

  /** A packed check value unpacks, and may be continued. */
  lemma AdlerMore(x: seq<byte>, y: seq<byte>)
    ensures var a := Pack(Adler(x)); Sums(a % 65536, a / 65536) == Adler(x) && InRange(Adler(x))
    ensures Adler(x + y) == Update(Adler(x), y)
  {
    UpdateInRange(Sums(1, 0), x);
    UpdateAppend(Sums(1, 0), x, y);
  }

  lemma ModSmall(x: nat)
    requires x < BASE
    ensures x % BASE == x
  {
  }

  /** Adds the bytes buf[from..to] to the sums, without reduction; every intermediate sum fits in 32 bits
      as long as no more than NMAX bytes have been added since the sums were in range. */
  method Accumulate(s: Sums, buf: seq<byte>, from: nat, to: nat, ghost start: Sums, ghost since: nat) returns (r: Sums)
    requires since <= from <= to <= |buf| && to - since <= NMAX
    requires InRange(start) && s == Raw(start, buf[since..from])
    ensures r == Raw(start, buf[since..to])
  {
    r := s;
    var i := from;
    while i < to
      invariant from <= i <= to
      invariant r == Raw(start, buf[since..i])
    {
      var a := r.a + buf[i];
      var b := r.b + a;
      assert buf[since..i + 1][..i - since] == buf[since..i];
      RawFits(start, buf[since..i + 1]);
      assert a <= 0xffffffff && b <= 0xffffffff;
      r := Sums(a, b);
      i := i + 1;
    }
  }

  /** The path for one byte: two conditional subtractions. */
  method AdlerByte(s: Sums, buf: seq<byte>) returns (r: Sums)
    requires InRange(s) && |buf| == 1
    ensures r == Update(s, buf)
  {
    SingleByte(s, buf);
    var a := s.a + buf[0];
    if a >= BASE {
      a := a - BASE;
    }
    var b := s.b + a;
    if b >= BASE {
      b := b - BASE;
    }
    r := Sums(a, b);
  }

  /** The path for fewer than 16 bytes: the first sum needs one conditional subtraction only. */
  method AdlerShort(s: Sums, buf: seq<byte>) returns (r: Sums)
    requires InRange(s) && |buf| < 16
    ensures r == Update(s, buf)
  {
    hide Update, Raw;
    RawEmpty(s);
    r := Accumulate(s, buf, 0, |buf|, s, 0);
    ShortRun(s, buf);
    assert buf[0..|buf|] == buf;
    var a := r.a;
    if a >= BASE {
      a := a - BASE;
    }
    r := Sums(a, r.b % BASE);
  }

  /** Adds buf[i..j] sixteen bytes at a time, the odd bytes last, and reduces once. */
  method AdlerBlock(s: Sums, buf: seq<byte>, i: nat, j: nat) returns (r: Sums)
    requires InRange(s) && i <= j <= |buf| && j - i <= NMAX
    ensures r == Update(s, buf[i..j])
  {
    hide Update, Raw, Reduce;
    var k := i;
    r := s;
    RawEmpty(s);
    while j - k >= 16
      invariant i <= k <= j
      invariant r == Raw(s, buf[i..k])
    {
      r := Accumulate(r, buf, k, k + 16, s, i);
      k := k + 16;
    }
    r := Accumulate(r, buf, k, j, s, i);
    r := Reduce(r);
    UpdateInRange(s, buf[i..j]);
    RawReduces(s, s, buf[i..j]);
  }

  method AdlerLong(s: Sums, buf: seq<byte>) returns (r: Sums)
    requires InRange(s)
    ensures r == Update(s, buf)
  {
    hide Update;
    var i: nat := 0;
    r := s;
    UpdateEmpty(s);
    while |buf| - i >= NMAX
      invariant i <= |buf|
      invariant InRange(r) && r == Update(s, buf[..i])
    {
      BlockDone(s, buf, i, i + NMAX);
      r := AdlerBlock(r, buf, i, i + NMAX);
      i := i + NMAX;
    }
    if i < |buf| {
      BlockDone(s, buf, i, |buf|);
      r := AdlerBlock(r, buf, i, |buf|);
    }
    assert buf[..|buf|] == buf;
  }

  /** adler32: the packed checksum after buf, from a packed checksum with both halves in range. */
  method Adler32(adler: nat, buf: seq<byte>) returns (r: nat)
    requires InRange(Sums(adler % 65536, adler / 65536))
    ensures r == Pack(Update(Sums(adler % 65536, adler / 65536), buf))
    ensures r <= 0xffffffff
  {
    var s := Sums(adler % 65536, adler / 65536);
    UpdateInRange(s, buf);
    if |buf| == 1 {
      s := AdlerByte(s, buf);
    } else if |buf| < 16 {
      s := AdlerShort(s, buf);
    } else {
      s := AdlerLong(s, buf);
    }
    r := s.a + 65536 * s.b;
  }

  lemma RawEmpty(s: Sums)
    ensures forall buf: seq<byte>, i: nat | i <= |buf| :: Raw(s, buf[i..i]) == s
  {
  }

  lemma UpdateEmpty(s: Sums)
    ensures forall buf: seq<byte> :: Update(s, buf[..0]) == s
  {
  }

  lemma SingleByte(s: Sums, buf: seq<byte>)
    requires InRange(s) && |buf| == 1
    ensures Update(s, buf) == Sums((s.a + buf[0]) % BASE, (s.b + (s.a + buf[0]) % BASE) % BASE)
  {
    assert Update(s, buf[..0]) == s;
  }

  /** Fewer than 16 bytes raise the first sum by less than BASE. */
  lemma ShortRun(s: Sums, buf: seq<byte>)
    requires InRange(s) && |buf| < 16
    ensures Raw(s, buf).a < 2 * BASE && Reduce(Raw(s, buf)) == Update(s, buf)
  {
    RawBound(s, buf);
    UpdateInRange(s, buf);
    RawReduces(s, s, buf);
  }

  lemma BlockDone(s: Sums, buf: seq<byte>, i: nat, j: nat)
    requires i <= j <= |buf| && InRange(s)
    ensures Update(Update(s, buf[..i]), buf[i..j]) == Update(s, buf[..j])
    ensures InRange(Update(s, buf[..j]))
  {
    UpdateInRange(s, buf[..j]);
    UpdateAppend(s, buf[..i], buf[i..j]);
    assert buf[..i] + buf[i..j] == buf[..j];
  }

  // ---- combining

  /** Starting from other sums shifts the raw sums linearly. */
  lemma {:induction false} RawLinear(s: Sums, y: seq<byte>)
    ensures Raw(s, y).a == Raw(Sums(1, 0), y).a + s.a - 1
    ensures Raw(s, y).b == Raw(Sums(1, 0), y).b + s.b + |y| * (s.a - 1)
    decreases |y|
  {
    if |y| > 0 {
      RawLinear(s, y[..|y| - 1]);
      MulAdd(|y| - 1, 1, s.a - 1);
    }
  }

  /** The sums of a concatenation, before reduction, from those of its parts; n is the second length. */
  function JoinA(s: Sums, t: Sums): int { s.a + t.a - 1 }
  function JoinB(s: Sums, t: Sums, n: nat): int { s.b + t.b + n * (s.a - 1) }

  /** The checksum of a concatenation from the checksums of its parts. */
  lemma Concatenation(x: seq<byte>, y: seq<byte>)
    ensures Adler(x + y).a == JoinA(Adler(x), Adler(y)) % BASE
    ensures Adler(x + y).b == JoinB(Adler(x), Adler(y), |y|) % BASE
    ensures InRange(Adler(x)) && InRange(Adler(y))
  {
    UpdateAppend(Sums(1, 0), x, y);
    UpdateInRange(Sums(1, 0), x);
    UpdateInRange(Sums(1, 0), y);
    ConcatenationFrom(Adler(x), y);
  }

  lemma ConcatenationFrom(s: Sums, y: seq<byte>)
    requires InRange(s)
    ensures Update(s, y) == Sums(JoinA(s, Adler(y)) % BASE, JoinB(s, Adler(y), |y|) % BASE)
  {
    hide Raw, Update;
    UpdateInRange(s, y);
    RawReduces(s, s, y);
    UpdateInRange(Sums(1, 0), y);
    RawReduces(Sums(1, 0), Sums(1, 0), y);
    RawLinear(s, y);
    ModAddInt(Raw(Sums(1, 0), y).a, s.a - 1);
    ModAddInt(Raw(Sums(1, 0), y).b, s.b + |y| * (s.a - 1));
  }

  lemma ModAddInt(x: int, y: int)
    ensures (x % BASE + y) % BASE == (x + y) % BASE
  {
  }

  lemma ModTimes(n: int, k: int)
    ensures (n % BASE * k) % BASE == n * k % BASE
  {
    var q, r := n / BASE, n % BASE;
    MulAdd(q * BASE, r, k);
    MulAssoc(q, BASE, k);
    MulAssoc(BASE, q, k);
    ModMultiple(r * k, q * k);
  }

  lemma ModMultiple(x: int, k: int)
    ensures (x + BASE * k) % BASE == x % BASE
  {
  }

  /** What adler32_combine does with a sum below 4 * BASE: it ends in 1..BASE, at BASE for residue 0. */
  function Settle(sum: nat): nat {
    if sum % BASE == 0 then BASE else sum % BASE
  }

  method CombineFirst(a1: nat, a2: nat) returns (sum1: nat)
    requires a1 < BASE && a2 < BASE
    ensures sum1 == Settle(a1 + a2 + BASE - 1)
  {
    sum1 := a1;
    sum1 := sum1 + a2 + BASE - 1;
    if sum1 > BASE {
      sum1 := sum1 - BASE;
    }
    if sum1 > BASE {
      sum1 := sum1 - BASE;
    }
  }

  method CombineSecond(a1: nat, b1: nat, b2: nat, rem: nat) returns (sum2: nat)
    requires a1 < BASE && b1 < BASE && b2 < BASE && rem < BASE
    ensures sum2 == Settle(rem * a1 % BASE + b1 + b2 + BASE - rem)
  {
    sum2 := rem * a1;
    MulMono(rem, BASE - 1, a1);
    assert sum2 <= 0xffffffff;
    sum2 := sum2 % BASE;
    sum2 := sum2 + b1 + b2 + BASE - rem;
    if sum2 > 2 * BASE {
      sum2 := sum2 - 2 * BASE;
    }
    if sum2 > BASE {
      sum2 := sum2 - BASE;
    }
  }

  /** The second sum of adler32_combine, kept positive by multiples of BASE. */
  function Second(s: Sums, t: Sums, n: nat): nat { s.b + t.b + n * (s.a + BASE - 1) }

  /** What the packed halves of adler32_combine are, before packing. */
  function Combined(s: Sums, t: Sums, len2: nat): Sums {
    Sums(Settle(s.a + t.a + BASE - 1), Settle(Second(s, t, len2)))
  }

  /** adler32_combine: the halves come out in 1..BASE instead of 0..BASE - 1. */
  method Adler32Combine(adler1: nat, adler2: nat, len2: nat) returns (r: nat)
    requires InRange(Sums(adler1 % 65536, adler1 / 65536)) && InRange(Sums(adler2 % 65536, adler2 / 65536))
    ensures r == Pack(Combined(Sums(adler1 % 65536, adler1 / 65536), Sums(adler2 % 65536, adler2 / 65536), len2))
    ensures r <= 0xffffffff
  {
    var rem := len2 % BASE;
    var sum1 := CombineFirst(adler1 % 65536, adler2 % 65536);
    var sum2 := CombineSecond(adler1 % 65536, adler1 / 65536, adler2 / 65536, rem);
    SecondSum(len2, adler1 % 65536, adler1 / 65536 + adler2 / 65536, rem);
    r := sum1 + 65536 * sum2;
  }

  lemma SecondSum(len2: nat, a: nat, b: nat, rem: nat)
    requires rem == len2 % BASE
    ensures (rem * a % BASE + b + BASE - rem) % BASE == (b + len2 * (a + BASE - 1)) % BASE
  {
    ModTimes(len2, a);
    ModAddInt(len2 * a, b + BASE - rem);
    var q := len2 / BASE;
    MulAdd(a, BASE - 1, len2);
    assert len2 * (a + BASE - 1) == len2 * a + BASE * len2 - len2;
    ModMultiple(len2 * a + b + BASE - rem, len2 - q - 1);
  }

  /** The residue that adler32_combine leaves as BASE instead of 0, from its arguments alone. */
  predicate Degenerate(s: Sums, t: Sums, len2: nat) {
    (s.a + t.a) % BASE == 1 || Second(s, t, len2) % BASE == 0
  }

  /** adler32_combine gives the checksum of the concatenation modulo BASE in each half, and gives the
      checksum itself exactly when neither residue is zero. */
  lemma CombineIsConcatenation(x: seq<byte>, y: seq<byte>)
    ensures var c := Combined(Adler(x), Adler(y), |y|);
            && Reduce(c) == Adler(x + y) && 1 <= c.a <= BASE && 1 <= c.b <= BASE
            && (Pack(c) == Pack(Adler(x + y)) <==> !Degenerate(Adler(x), Adler(y), |y|))
  {
    hide Adler, Pack, Reduce, Combined, Degenerate;
    Concatenation(x, y);
    CombineHalves(Adler(x), Adler(y), |y|, Adler(x + y));
  }

  lemma CombineHalves(s: Sums, t: Sums, n: nat, whole: Sums)
    requires whole.a == JoinA(s, t) % BASE && whole.b == JoinB(s, t, n) % BASE
    ensures var c := Combined(s, t, n);
            && Reduce(c) == whole && 1 <= c.a <= BASE && 1 <= c.b <= BASE
            && (Pack(c) == Pack(whole) <==> !Degenerate(s, t, n))
  {
    hide Second, JoinA, JoinB, Settle, Pack;
    FirstResidue(s, t);
    SecondResidue(s, t, n);
    SettleResidue(s.a + t.a + BASE - 1);
    SettleResidue(Second(s, t, n));
    PackInjective(Combined(s, t, n), whole);
  }

  lemma SettleResidue(v: nat)
    ensures Settle(v) % BASE == v % BASE && 1 <= Settle(v) <= BASE
    ensures Settle(v) == v % BASE <==> v % BASE != 0
  {
  }

  lemma FirstResidue(s: Sums, t: Sums)
    ensures (s.a + t.a + BASE - 1) % BASE == JoinA(s, t) % BASE
    ensures (s.a + t.a + BASE - 1) % BASE == 0 <==> (s.a + t.a) % BASE == 1
  {
  }

  lemma SecondResidue(s: Sums, t: Sums, n: nat)
    ensures Second(s, t, n) % BASE == JoinB(s, t, n) % BASE
  {
    MulAdd(s.a - 1, BASE, n);
    ModMultiple(JoinB(s, t, n), n);
  }

  lemma PackInjective(s: Sums, t: Sums)
    requires s.a < 65536 && t.a < 65536
    ensures Pack(s) == Pack(t) <==> s == t
  {
  }

  /** The combination of two empty strings is not the checksum of their concatenation. */
  lemma CombineDegenerateExample()
    ensures Pack(Combined(Adler([]), Adler([]), 0)) != Pack(Adler([] + []))
  {
    var e: seq<byte> := [];
    assert e + e == e;
    assert Adler(e) == Sums(1, 0);
  }
}
