/** Powers of two, bit strings in stream order (least significant bit first), and bit reversal. */
module Bits {

  function Pow2(n: nat): (p: nat)
    ensures p >= 1
  {
    if n == 0 then 1 else 2 * Pow2(n - 1)
  }

  lemma {:induction false} Pow2Add(m: nat, n: nat)
    ensures Pow2(m + n) == Pow2(m) * Pow2(n)
  {
    if m != 0 {
      Pow2Add(m - 1, n);
      assert Pow2(m + n) == 2 * Pow2(m - 1 + n);
    }
  }

  lemma {:induction false} Pow2Mono(m: nat, n: nat)
    requires m <= n
    ensures Pow2(m) <= Pow2(n)
  {
    if m < n {
      Pow2Mono(m, n - 1);
    }
  }

  lemma Pow2Values()
    ensures Pow2(1) == 2 && Pow2(2) == 4 && Pow2(3) == 8 && Pow2(4) == 16 && Pow2(5) == 32
    ensures Pow2(6) == 64 && Pow2(7) == 128 && Pow2(8) == 256 && Pow2(9) == 512 && Pow2(10) == 1024
    ensures Pow2(11) == 2048 && Pow2(12) == 4096 && Pow2(13) == 8192 && Pow2(14) == 16384
    ensures Pow2(15) == 32768 && Pow2(16) == 65536
  {
    assert Pow2(4) == 16;
    assert Pow2(8) == 256;
    assert Pow2(12) == 4096;
    assert Pow2(16) == 65536;
  }

  /** x = q * d + r with 0 <= r < d determines q and r. */
  lemma DivMod(x: int, d: int, q: int, r: int)
    requires d > 0 && 0 <= r < d && x == q * d + r
    ensures x / d == q && x % d == r
  {
    var q', r' := x / d, x % d;
    assert (q - q') * d == r' - r;
    Multiple(q - q', d);
  }

  lemma Multiple(k: int, d: int)
    requires -d < k * d < d
    ensures k == 0
  {
    if k >= 1 {
      MulMono(1, k, d);
    } else if k <= -1 {
      MulMono(k, -1, d);
    }
  }

  lemma DivSplit(x: int, d: int)
    requires d > 0
    ensures x == x / d * d + x % d && 0 <= x % d < d
    ensures x >= 0 ==> x / d >= 0
  {
  }

  lemma MulMono(a: int, b: int, d: int)
    requires a <= b && d >= 0
    ensures a * d <= b * d
  {
  }

  lemma MulAssoc(a: int, b: int, c: int)
    ensures a * (b * c) == (a * b) * c
  {
  }

  lemma MulAdd(a: int, b: int, c: int)
    ensures (a + b) * c == a * c + b * c
  {
  }

  lemma MulSub(a: int, b: int, c: int)
    ensures (a - b) * c == a * c - b * c
  {
  }

  /** The low n bits of x, and x without them. */
  function Low(x: nat, n: nat): (r: nat)
    ensures r < Pow2(n)
  {
    x % Pow2(n)
  }

  function High(x: nat, n: nat): nat {
    DivSplit(x, Pow2(n));
    x / Pow2(n)
  }

  lemma LowHigh(x: nat, n: nat)
    ensures x == High(x, n) * Pow2(n) + Low(x, n)
  {
    DivSplit(x, Pow2(n));
  }

  lemma LowHighUnique(x: nat, n: nat, q: nat, r: nat)
    requires r < Pow2(n) && x == q * Pow2(n) + r
    ensures High(x, n) == q && Low(x, n) == r
  {
    DivMod(x, Pow2(n), q, r);
  }

  /** The low n bits of x, least significant first: the order in which they enter the stream. */
  function ToBits(x: nat, n: nat): (s: seq<bool>)
    ensures |s| == n
  {
    if n == 0 then [] else [x % 2 == 1] + ToBits(x / 2, n - 1)
  }

  function FromBits(s: seq<bool>): (x: nat)
    ensures x < Pow2(|s|)
  {
    if |s| == 0 then 0 else (if s[0] then 1 else 0) + 2 * FromBits(s[1..])
  }

  lemma {:induction false} FromToBits(x: nat, n: nat)
    ensures FromBits(ToBits(x, n)) == Low(x, n)
  {
    if n != 0 {
      FromToBits(x / 2, n - 1);
      assert ToBits(x, n)[1..] == ToBits(x / 2, n - 1);
      LowTwice(x, n - 1);
    }
  }

  lemma LowTwice(x: nat, n: nat)
    ensures Low(x, n + 1) == 2 * Low(x / 2, n) + x % 2
    ensures High(x, n + 1) == High(x / 2, n)
    ensures High(x, n) == 2 * High(x, n + 1) + High(x, n) % 2
  {
    LowHigh(x / 2, n);
    MulAssoc(High(x / 2, n), 2, Pow2(n));
    LowHighUnique(x, n + 1, High(x / 2, n), 2 * Low(x / 2, n) + x % 2);
    DivTwice(x, Pow2(n));
  }

  lemma DivTwice(x: nat, p: nat)
    requires p > 0
    ensures x / p == 2 * (x / (2 * p)) + x / p % 2
  {
    var q, r := x / p / 2, x / p % 2;
    DivSplit(x, p);
    MulAdd(2 * q, r, p);
    MulAssoc(q, 2, p);
    DivMod(x, 2 * p, q, r * p + x % p);
  }

  lemma {:induction false} ToFromBits(s: seq<bool>)
    ensures ToBits(FromBits(s), |s|) == s
  {
    if |s| != 0 {
      ToFromBits(s[1..]);
      var x := FromBits(s);
      assert x / 2 == FromBits(s[1..]);
      assert s == [s[0]] + s[1..];
    }
  }

  /** A number below 2^n is determined by its n bits. */
  lemma FromToBitsExact(x: nat, n: nat)
    requires x < Pow2(n)
    ensures FromBits(ToBits(x, n)) == x
  {
    FromToBits(x, n);
    LowHighUnique(x, n, 0, x);
  }

  /** Concatenating bit strings is shifting and adding: the accumulator's `hold += byte << bits`. */
  lemma {:induction false} ToBitsAppend(x: nat, m: nat, y: nat, n: nat)
    requires x < Pow2(m)
    ensures ToBits(x + y * Pow2(m), m + n) == ToBits(x, m) + ToBits(y, n)
  {
    if m == 0 {
      assert x + y * Pow2(0) == y;
    } else {
      var p := Pow2(m - 1);
      assert x + y * Pow2(m) == x + 2 * (y * p);
      assert (x + y * Pow2(m)) % 2 == x % 2;
      assert (x + y * Pow2(m)) / 2 == x / 2 + y * p;
      ToBitsAppend(x / 2, m - 1, y, n);
      assert ToBits(x, m) + ToBits(y, n) == [x % 2 == 1] + (ToBits(x / 2, m - 1) + ToBits(y, n));
    }
  }

  /** Dropping the low m bits (`hold >>= m`) leaves the rest of the string; the low m bits are its head. */
  lemma ToBitsSplit(x: nat, m: nat, n: nat)
    ensures ToBits(x, m + n) == ToBits(Low(x, m), m) + ToBits(High(x, m), n)
  {
    LowHigh(x, m);
    ToBitsAppend(Low(x, m), m, High(x, m), n);
  }

  /** An accumulator of so many bits with x put above them. */
  function Above(hold: nat, bits: nat, x: nat): nat { hold + x * Pow2(bits) }

  lemma Associative<T>(a: seq<T>, b: seq<T>, c: seq<T>)
    ensures a + (b + c) == (a + b) + c
  {
  }

  type byte = b: nat | b < 256

  /** The bits of a byte string, byte by byte. */
  function BytesBits(b: seq<nat>): (s: seq<bool>)
    ensures |s| == 8 * |b|
  {
    if |b| == 0 then [] else ToBits(b[0], 8) + BytesBits(b[1..])
  }

  lemma {:induction false} BytesBitsAppend(a: seq<nat>, b: seq<nat>)
    ensures BytesBits(a + b) == BytesBits(a) + BytesBits(b)
  {
    hide ToBits;
    if |a| == 0 {
      assert a + b == b;
    } else {
      BytesBitsAppend(a[1..], b);
      assert (a + b)[1..] == a[1..] + b;
      Associative(ToBits(a[0], 8), BytesBits(a[1..]), BytesBits(b));
    }
  }

  /** The low n bits of x in reverse order. */
  function Rev(x: nat, n: nat): (r: nat)
    ensures r < Pow2(n)
  {
    if n == 0 then 0 else (if x % 2 == 1 then Pow2(n - 1) else 0) + Rev(x / 2, n - 1)
  }

  lemma {:induction false} RevAppend(x: nat, m: nat, y: nat, n: nat)
    requires x < Pow2(m)
    ensures Rev(x + y * Pow2(m), m + n) == Rev(x, m) * Pow2(n) + Rev(y, n)
  {
    if m == 0 {
      assert x + y * Pow2(0) == y;
    } else {
      var p := Pow2(m - 1);
      var yp := y * p;
      var z := x + 2 * yp;
      assert y * Pow2(m) == 2 * yp;
      assert z / 2 == x / 2 + yp && z % 2 == x % 2;
      RevAppend(x / 2, m - 1, y, n);
      Pow2Add(m - 1, n);
      MulAdd(Pow2(m - 1), Rev(x / 2, m - 1), Pow2(n));
    }
  }

  lemma {:induction false} RevRev(x: nat, n: nat)
    requires x < Pow2(n)
    ensures Rev(Rev(x, n), n) == x
  {
    if n != 0 {
      var m, h := n - 1, x / 2;
      RevRev(h, m);
      RevTop(Rev(h, m), m);
    }
  }

  /** Setting bit m sets the lowest bit of the reversal. */
  lemma RevTop(a: nat, m: nat)
    requires a < Pow2(m)
    ensures Rev(a, m + 1) == 2 * Rev(a, m)
    ensures Rev(Pow2(m) + a, m + 1) == 2 * Rev(a, m) + 1
  {
    hide Rev, Pow2;
    RevAppend(a, m, 0, 1);
    RevAppend(a, m, 1, 1);
    RevBit();
    Pow2Values();
  }

  lemma RevBit()
    ensures Rev(0, 1) == 0 && Rev(1, 1) == 1
  {
    assert Rev(0, 0) == 0;
  }

  /** Padding with zeros above the top bit pads the reversal with zeros below. */
  lemma RevShift(x: nat, m: nat, n: nat)
    requires x < Pow2(m)
    ensures Rev(x, m + n) == Rev(x, m) * Pow2(n)
  {
    RevAppend(x, m, 0, n);
    RevZero(n);
    assert x + 0 * Pow2(m) == x;
  }

  lemma {:induction false} RevZero(n: nat)
    ensures Rev(0, n) == 0
  {
    if n != 0 {
      RevZero(n - 1);
    }
  }
}
