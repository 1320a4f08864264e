/** The rolling hash of deflate.c over three bytes. */
module Hash {
  import opened Bits

  /** Bitwise exclusive or. */
  function Xor(a: nat, b: nat): nat
    decreases a + b
  {
    if a == 0 then b else if b == 0 then a
    else (if a % 2 != b % 2 then 1 else 0) + 2 * Xor(a / 2, b / 2)
  }

  lemma XorStep(a: nat, b: nat)
    ensures Xor(a, b) % 2 == (if a % 2 != b % 2 then 1 else 0) && Xor(a, b) / 2 == Xor(a / 2, b / 2)
  {
    if a != 0 && b != 0 {
      LowestBit(if a % 2 != b % 2 then 1 else 0, Xor(a / 2, b / 2));
    }
  }

  lemma LowestBit(c: nat, r: nat)
    requires c < 2
    ensures (c + 2 * r) % 2 == c && (c + 2 * r) / 2 == r
  {
  }

  lemma Halves(x: nat, n: nat)
    requires n > 0
    ensures Low(x, n) % 2 == x % 2 && Low(x, n) / 2 == Low(x / 2, n - 1)
  {
    hide Low;
    LowTwice(x, n - 1);
  }

  lemma SameHalves(x: nat, y: nat)
    requires x % 2 == y % 2 && x / 2 == y / 2
    ensures x == y
  {
  }

  lemma {:induction false} XorLow(a: nat, b: nat, n: nat)
    ensures Low(Xor(a, b), n) == Xor(Low(a, n), Low(b, n))
  {
    hide Low, Xor;
    if n == 0 {
      LowNone(a);
      LowNone(b);
      LowNone(Xor(a, b));
      XorSelf(0);
    } else {
      XorLow(a / 2, b / 2, n - 1);
      XorStep(a, b);
      XorStep(Low(a, n), Low(b, n));
      Halves(a, n);
      Halves(b, n);
      Halves(Xor(a, b), n);
      SameHalves(Low(Xor(a, b), n), Xor(Low(a, n), Low(b, n)));
    }
  }

  lemma LowNone(a: nat)
    ensures Low(a, 0) == 0
  {
  }

  lemma {:induction false} XorCancel(a: nat, b: nat)
    ensures Xor(a, Xor(a, b)) == b
    decreases a + b
  {
    if a != 0 && b != 0 {
      XorCancel(a / 2, b / 2);
      XorStep(a, b);
      XorStep(a, Xor(a, b));
    } else if a != 0 {
      XorSelf(a);
    }
  }

  lemma {:induction false} XorSelf(a: nat)
    ensures Xor(a, a) == 0
  {
    if a != 0 {
      XorSelf(a / 2);
    }
  }

  /** hash_bits and hash_shift of a memory level from 1 to 9. */
  predicate GoodHash(k: nat, s: nat) { 8 <= k <= 16 && s == (k + 2) / 3 }

  /** UPDATE_HASH. */
  function Update(k: nat, s: nat, h: nat, c: nat): (r: nat)
    ensures r < Pow2(k)
  {
    Low(Xor(h * Pow2(s), c), k)
  }

  function Hash3(k: nat, s: nat, a: nat, b: nat, c: nat): (r: nat)
    ensures r < Pow2(k)
  {
    Update(k, s, Update(k, s, Update(k, s, 0, a), b), c)
  }

  lemma LowShift(h: nat, j: nat, s: nat)
    ensures Low(h * Pow2(s), j + s) == Low(h, j) * Pow2(s)
  {
    hide Low, High;
    LowHigh(h, j);
    Pow2Add(j, s);
    MulAdd(High(h, j) * Pow2(j), Low(h, j), Pow2(s));
    MulAssoc(High(h, j), Pow2(j), Pow2(s));
    MulMono(Low(h, j) + 1, Pow2(j), Pow2(s));
    MulAdd(Low(h, j), 1, Pow2(s));
    LowHighUnique(h * Pow2(s), j + s, High(h, j), Low(h, j) * Pow2(s));
  }

  /** Fewer low bits of the same number. */
  lemma LowOfLow(x: nat, m: nat, n: nat)
    requires m <= n
    ensures Low(Low(x, n), m) == Low(x, m)
  {
    hide Low, High;
    LowHigh(x, n);
    LowHigh(Low(x, n), m);
    Pow2Add(m, n - m);
    var q, r := High(Low(x, n), m), Low(Low(x, n), m);
    MulAssoc(High(x, n), Pow2(n - m), Pow2(m));
    MulAdd(High(x, n) * Pow2(n - m), q, Pow2(m));
    LowHighUnique(x, m, High(x, n) * Pow2(n - m) + q, r);
  }

  /** Hash values that agree in j low bits agree in s more after an update. */
  lemma UpdateAgree(k: nat, s: nat, g: nat, h: nat, c: nat, j: nat)
    requires Low(g, j) == Low(h, j)
    ensures j + s <= k ==> Low(Update(k, s, g, c), j + s) == Low(Update(k, s, h, c), j + s)
    ensures j + s >= k ==> Update(k, s, g, c) == Update(k, s, h, c)
  {
    hide Low, Xor, Pow2;
    LowShift(g, j, s);
    LowShift(h, j, s);
    var x, y := g * Pow2(s), h * Pow2(s);
    XorLow(x, c, j + s);
    XorLow(y, c, j + s);
    if j + s <= k {
      LowOfLow(Xor(x, c), j + s, k);
      LowOfLow(Xor(y, c), j + s, k);
    }
    if j + s >= k {
      LowOfLow(Xor(x, c), k, j + s);
      LowOfLow(Xor(y, c), k, j + s);
    }
  }

  /** After three updates the hash depends on the last three bytes only. */
  lemma ThreeUpdates(k: nat, s: nat, h: nat, a: nat, b: nat, c: nat)
    requires GoodHash(k, s)
    ensures Update(k, s, Update(k, s, Update(k, s, h, a), b), c) == Hash3(k, s, a, b, c)
  {
    hide Update;
    LowNone(h);
    LowNone(0);
    UpdateAgree(k, s, h, 0, a, 0);
    UpdateAgree(k, s, Update(k, s, h, a), Update(k, s, 0, a), b, s);
    UpdateAgree(k, s, Update(k, s, Update(k, s, h, a), b), Update(k, s, Update(k, s, 0, a), b), c, 2 * s);
  }

  /** Two strings with the same hash and the same first two bytes have the same third byte. */
  lemma ThirdByte(k: nat, s: nat, a: nat, b: nat, c: nat, d: nat)
    requires GoodHash(k, s) && c < 256 && d < 256 && Hash3(k, s, a, b, c) == Hash3(k, s, a, b, d)
    ensures c == d
  {
    hide Low, Xor, Pow2;
    var x := Update(k, s, Update(k, s, 0, a), b) * Pow2(s);
    Pow2Values();
    LowOfLow(Xor(x, c), 8, k);
    LowOfLow(Xor(x, d), 8, k);
    XorLow(x, c, 8);
    XorLow(x, d, 8);
    LowSmall(c);
    LowSmall(d);
    XorCancel(Low(x, 8), c);
    XorCancel(Low(x, 8), d);
  }

  lemma LowSmall(c: nat)
    requires c < 256
    ensures Low(c, 8) == c
  {
    Pow2Values();
  }

  /** A byte is the hash of itself: how fill_window starts the rolling hash. */
  lemma FirstUpdate(k: nat, s: nat, a: nat)
    requires GoodHash(k, s) && a < 256
    ensures Update(k, s, 0, a) == a
  {
    Pow2Mono(8, k);
    Pow2Values();
    LowHighUnique(a, k, 0, a);
    assert 0 * Pow2(s) == 0;
  }
}
