/** The output bit buffer of trees.c: send_bits, bi_flush, bi_windup, put_short and copy_block. */
module BitWriter {
  import opened Bits

  const BUF_SIZE: nat := 16

  /** Bitwise or. */
  function Or(a: nat, b: nat): nat
    decreases a + b
  {
    if a == 0 then b else if b == 0 then a
    else (if a % 2 == 1 || b % 2 == 1 then 1 else 0) + 2 * Or(a / 2, b / 2)
  }

  /** Or-ing above the valid bits is adding. */
  lemma {:induction false} OrDisjoint(a: nat, n: nat, b: nat)
    requires a < Pow2(n)
    ensures Or(a, b * Pow2(n)) == a + b * Pow2(n)
  {
    if n != 0 && a != 0 && b != 0 {
      var c := b * Pow2(n - 1);
      assert b * Pow2(n) == 2 * c;
      MulMono(1, b, Pow2(n - 1));
      OrDisjoint(a / 2, n - 1, b);
    }
  }

  function Zeros(n: nat): (s: seq<bool>)
    ensures |s| == n
  {
    ToBits(0, n)
  }

  lemma {:induction false} ZerosAbove(x: nat, m: nat, n: nat)
    requires x < Pow2(m)
    ensures ToBits(x, m + n) == ToBits(x, m) + Zeros(n)
  {
    ToBitsAppend(x, m, 0, n);
    assert x + 0 * Pow2(m) == x;
  }

  lemma HighOfSum(buf: nat, valid: nat, value: nat, k: nat, w: nat)
    requires buf < Pow2(valid) && w == k + valid
    ensures High(buf + value * Pow2(valid), w) == High(value, k)
  {
    LowHigh(value, k);
    var q, r := High(value, k), Low(value, k);
    Pow2Add(k, valid);
    MulAdd(q * Pow2(k), r, Pow2(valid));
    MulAssoc(q, Pow2(k), Pow2(valid));
    MulMono(r + 1, Pow2(k), Pow2(valid));
    MulAdd(r, 1, Pow2(valid));
    LowHighUnique(buf + value * Pow2(valid), w, q, buf + r * Pow2(valid));
  }

  lemma HighFits(value: nat, k: nat, m: nat)
    requires value < Pow2(m + k)
    ensures High(value, k) < Pow2(m)
  {
    LowHigh(value, k);
    Pow2Add(m, k);
    if High(value, k) >= Pow2(m) {
      MulMono(Pow2(m), High(value, k), Pow2(k));
    }
  }

  /** What a full buffer sends and what it keeps for the next one. */
  lemma Overflow(buf: nat, valid: nat, value: nat, length: nat, k: nat, rest: nat)
    requires valid + k == BUF_SIZE && length == k + rest && buf < Pow2(valid) && value < Pow2(length)
    ensures ToBits(buf, valid) + ToBits(value, length)
         == ToBits(Low(buf + value * Pow2(valid), BUF_SIZE), BUF_SIZE) + ToBits(High(value, k), rest)
    ensures High(value, k) < Pow2(rest)
  {
    hide Low, High, ToBits, Pow2;
    ToBitsAppend(buf, valid, value, length);
    ToBitsSplit(buf + value * Pow2(valid), BUF_SIZE, rest);
    HighOfSum(buf, valid, value, k, BUF_SIZE);
    HighFits(value, k, rest);
  }

  /** (a + b) + c with b + c regrouped as d + e. */
  lemma Regroup<T>(a: seq<T>, b: seq<T>, c: seq<T>, d: seq<T>, e: seq<T>)
    requires b + c == d + e
    ensures (a + b) + c == (a + d) + e
  {
    assert (a + b) + c == a + (b + c);
    assert (a + d) + e == a + (d + e);
  }

  class BitBuffer {
    var pending: seq<byte>
    var biBuf: nat
    var biValid: nat

    ghost predicate Valid()
      reads this
    {
      biValid <= BUF_SIZE && biBuf < Pow2(biValid)
    }

    /** Everything sent so far, in stream order. */
    ghost function Sent(): seq<bool>
      reads this
    {
      BytesBits(pending) + ToBits(biBuf, biValid)
    }

    constructor ()
      ensures Valid() && Sent() == []
    {
      pending, biBuf, biValid := [], 0, 0;
    }

    method PutByte(b: byte)
      modifies `pending
      ensures BytesBits(pending) == old(BytesBits(pending)) + ToBits(b, 8)
      ensures pending == old(pending) + [b]
    {
      BytesBitsAppend(pending, [b]);
      assert BytesBits([b]) == ToBits(b, 8);
      pending := pending + [b];
    }

    method PutShort(w: nat)
      requires w < 65536
      modifies `pending
      ensures BytesBits(pending) == old(BytesBits(pending)) + ToBits(w, 16) && |pending| == old(|pending|) + 2
    {
      hide ToBits, BytesBits;
      ShortBytes(w);
      PutByte(w % 256);
      PutByte(w / 256);
    }

    /** Appends the low length bits of value to the stream. */
    method SendBits(value: nat, length: nat)
      requires Valid() && 1 <= length <= BUF_SIZE && value < Pow2(length)
      modifies this
      ensures |pending| >= old(|pending|)
      ensures Valid() && Sent() == old(Sent()) + ToBits(value, length)
    {
      hide ToBits, Low, High, Pow2, BytesBits, Or;
      ghost var sent := BytesBits(pending);
      OrDisjoint(biBuf, biValid, value);
      var sum := Or(biBuf, value * Pow2(biValid));
      if biValid > BUF_SIZE - length {
        var k := BUF_SIZE - biValid;
        Overflow(biBuf, biValid, value, length, k, length - k);
        Regroup(sent, ToBits(biBuf, biValid), ToBits(value, length),
                ToBits(Low(sum, BUF_SIZE), BUF_SIZE), ToBits(High(value, k), length - k));
        Pow2Values();
        PutShort(Low(sum, BUF_SIZE));
        biBuf := High(value, k);
        biValid := biValid + length - BUF_SIZE;
      } else {
        AppendFits(biBuf, biValid, value, length);
        Regroup(sent, ToBits(biBuf, biValid), ToBits(value, length), ToBits(sum, biValid + length), []);
        biBuf := sum;
        biValid := biValid + length;
      }
    }

    /** With less than a byte in the buffer its bits are the rest of the stream. */
    lemma Residue()
      requires biValid < 8
      ensures |Sent()| % 8 == biValid
    {
      hide ToBits, BytesBits;
    }

    /** Writes out the complete bytes of the buffer; the stream is unchanged. */
    method BiFlush()
      requires Valid()
      modifies this
      ensures |pending| >= old(|pending|)
      ensures Valid() && Sent() == old(Sent()) && biValid < 8
    {
      hide ToBits, BytesBits, Low, High, Pow2;
      ghost var sent := BytesBits(pending);
      Empty();
      if biValid == 16 {
        Pow2Values();
        PutShort(biBuf);
        biBuf, biValid := 0, 0;
      } else if biValid >= 8 {
        Pow2Values();
        ToBitsSplit(biBuf, 8, biValid - 8);
        HighFits(biBuf, 8, biValid - 8);
        Regroup(sent, ToBits(biBuf, biValid), [], ToBits(Low(biBuf, 8), 8), ToBits(High(biBuf, 8), biValid - 8));
        PutByte(Low(biBuf, 8));
        biBuf, biValid := High(biBuf, 8), biValid - 8;
      }
    }

    /** Pads the stream with zero bits up to a byte boundary. */
    method BiWindup()
      requires Valid()
      modifies this
      ensures |pending| >= old(|pending|)
      ensures Valid() && biValid == 0 && biBuf == 0
      ensures Sent() == old(Sent()) + Zeros((8 - |old(Sent())| % 8) % 8)
      ensures Sent() == BytesBits(pending) && |Sent()| % 8 == 0
    {
      hide ToBits, BytesBits, Pow2, Zeros;
      ghost var sent := BytesBits(pending);
      ghost var bits := ToBits(biBuf, biValid);
      ghost var pad := (8 - |old(Sent())| % 8) % 8;
      WindupPad(|sent|, biValid, pad, |pending|);
      if biValid > 8 {
        ZerosAbove(biBuf, biValid, 16 - biValid);
        Pow2Mono(biValid, 16);
        Pow2Values();
        PutShort(biBuf);
        assert sent + (bits + Zeros(pad)) == sent + bits + Zeros(pad);
      } else if biValid > 0 {
        ZerosAbove(biBuf, biValid, 8 - biValid);
        Pow2Mono(biValid, 8);
        Pow2Values();
        PutByte(biBuf);
        assert sent + (bits + Zeros(pad)) == sent + bits + Zeros(pad);
      }
      biBuf, biValid := 0, 0;
      Empty();
    }

    /** Stores a block byte-aligned: its length, the complement of the length, and its bytes. */
    method CopyBlock(buf: seq<byte>)
      requires Valid() && |buf| < 65536
      modifies this
      ensures |pending| >= old(|pending|)
      ensures Valid() && biValid == 0
      ensures Sent() == old(Sent()) + Zeros((8 - |old(Sent())| % 8) % 8)
                        + ToBits(|buf|, 16) + ToBits(65535 - |buf|, 16) + BytesBits(buf)
    {
      hide ToBits, BytesBits, Pow2, Zeros;
      BiWindup();
      PutShort(|buf|);
      PutShort(65535 - |buf|);
      var i := 0;
      ghost var before := pending;
      while i < |buf|
        invariant 0 <= i <= |buf|
        invariant biValid == 0 && biBuf == 0
        invariant pending == before + buf[..i]
      {
        PutByte(buf[i]);
        i := i + 1;
      }
      BytesBitsAppend(before, buf);
      assert buf[..i] == buf;
      Empty();
    }
  }

  lemma AppendFits(buf: nat, valid: nat, value: nat, length: nat)
    requires buf < Pow2(valid) && value < Pow2(length)
    ensures buf + value * Pow2(valid) < Pow2(valid + length)
    ensures ToBits(buf + value * Pow2(valid), valid + length) == ToBits(buf, valid) + ToBits(value, length)
  {
    ToBitsAppend(buf, valid, value, length);
    Pow2Add(length, valid);
    MulMono(value + 1, Pow2(length), Pow2(valid));
    MulAdd(value, 1, Pow2(valid));
  }

  lemma ShortBytes(w: nat)
    ensures ToBits(w, 16) == ToBits(w % 256, 8) + ToBits(w / 256, 8)
  {
    ToBitsSplit(w, 8, 8);
    Pow2Values();
  }

  lemma Empty()
    ensures ToBits(0, 0) == [] && Pow2(0) == 1 && Zeros(0) == []
  {
  }

  lemma WindupPad(sent: nat, valid: nat, pad: nat, bytes: nat)
    requires valid <= 16 && sent == 8 * bytes && pad == (8 - (sent + valid) % 8) % 8
    ensures pad == if valid > 8 then 16 - valid else if valid > 0 then 8 - valid else 0
  {
    assert (sent + valid) % 8 == valid % 8;
  }
}
