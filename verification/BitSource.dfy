/** The input side of inflate(): the bit accumulator hold/bits and the bytes at next_in. */
module BitSource {
  import opened Bits

  /** The size of an unsigned long that is enough for the accumulator. */
  const WORD: nat := 32

  // ---- the accumulator as a value

  /** The bits of the accumulator, then those of the bytes from pos on. */
  function RestOf(hold: nat, bits: nat, stream: seq<byte>, pos: nat): (r: seq<bool>)
    ensures pos <= |stream| ==> |r| == bits + 8 * (|stream| - pos)
  {
    if pos <= |stream| then ToBits(hold, bits) + BytesBits(stream[pos..]) else []
  }

  /** The accumulator holds the last bits of the bytes before pos. */
  ghost predicate Synced(hold: nat, bits: nat, stream: seq<byte>, pos: nat)
    ensures Synced(hold, bits, stream, pos) ==> bits <= WORD && hold < Pow2(bits) && pos <= |stream| && bits <= 8 * pos
  {
    && bits <= WORD && hold < Pow2(bits) && pos <= |stream| && bits <= 8 * pos
    && RestOf(hold, bits, stream, pos) == BytesBits(stream)[8 * pos - bits..]
  }

  lemma SyncedStart(stream: seq<byte>)
    ensures Synced(0, 0, stream, 0) && RestOf(0, 0, stream, 0) == BytesBits(stream)
  {
    assert stream[0..] == stream;
  }

  lemma SyncedPull(h: nat, b: nat, stream: seq<byte>, pos: nat, h': nat)
    requires Synced(h, b, stream, pos) && pos < |stream| && b + 8 <= WORD && h' == Above(h, b, stream[pos])
    ensures Synced(h', b + 8, stream, pos + 1) && RestOf(h', b + 8, stream, pos + 1) == RestOf(h, b, stream, pos)
  {
    hide ToBits, BytesBits, Pow2;
    PullIs(h, b, stream[pos..], h');
  }

  lemma PullIs(h: nat, b: nat, s: seq<byte>, h': nat)
    requires h < Pow2(b) && |s| > 0 && h' == h + s[0] * Pow2(b)
    ensures h' < Pow2(b + 8)
    ensures ToBits(h', b + 8) + BytesBits(s[1..]) == ToBits(h, b) + BytesBits(s)
  {
    hide ToBits, Pow2;
    ToBitsAppend(h, b, s[0], 8);
    Associative(ToBits(h, b), ToBits(s[0], 8), BytesBits(s[1..]));
    ByteAbove(h, b, s[0]);
  }

  lemma ByteAbove(h: nat, b: nat, x: nat)
    requires h < Pow2(b) && x < 256
    ensures h + x * Pow2(b) < Pow2(b + 8)
  {
    hide Pow2;
    Pow2Values();
    Pow2Add(8, b);
    MulMono(x + 1, 256, Pow2(b));
    MulAdd(x, 1, Pow2(b));
  }

  lemma SyncedDrop(h: nat, b: nat, stream: seq<byte>, pos: nat, n: nat)
    requires Synced(h, b, stream, pos) && n <= b
    ensures Synced(High(h, n), b - n, stream, pos)
    ensures n <= |RestOf(h, b, stream, pos)| && RestOf(High(h, n), b - n, stream, pos) == RestOf(h, b, stream, pos)[n..]
  {
    hide ToBits, BytesBits, High, Pow2;
    DropIs(h, b, n);
    var at, all := 8 * pos - b, BytesBits(stream);
    DropFront(ToBits(h, b), BytesBits(stream[pos..]), n);
    assert all[at..][n..] == all[at + n..];
  }

  lemma DropFront(s: seq<bool>, t: seq<bool>, n: nat)
    requires n <= |s|
    ensures (s + t)[n..] == s[n..] + t
  {
  }

  lemma DropIs(h: nat, b: nat, n: nat)
    requires h < Pow2(b) && n <= b
    ensures ToBits(h, b)[n..] == ToBits(High(h, n), b - n) && High(h, n) < Pow2(b - n)
  {
    hide ToBits, Pow2, Low;
    ToBitsSplit(h, n, b - n);
    HighBelow(h, n, b - n);
  }

  lemma HighBelow(h: nat, n: nat, m: nat)
    requires h < Pow2(n + m)
    ensures High(h, n) < Pow2(m)
  {
    LowHigh(h, n);
    Pow2Add(m, n);
    if High(h, n) >= Pow2(m) {
      MulMono(Pow2(m), High(h, n), Pow2(n));
    }
  }

  lemma BytesBitsDrop(s: seq<byte>, k: nat)
    requires k <= |s|
    ensures BytesBits(s[k..]) == BytesBits(s)[8 * k..]
  {
    hide BytesBits;
    BytesBitsAppend(s[..k], s[k..]);
    assert s[..k] + s[k..] == s;
  }

  lemma SyncedInit(h: nat, b: nat, stream: seq<byte>, pos: nat)
    requires Synced(h, b, stream, pos)
    ensures Synced(0, 0, stream, pos)
    ensures b <= |RestOf(h, b, stream, pos)| && RestOf(0, 0, stream, pos) == RestOf(h, b, stream, pos)[b..]
  {
    hide BytesBits;
    BytesBitsDrop(stream, pos);
    assert ToBits(0, 0) == [];
  }

  lemma SyncedTake(h: nat, stream: seq<byte>, pos: nat, n: nat)
    requires Synced(h, 0, stream, pos) && pos + n <= |stream|
    ensures Synced(h, 0, stream, pos + n)
    ensures RestOf(h, 0, stream, pos) == BytesBits(stream[pos..pos + n]) + RestOf(h, 0, stream, pos + n)
  {
    hide BytesBits;
    BytesBitsDrop(stream, pos + n);
    BytesBitsAppend(stream[pos..pos + n], stream[pos + n..]);
    assert stream[pos..pos + n] + stream[pos + n..] == stream[pos..];
    assert ToBits(h, 0) == [];
  }

  /** The last len bytes go back. */
  lemma SyncedBack(h: nat, b: nat, stream: seq<byte>, pos: nat, len: nat)
    requires Synced(h, b, stream, pos) && 8 * len <= b
    ensures len <= pos && Synced(Low(h, b - 8 * len), b - 8 * len, stream, pos - len)
    ensures RestOf(Low(h, b - 8 * len), b - 8 * len, stream, pos - len) == RestOf(h, b, stream, pos)
  {
    hide BytesBits, ToBits, Low, Pow2, High;
    var c, at, all := b - 8 * len, 8 * pos - b, BytesBits(stream);
    ToBitsSplit(h, c, 8 * len);
    BytesBitsDrop(stream, pos - len);
    FrontOf(ToBits(Low(h, c), c), ToBits(High(h, c), 8 * len), BytesBits(stream[pos..]), all, at);
  }

  /** A list that starts at position at of all, cut after its first part. */
  lemma FrontOf(s: seq<bool>, t: seq<bool>, u: seq<bool>, all: seq<bool>, at: nat)
    requires at <= |all| && s + t + u == all[at..]
    ensures at + |s| <= |all| && s + all[at + |s|..] == all[at..]
  {
    assert |s + t + u| == |all| - at;
    assert all[at..][|s|..] == all[at + |s|..];
    assert (s + t + u)[..|s|] == s;
    assert all[at..][..|s|] + all[at..][|s|..] == all[at..];
  }

  lemma Within<T>(s: seq<T>, a: nat, b: nat, i: nat, j: nat)
    requires a <= b <= |s| && i <= j <= b - a
    ensures s[a..b][i..j] == s[a + i..a + j]
  {
    forall k | 0 <= k < j - i
      ensures s[a..b][i..j][k] == s[a + i..a + j][k]
    {
      assert s[a..b][i..j][k] == s[a..b][i + k] == s[a + (i + k)];
    }
  }

  // ---- the object

  class BitSource {
    var hold: nat
    var bits: nat
    var inp: seq<byte>
    var next: nat
    /** All input there will ever be, and how much of it came before inp. */
    ghost const stream: seq<byte>
    ghost var base: nat

    ghost predicate Valid()
      reads this
    {
      Synced(hold, bits, stream, base + next) && next <= |inp| && base + |inp| <= |stream| && stream[base..base + |inp|] == inp
    }

    ghost function Acc(): (a: seq<bool>)
      reads `hold, `bits
      ensures |a| == bits
    {
      ToBits(hold, bits)
    }

    /** What has not been consumed of the stream. */
    ghost function Rest(): (r: seq<bool>)
      reads `hold, `bits, `next, `base
      ensures base + next <= |stream| ==> |r| == bits + 8 * (|stream| - base - next)
    {
      RestOf(hold, bits, stream, base + next)
    }

    /** The number of bits at hand: those of the accumulator and of the input buffer. */
    ghost function Supply(): int
      reads `bits, `inp, `next
    {
      bits + 8 * (|inp| - next)
    }

    lemma Fits()
      requires Valid()
      ensures hold < Pow2(bits) && bits <= WORD && next <= |inp| && base + |inp| <= |stream|
    {
    }

    constructor (ghost stream: seq<byte>)
      ensures Valid() && Rest() == BytesBits(stream) && bits == 0 && base + next == 0 && next == |inp| && this.stream == stream
    {
      hold, bits, inp, next, base := 0, 0, [], 0, 0;
      this.stream := stream;
      new;
      SyncedStart(stream);
    }

    /** A new input buffer, which continues the stream where the last one was left. */
    method SetInput(buf: seq<byte>)
      requires Valid() && base + next + |buf| <= |stream| && stream[base + next..base + next + |buf|] == buf
      modifies `inp, `next, `base
      ensures Valid() && Rest() == old(Rest()) && inp == buf && next == 0 && base == old(base + next)
    {
      hide Synced, RestOf;
      base := base + next;
      inp, next := buf, 0;
    }

    /** PULLBYTE. */
    method PullByte()
      requires Valid() && next < |inp| && bits + 8 <= WORD
      modifies `hold, `bits, `next
      ensures Valid() && Rest() == old(Rest()) && bits == old(bits) + 8 && next == old(next) + 1
      ensures hold == Above(old(hold), old(bits), inp[old(next)])
    {
      hide Synced, RestOf, Above;
      var x := inp[next];
      assert x == stream[base + next];
      var h := Above(hold, bits, x);
      SyncedPull(hold, bits, stream, base + next, h);
      hold, bits, next := h, bits + 8, next + 1;
    }

    /** NEEDBITS: false if the input ends first. */
    method NeedBits(n: nat) returns (ok: bool)
      requires Valid() && (n <= WORD - 7 || (n <= WORD && bits % 8 == 0 && n % 8 == 0))
      modifies `hold, `bits, `next
      ensures Valid() && Rest() == old(Rest()) && bits % 8 == old(bits) % 8 && next >= old(next)
      ensures ok <==> bits >= n
      ensures bits == old(bits) || old(bits) < bits < n + 8
      ensures old(bits) >= n ==> bits == old(bits)
      ensures !ok ==> next == |inp|
    {
      hide Rest, Valid, Above, Pow2;
      while bits < n
        invariant Valid() && Rest() == old(Rest()) && bits % 8 == old(bits) % 8 && old(next) <= next && (bits == old(bits) || old(bits) < bits < n + 8)
        invariant old(bits) >= n ==> bits == old(bits)
        decreases |inp| - next
      {
        Fits();
        if next == |inp| {
          return false;
        }
        PullByte();
      }
      return true;
    }

    /** BITS. */
    function Bits(n: nat): nat
      reads `hold
    {
      Low(hold, n)
    }

    /** DROPBITS. */
    method DropBits(n: nat)
      requires Valid() && n <= bits
      modifies `hold, `bits
      ensures Valid() && bits == old(bits) - n && hold == High(old(hold), n)
      ensures n <= |old(Rest())| && Rest() == old(Rest())[n..]
    {
      hide Synced, RestOf, High;
      SyncedDrop(hold, bits, stream, base + next, n);
      hold, bits := High(hold, n), bits - n;
    }

    /** BYTEBITS. */
    method ByteBits()
      requires Valid()
      modifies `hold, `bits
      ensures Valid() && bits == old(bits) - old(bits) % 8
      ensures old(bits) % 8 <= |old(Rest())| && Rest() == old(Rest())[old(bits) % 8..]
    {
      hide Rest, Valid;
      DropBits(bits % 8);
    }

    /** INITBITS, which drops all bits. */
    method InitBits()
      requires Valid()
      modifies `hold, `bits
      ensures Valid() && bits == 0
      ensures old(bits) <= |old(Rest())| && Rest() == old(Rest())[old(bits)..]
    {
      hide Synced, RestOf;
      SyncedInit(hold, bits, stream, base + next);
      hold, bits := 0, 0;
    }

    /** Takes n bytes of input past an empty accumulator. */
    method TakeBytes(n: nat) returns (s: seq<byte>)
      requires Valid() && bits == 0 && next + n <= |inp|
      modifies `next
      ensures Valid() && next == old(next) + n && |s| == n && old(Rest()) == BytesBits(s) + Rest()
    {
      hide Synced, RestOf, BytesBits;
      s := inp[next..next + n];
      Within(stream, base, base + |inp|, next, next + n);
      SyncedTake(hold, stream, base + next, n);
      next := next + n;
    }

    /** Gives the whole bytes of the accumulator back to the input. */
    method GiveBack()
      requires Valid() && bits / 8 <= next
      modifies `hold, `bits, `next
      ensures Valid() && bits == old(bits) % 8 && next == old(next) - old(bits) / 8 && Rest() == old(Rest())
    {
      hide Synced, RestOf, Low;
      var len := bits / 8;
      SyncedBack(hold, bits, stream, base + next, len);
      hold, bits, next := Low(hold, bits - 8 * len), bits - 8 * len, next - len;
    }

    /** The bits of the accumulator are the first of the rest. */
    lemma BitsAre(n: nat)
      requires Valid() && n <= bits
      ensures n <= |Rest()| && Rest()[..n] == Acc()[..n] && FromBits(Rest()[..n]) == Bits(n)
    {
      hide ToBits, BytesBits, FromBits, Low, Pow2, High;
      FrontBits(hold, bits, n);
      assert Rest()[..n] == Acc()[..n];
    }
  }

  lemma FrontBits(h: nat, b: nat, n: nat)
    requires n <= b
    ensures FromBits(ToBits(h, b)[..n]) == Low(h, n)
  {
    hide ToBits, FromBits, Low, Pow2, High;
    ToBitsSplit(h, n, b - n);
    assert ToBits(h, b)[..n] == ToBits(Low(h, n), n);
    FromToBitsExact(Low(h, n), n);
  }
}
