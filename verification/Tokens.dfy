/** The LZ77 tokens between the two layers: literals and matches, and what they expand to. */
module Tokens {
  import opened Bits

  const MIN_MATCH: nat := 3
  const MAX_MATCH: nat := 258
  const MAX_WINDOW: nat := 32768

  datatype Token = Literal(b: byte) | Match(length: nat, dist: nat)

  /** h followed by n bytes, each copied from dist bytes before it. */
  function Copy(h: seq<byte>, dist: nat, n: nat): (r: seq<byte>)
    ensures |r| >= |h| && r[..|h|] == h
    decreases n
  {
    if n == 0 || dist == 0 || dist > |h| then h
    else Copy(h + [h[|h| - dist]], dist, n - 1)
  }

  lemma CopyNone(h: seq<byte>, dist: nat)
    ensures Copy(h, dist, 0) == h
  {
  }

  function Apply(h: seq<byte>, t: Token): seq<byte> {
    match t
    case Literal(b) => h + [b]
    case Match(length, dist) => Copy(h, dist, length)
  }

  /** The history h extended by a token list. */
  function Expand(h: seq<byte>, ts: seq<Token>): seq<byte>
    decreases |ts|
  {
    if |ts| == 0 then h else Apply(Expand(h, ts[..|ts| - 1]), ts[|ts| - 1])
  }

  predicate ValidToken(t: Token) {
    t.Match? ==> MIN_MATCH <= t.length <= MAX_MATCH && 1 <= t.dist <= MAX_WINDOW
  }

  /** Every match reaches back into the history it extends. */
  predicate ValidTokens(h: seq<byte>, ts: seq<Token>)
    decreases |ts|
  {
    |ts| == 0 ||
    (ValidTokens(h, ts[..|ts| - 1]) && ValidToken(ts[|ts| - 1]) &&
     (ts[|ts| - 1].Match? ==> ts[|ts| - 1].dist <= |Expand(h, ts[..|ts| - 1])|))
  }

  lemma {:induction false} CopyLength(h: seq<byte>, dist: nat, n: nat)
    requires 1 <= dist <= |h|
    ensures |Copy(h, dist, n)| == |h| + n
    decreases n
  {
    if n > 0 {
      CopyLength(h + [h[|h| - dist]], dist, n - 1);
    }
  }

  /** Copying in two parts. */
  lemma {:induction false} CopyAppend(h: seq<byte>, dist: nat, m: nat, n: nat)
    requires 1 <= dist <= |h|
    ensures Copy(Copy(h, dist, m), dist, n) == Copy(h, dist, m + n)
    decreases m
  {
    if m > 0 {
      CopyAppend(h + [h[|h| - dist]], dist, m - 1, n);
    }
  }

  /** One more byte at the end. */
  lemma CopyNext(h: seq<byte>, dist: nat, n: nat)
    requires 1 <= dist <= |h|
    ensures |Copy(h, dist, n)| == |h| + n
    ensures Copy(h, dist, n + 1) == Copy(h, dist, n) + [Copy(h, dist, n)[|h| + n - dist]]
  {
    CopyLength(h, dist, n);
    CopyAppend(h, dist, n, 1);
    var c := Copy(h, dist, n);
    assert Copy(c, dist, 1) == Copy(c + [c[|c| - dist]], dist, 0);
  }

  lemma {:induction false} ExpandAppend(h: seq<byte>, ts: seq<Token>, us: seq<Token>)
    ensures Expand(h, ts + us) == Expand(Expand(h, ts), us)
    ensures ValidTokens(h, ts + us) <==> ValidTokens(h, ts) && ValidTokens(Expand(h, ts), us)
    decreases |us|
  {
    if |us| == 0 {
      assert ts + us == ts;
    } else {
      ExpandAppend(h, ts, us[..|us| - 1]);
      assert (ts + us)[..|ts + us| - 1] == ts + us[..|us| - 1];
    }
  }
}
