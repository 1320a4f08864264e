/** The length limit of gen_bitlen: the loop that moves overflowing leaves until the counts of lengths
    make a full code again. */
module Repair {
  import opened Bits
  import opened Canonical

  /** The strings owned by c[b] codes of each length b from 1 up to l - 1. */
  function Owned(c: seq<nat>, l: nat): nat
    requires l <= |c|
  {
    if l <= 1 then 0 else Owned(c, l - 1) + Scaled(c[l - 1], l - 1)
  }

  /** How many codes there are. */
  function Total(c: seq<nat>, l: nat): nat
    requires l <= |c|
  {
    if l <= 1 then 0 else Total(c, l - 1) + c[l - 1]
  }

  lemma {:induction false} OwnedChange(c: seq<nat>, b: nat, v: nat, l: nat)
    requires 1 <= b < |c| && l <= |c|
    ensures Owned(c[b := v], l) == Owned(c, l) + (if b < l then Scaled(v, b) - Scaled(c[b], b) else 0)
    ensures Total(c[b := v], l) == Total(c, l) + (if b < l then v - c[b] else 0)
  {
    hide Scaled;
    if l > 1 {
      OwnedChange(c, b, v, l - 1);
    }
  }

  /** Counts of one length only. */
  lemma {:induction false} OwnedSingle(c: seq<nat>, b: nat, l: nat)
    requires 1 <= b < |c| && l <= |c| && forall k: nat | 1 <= k < l && k != b :: c[k] == 0
    ensures Owned(c, l) == (if b < l then Scaled(c[b], b) else 0) && Total(c, l) == (if b < l then c[b] else 0)
  {
    hide Scaled;
    if l > 1 {
      OwnedSingle(c, b, l - 1);
      ScaledAdd(0, 0, l - 1);
    }
  }

  /** The counts while o pairs still overflow at length max. */
  ghost predicate Excess(c: seq<nat>, max: nat, o: nat, leaves: nat) {
    && |c| == MAX_BITS + 1 && 1 <= max <= MAX_BITS && c[0] == 0
    && (forall b: nat | max < b <= MAX_BITS :: c[b] == 0)
    && Owned(c, MAX_BITS + 1) == FULL + Scaled(o, max)
    && Total(c, MAX_BITS + 1) == leaves <= Pow2(max)
    && (o > 0 ==> c[max] >= o + 1)
  }

  /** Not all leaves have length max: there are at most 2^max of them, too few for an excess. */
  lemma NotAllAtMax(c: seq<nat>, max: nat, o: nat, leaves: nat)
    requires Excess(c, max, o, leaves) && o > 0
    ensures !(forall k: nat | 1 <= k < max :: c[k] == 0)
  {
    hide Scaled, Owned, Total, Pow2;
    if forall k: nat | 1 <= k < max :: c[k] == 0 {
      OwnedSingle(c, max, MAX_BITS + 1);
      ScaledFull(max);
      ScaledMono(c[max], Pow2(max), max);
      ScaledMono(1, o, max);
      ScaledAdd(1, 0, max);
    }
  }

  /** As long as there is an excess, some leaf is shorter than max. */
  lemma SomeShorter(c: seq<nat>, max: nat, o: nat, leaves: nat) returns (b: nat)
    requires Excess(c, max, o, leaves) && o > 0
    ensures 1 <= b < max && c[b] > 0
  {
    hide Scaled, Owned, Total, Pow2;
    NotAllAtMax(c, max, o, leaves);
    b :| 1 <= b < max && c[b] != 0;
  }

  /** One leaf of length b becomes the father of itself and of an overflowing leaf. */
  function Moved(c: seq<nat>, b: nat, max: nat): (r: seq<nat>)
    requires b < max < |c| && c[b] >= 1 && c[max] >= 1
    ensures |r| == |c|
  {
    var c1 := c[b := c[b] - 1];
    var c2 := c1[b + 1 := c1[b + 1] + 2];
    c2[max := c2[max] - 1]
  }

  /** b is the greatest length below max that a leaf has. */
  ghost predicate LongestBelow(c: seq<nat>, b: nat, max: nat) {
    1 <= b < max < |c| && c[b] > 0 && forall k: nat | b < k < max :: c[k] == 0
  }

  /** n rounds, each of which makes one of the longest leaves below max one bit longer, lead from c to r. */
  ghost predicate Rounds(c: seq<nat>, r: seq<nat>, max: nat, n: nat)
    decreases n
  {
    if n == 0 then r == c
    else exists m: seq<nat>, b: nat :: Rounds(c, m, max, n - 1) && LongestBelow(m, b, max) && m[max] >= 1 && r == Moved(m, b, max)
  }

  lemma RoundsNone(c: seq<nat>, max: nat)
    ensures Rounds(c, c, max, 0)
  {
  }

  lemma RoundsNext(c: seq<nat>, m: seq<nat>, r: seq<nat>, b: nat, max: nat, n: nat)
    requires Rounds(c, m, max, n) && LongestBelow(m, b, max) && m[max] >= 1 && r == Moved(m, b, max)
    ensures Rounds(c, r, max, n + 1)
  {
  }

  lemma MoveKeeps(c: seq<nat>, b: nat, max: nat, o: nat, leaves: nat)
    requires Excess(c, max, o + 1, leaves) && 1 <= b < max && c[b] > 0
    ensures Excess(Moved(c, b, max), max, o, leaves)
  {
    hide Scaled, Owned, Total, Pow2;
    var l := MAX_BITS + 1;
    var c1 := c[b := c[b] - 1];
    var c2 := c1[b + 1 := c1[b + 1] + 2];
    OwnedChange(c, b, c[b] - 1, l);
    OwnedChange(c1, b + 1, c1[b + 1] + 2, l);
    OwnedChange(c2, max, c2[max] - 1, l);
    ScaledAdd(c[b] - 1, 1, b);
    ScaledAdd(c1[b + 1], 2, b + 1);
    ScaledAdd(c2[max] - 1, 1, max);
    ScaledTwice(1, b + 1);
    ScaledAdd(1, 0, b);
    ScaledAdd(o, 1, max);
  }

  /** The do-while loop of gen_bitlen: it ends, keeps the number of leaves, never takes a count below zero,
      and leaves lengths up to max that fill the code space exactly, each round at the expense of a longest leaf. */
  method FixOverflow(blCount: array<nat>, max: nat, overflow0: int, ghost leaves: nat)
    requires overflow0 > 0 && overflow0 % 2 == 0 && Excess(blCount[..], max, overflow0 / 2, leaves)
    modifies blCount
    ensures Excess(blCount[..], max, 0, leaves) && Rounds(old(blCount[..]), blCount[..], max, overflow0 / 2)
  {
    hide Excess, Rounds;
    var overflow := overflow0;
    RoundsNone(blCount[..], max);
    while overflow > 0
      invariant overflow >= 0 && overflow % 2 == 0 && Excess(blCount[..], max, overflow / 2, leaves)
      invariant overflow <= overflow0 && Rounds(old(blCount[..]), blCount[..], max, (overflow0 - overflow) / 2)
      decreases overflow
    {
      ghost var c, o := blCount[..], overflow / 2;
      ghost var some := SomeShorter(c, max, o, leaves);
      ExcessBounds(c, max, o, leaves);
      var bits := max - 1;
      while blCount[bits] == 0
        invariant some <= bits < max && blCount[..] == c && forall k: nat | bits < k < max :: c[k] == 0
        decreases bits
      {
        bits := bits - 1;
      }
      blCount[bits] := blCount[bits] - 1;
      blCount[bits + 1] := blCount[bits + 1] + 2;
      blCount[max] := blCount[max] - 1;
      assert blCount[..] == Moved(c, bits, max);
      MoveKeeps(c, bits, max, o - 1, leaves);
      RoundsNext(old(blCount[..]), c, blCount[..], bits, max, (overflow0 - overflow) / 2);
      overflow := overflow - 2;
    }
  }

  lemma ExcessBounds(c: seq<nat>, max: nat, o: nat, leaves: nat)
    requires Excess(c, max, o, leaves) && o > 0
    ensures |c| == MAX_BITS + 1 && 1 <= max <= MAX_BITS && c[max] >= 1
  {
  }
}
