/** The theory behind build_tree: a trace of merges that always joins two least frequent nodes makes a code
    of least total length, and clipping its lengths leaves an excess that the repair loop can remove. */
module Huffman {
  import opened Bits
  import opened Canonical
  import opened Sums

  datatype Pair = Pair(n: nat, m: nat)

  /** Leaves are below e; merge i joins ms[i].n and ms[i].m into node e + i; f holds the frequencies. */
  datatype Trace = Trace(leaves: set<nat>, e: nat, ms: seq<Pair>, f: seq<nat>)

  function F(t: Trace, x: nat): nat { if x < |t.f| then t.f[x] else 0 }

  /** One more than the greatest node. */
  function Size(t: Trace): nat { t.e + |t.ms| }

  /** The roots of the forest after i merges. */
  ghost function Active(t: Trace, i: nat): set<nat>
    requires i <= |t.ms|
  {
    if i == 0 then t.leaves else Active(t, i - 1) - {t.ms[i - 1].n} - {t.ms[i - 1].m} + {t.e + i - 1}
  }

  ghost predicate MergeOk(t: Trace, i: nat)
    requires i < |t.ms|
  {
    var p := t.ms[i];
    p.n != p.m && p.n in Active(t, i) && p.m in Active(t, i) && F(t, t.e + i) == F(t, p.n) + F(t, p.m)
  }

  ghost predicate ValidTrace(t: Trace) {
    (forall x: nat | x in t.leaves :: x < t.e) && forall i: nat | i < |t.ms| :: MergeOk(t, i)
  }

  /** The height of a subtree, as the byte in which it is kept. */
  function Height(t: Trace, x: nat): nat
    decreases x
  {
    if x < t.e || x - t.e >= |t.ms| then 0
    else
      var p := t.ms[x - t.e];
      if p.n < x && p.m < x then OneUp(Height(t, p.n), Height(t, p.m)) else 0
  }

  function OneUp(a: nat, b: nat): nat { ((if a >= b then a else b) + 1) % 256 }

  /** The order of nodes: by frequency, and the lower subtree first among equals. */
  ghost predicate Precedes(t: Trace, x: nat, y: nat) { F(t, x) < F(t, y) || (F(t, x) == F(t, y) && Height(t, x) <= Height(t, y)) }

  /** Merge i joins the first root in this order and the first of the others. */
  ghost predicate LeastTwo(t: Trace, i: nat)
    requires i < |t.ms|
  {
    var p := t.ms[i];
    Precedes(t, p.n, p.m) && forall x: nat | x in Active(t, i) && x != p.n :: Precedes(t, p.m, x)
  }

  ghost predicate Greedy(t: Trace) { forall i: nat | i < |t.ms| :: LeastTwo(t, i) }

  lemma {:induction false} ActiveBound(t: Trace, i: nat)
    requires ValidTrace(t) && i <= |t.ms|
    ensures forall x: nat | x in Active(t, i) :: x < t.e + i && (x < t.e ==> x in t.leaves)
  {
    if i > 0 {
      ActiveBound(t, i - 1);
    }
  }

  lemma MergeSum(t: Trace, i: nat, w: nat -> int)
    requires ValidTrace(t) && i < |t.ms|
    ensures Sum(Active(t, i + 1), w, Size(t)) == Sum(Active(t, i), w, Size(t)) - w(t.ms[i].n) - w(t.ms[i].m) + w(t.e + i)
  {
    hide Sum;
    ActiveBound(t, i);
    var a, p := Active(t, i), t.ms[i];
    assert MergeOk(t, i);
    SumTwo(a, p.n, p.m, w, Size(t));
    SumAdd(a - {p.n} - {p.m}, t.e + i, w, Size(t));
  }

  // ---- clipped depths

  /** l holds the depths in the finished tree, clipped to max from the root downwards. */
  ghost predicate Clipped(t: Trace, l: seq<nat>, max: nat) {
    && |t.ms| > 0 && |l| >= Size(t) && 1 <= max <= MAX_BITS
    && Active(t, |t.ms|) == {Size(t) - 1} && l[Size(t) - 1] == 0
    && forall i: nat | i < |t.ms| :: ClippedPair(t, l, max, i)
  }

  ghost predicate ClippedPair(t: Trace, l: seq<nat>, max: nat, i: nat)
    requires |l| >= Size(t) && i < |t.ms|
  {
    var p := t.ms[i];
    p.n < |l| && p.m < |l| && l[p.n] == l[p.m] == Child(l[t.e + i], max)
  }

  function Child(len: nat, max: nat): nat { if len + 1 > max then max else len + 1 }

  /** How many of the merges from i on make a node of length max; each clips both its sons. */
  function Over(t: Trace, l: seq<nat>, max: nat, i: nat): nat
    requires |l| >= Size(t)
    decreases |t.ms| - i
  {
    if i >= |t.ms| then 0 else Over(t, l, max, i + 1) + (if l[t.e + i] == max then 1 else 0)
  }

  lemma {:induction false} ClippedBound(t: Trace, l: seq<nat>, max: nat, i: nat)
    requires ValidTrace(t) && Clipped(t, l, max) && i <= |t.ms|
    ensures forall x: nat | x in Active(t, i) :: x < |l| && l[x] <= max
    decreases |t.ms| - i
  {
    ActiveBound(t, i);
    if i < |t.ms| {
      ClippedBound(t, l, max, i + 1);
      assert ClippedPair(t, l, max, i);
      assert t.e + i in Active(t, i + 1);
      forall x: nat | x in Active(t, i)
        ensures l[x] <= max
      {
        if x != t.ms[i].n && x != t.ms[i].m {
          assert x in Active(t, i + 1);
        }
      }
    }
  }

  function UnitOf(l: seq<nat>, x: nat): int { if x < |l| then Unit(l[x]) else 0 }
  ghost function UnitW(l: seq<nat>): nat -> int { (x: nat) => UnitOf(l, x) }

  /** What the strings owned by two sons exceed those of their father by. */
  lemma SonsUnit(len: nat, max: nat)
    requires len <= max && 1 <= max <= MAX_BITS
    ensures 2 * Unit(Child(len, max)) == Unit(len) + (if len == max then Unit(max) else 0)
  {
  }

  /** The Kraft sum of the clipped lengths exceeds that of a full code by one unit for each clipped pair. */
  lemma {:induction false} KraftClipped(t: Trace, l: seq<nat>, max: nat, i: nat)
    requires ValidTrace(t) && Clipped(t, l, max) && i <= |t.ms|
    ensures Sum(Active(t, i), UnitW(l), Size(t)) == FULL + Scaled(Over(t, l, max, i), max)
    decreases |t.ms| - i
  {
    hide Sum, Unit, MergeOk;
    if i == |t.ms| {
      SumOne(Size(t) - 1, UnitW(l), Size(t));
      ScaledAdd(0, 0, max);
      ScaledFull(0);
      assert Scaled(Pow2(0), 0) == Unit(0);
    } else {
      KraftClipped(t, l, max, i + 1);
      ClippedBound(t, l, max, i + 1);
      assert t.e + i in Active(t, i + 1);
      MergeSum(t, i, UnitW(l));
      assert ClippedPair(t, l, max, i);
      SonsUnit(l[t.e + i], max);
      ScaledAdd(Over(t, l, max, i + 1), 1, max);
    }
  }

  function AtMax(l: seq<nat>, max: nat, x: nat): int { if x < |l| && l[x] == max then 1 else 0 }
  ghost function AtMaxW(l: seq<nat>, max: nat): nat -> int { (x: nat) => AtMax(l, max, x) }

  /** There are more leaves of length max than clipped pairs, so the repair loop never runs out of them. */
  lemma {:induction false} CountClipped(t: Trace, l: seq<nat>, max: nat, i: nat)
    requires ValidTrace(t) && Clipped(t, l, max) && i <= |t.ms|
    ensures Sum(Active(t, i), AtMaxW(l, max), Size(t)) >= Over(t, l, max, i) + (if Over(t, l, max, i) > 0 then 1 else 0)
    decreases |t.ms| - i
  {
    hide Sum, MergeOk;
    if i == |t.ms| {
      SumNonneg(Active(t, i), AtMaxW(l, max), Size(t));
    } else {
      CountClipped(t, l, max, i + 1);
      ClippedBound(t, l, max, i + 1);
      assert t.e + i in Active(t, i + 1);
      MergeSum(t, i, AtMaxW(l, max));
      assert ClippedPair(t, l, max, i);
      if l[t.e + i] == max {
        SumRemove(Active(t, i + 1), t.e + i, AtMaxW(l, max), Size(t));
        SumNonneg(Active(t, i + 1) - {t.e + i}, AtMaxW(l, max), Size(t));
      }
    }
  }

  // ---- cost

  function Times(a: int, b: int): int { a * b }

  function LenAt(l: seq<nat>, x: nat): nat { if x < |l| then l[x] else 0 }

  function CostAt(t: Trace, l: seq<nat>, x: nat): int { Times(F(t, x), LenAt(l, x)) }
  ghost function CostW(t: Trace, l: seq<nat>): nat -> int { (x: nat) => CostAt(t, l, x) }

  /** The total length of the leaves and roots after i merges, each as often as it occurs. */
  ghost function Cost(t: Trace, i: nat, l: seq<nat>): int
    requires i <= |t.ms|
  {
    Sum(Active(t, i), CostW(t, l), Size(t))
  }

  /** The total frequency of the nodes made by merges from i on. */
  function Rest(t: Trace, i: nat): nat
    decreases |t.ms| - i
  {
    if i >= |t.ms| then 0 else Rest(t, i + 1) + F(t, t.e + i)
  }

  lemma TimesNext(a: int, b: int, c: int, len: int)
    requires c == a + b
    ensures Times(a, len + 1) + Times(b, len + 1) == Times(c, len) + c
  {
  }

  /** Without clipping the lengths cost what the merges add up to. */
  lemma {:induction false} CostClipped(t: Trace, l: seq<nat>, max: nat, i: nat)
    requires ValidTrace(t) && Clipped(t, l, max) && i <= |t.ms| && Over(t, l, max, i) == 0
    ensures Cost(t, i, l) == Rest(t, i)
    decreases |t.ms| - i
  {
    hide Sum, F;
    if i == |t.ms| {
      SumOne(Size(t) - 1, CostW(t, l), Size(t));
      assert Times(F(t, Size(t) - 1), 0) == 0;
    } else {
      CostClipped(t, l, max, i + 1);
      ClippedBound(t, l, max, i + 1);
      assert t.e + i in Active(t, i + 1);
      MergeSum(t, i, CostW(t, l));
      CostSons(t, l, max, i);
    }
  }

  lemma CostSons(t: Trace, l: seq<nat>, max: nat, i: nat)
    requires ValidTrace(t) && Clipped(t, l, max) && i < |t.ms| && l[t.e + i] < max
    ensures CostAt(t, l, t.ms[i].n) + CostAt(t, l, t.ms[i].m) == CostAt(t, l, t.e + i) + F(t, t.e + i)
  {
    hide Active, Times, F;
    var p := t.ms[i];
    assert ClippedPair(t, l, max, i) && MergeOk(t, i);
    TimesNext(F(t, p.n), F(t, p.m), F(t, t.e + i), l[t.e + i]);
  }

  // ---- no other lengths cost less

  function Share(top: nat, len: nat): int { if len <= top then Pow2(top - len) else 0 }
  function ShareAt(top: nat, l: seq<nat>, x: nat): int { Share(top, LenAt(l, x)) }
  ghost function ShareW(top: nat, l: seq<nat>): nat -> int { (x: nat) => ShareAt(top, l, x) }

  /** Lengths up to top that satisfy the Kraft inequality on a. */
  ghost predicate Feasible(a: set<nat>, l: seq<nat>, top: nat) {
    (forall x: nat | x in a :: x < |l| && l[x] <= top) && Sum(a, ShareW(top, l), |l|) <= Pow2(top)
  }

  function Swap(l: seq<nat>, x: nat, y: nat): (r: seq<nat>)
    requires x < |l| && y < |l|
    ensures |r| == |l| && r[x] == l[y] && r[y] == l[x]
    ensures forall z: nat | z < |l| && z != x && z != y :: r[z] == l[z]
  {
    l[x := l[y]][y := l[x]]
  }

  lemma Exchange(a: int, b: int, c: int, d: int)
    requires a <= b && c <= d
    ensures Times(a, d) + Times(b, c) <= Times(a, c) + Times(b, d)
  {
    assert Times(a, c) + Times(b, d) - Times(a, d) - Times(b, c) == (b - a) * (d - c);
  }

  lemma SwapSum(a: set<nat>, w: nat -> int, v: nat -> int, x: nat, y: nat, k: nat)
    requires x in a && y in a && x != y && x < k && y < k
    requires forall z: nat | z in a && z < k && z != x && z != y :: w(z) == v(z)
    ensures Sum(a, v, k) - Sum(a, w, k) == v(x) + v(y) - w(x) - w(y)
  {
    hide Sum;
    SumTwo(a, x, y, w, k);
    SumTwo(a, x, y, v, k);
    SumExt(a - {x} - {y}, w, v, k);
  }

  /** Giving the rarer symbol the longer length does not cost more and keeps the lengths feasible. */
  lemma SwapBetter(t: Trace, i: nat, l: seq<nat>, top: nat, x: nat, y: nat)
    requires i <= |t.ms| && ValidTrace(t) && |l| == Size(t) && Feasible(Active(t, i), l, top)
    requires x in Active(t, i) && y in Active(t, i) && F(t, x) <= F(t, y) && l[x] <= l[y]
    ensures Feasible(Active(t, i), Swap(l, x, y), top)
    ensures Cost(t, i, Swap(l, x, y)) <= Cost(t, i, l)
  {
    hide Sum, Active, Times, ValidTrace, Share, Pow2, F, Swap;
    var a, k, swap := Active(t, i), Size(t), Swap(l, x, y);
    if x == y {
      assert swap == l;
    } else {
      SwapSum(a, ShareW(top, l), ShareW(top, swap), x, y, k);
      SwapSum(a, CostW(t, l), CostW(t, swap), x, y, k);
      Exchange(F(t, x), F(t, y), l[x], l[y]);
    }
  }

  /** A member of a with the greatest length. */
  lemma {:induction false} Longest(a: set<nat>, l: seq<nat>) returns (x: nat)
    requires a != {}
    ensures x in a && forall y: nat | y in a :: LenAt(l, y) <= LenAt(l, x)
    decreases |a|
  {
    hide LenAt;
    var z :| z in a;
    x := z;
    if a - {z} != {} {
      var y := Longest(a - {z}, l);
      x := if LenAt(l, z) <= LenAt(l, y) then y else z;
    }
    forall w: nat | w in a ensures LenAt(l, w) <= LenAt(l, x) {
      assert w == z || w in a - {z};
    }
  }

  /** Shares of lengths up to m are multiples of the share of m. */
  lemma {:induction false} ShareMultiple(a: set<nat>, l: seq<nat>, top: nat, m: nat, k: nat) returns (s: int)
    requires m <= top && forall x: nat | x in a && x < k :: LenAt(l, x) <= m
    ensures Sum(a, ShareW(top, l), k) == Times(s, Pow2(top - m))
  {
    hide Pow2, LenAt;
    if k == 0 {
      s := 0;
      assert Times(0, Pow2(top - m)) == 0;
    } else {
      s := ShareMultiple(a, l, top, m, k - 1);
      if k - 1 in a {
        s := TimesAdd(s, top, m, LenAt(l, k - 1));
      }
    }
  }

  lemma TimesAdd(s: int, top: nat, m: nat, len: nat) returns (r: int)
    requires len <= m <= top
    ensures Times(r, Pow2(top - m)) == Times(s, Pow2(top - m)) + Share(top, len)
  {
    hide Pow2;
    Pow2Add(m - len, top - m);
    MulAdd(s, Pow2(m - len), Pow2(top - m));
    r := s + Pow2(m - len);
  }

  lemma RoundUp(s: int, q: int, r: int, full: int)
    requires q >= 1 && 0 < r && s * q + r <= full * q
    ensures (s + 1) * q <= full * q
  {
    if s >= full {
      MulMono(full, s, q);
    } else {
      MulMono(s + 1, full, q);
    }
  }

  /** If all but n have lengths up to that of m, the length of n can come down to that of m. */
  lemma Shorten(t: Trace, i: nat, l: seq<nat>, top: nat, n: nat, m: nat)
    requires i <= |t.ms| && ValidTrace(t) && |l| == Size(t) && Feasible(Active(t, i), l, top)
    requires n in Active(t, i) && m in Active(t, i) && n != m && l[m] <= l[n]
    requires forall x: nat | x in Active(t, i) && x != n :: x < |l| && l[x] <= l[m]
    ensures Feasible(Active(t, i), l[n := l[m]], top) && Cost(t, i, l[n := l[m]]) <= Cost(t, i, l)
  {
    hide Sum, Active, Times, ValidTrace, Share, F, Pow2;
    var a, k := Active(t, i), Size(t);
    var b, short := a - {n}, l[n := l[m]];
    SumChange(a, n, CostW(t, l), CostW(t, short), k);
    TimesMono(F(t, n), l[m], l[n]);
    SumRemove(a, n, ShareW(top, l), k);
    SumRemove(a, n, ShareW(top, short), k);
    SumExt(b, ShareW(top, l), ShareW(top, short), k);
    var s := ShareMultiple(b, l, top, l[m], k);
    ShareFits(s, top, l[m], l[n]);
  }

  lemma ShareFits(s: int, top: nat, m: nat, n: nat)
    requires m <= n <= top && Times(s, Pow2(top - m)) + Share(top, n) <= Pow2(top)
    ensures Times(s, Pow2(top - m)) + Share(top, m) <= Pow2(top)
  {
    Pow2Add(m, top - m);
    RoundUp(s, Pow2(top - m), Pow2(top - n), Pow2(m));
    MulAdd(s, 1, Pow2(top - m));
  }

  lemma TimesMono(a: nat, b: int, c: int)
    requires b <= c
    ensures Times(a, b) <= Times(a, c)
  {
    MulMono(b, c, a);
  }

  /** Two symbols of the same length, joined into one that is a bit shorter. */
  lemma Join(t: Trace, i: nat, l: seq<nat>, top: nat) returns (joined: seq<nat>)
    requires ValidTrace(t) && i < |t.ms| && |l| == Size(t) && Feasible(Active(t, i), l, top)
    requires t.ms[i].n < |l| && t.ms[i].m < |l| && l[t.ms[i].n] == l[t.ms[i].m]
    ensures |joined| == Size(t) && Feasible(Active(t, i + 1), joined, top)
    ensures Cost(t, i, l) == Cost(t, i + 1, joined) + F(t, t.e + i)
  {
    hide Sum, Times, Share, F, Pow2;
    var a, p, node := Active(t, i), t.ms[i], t.e + i;
    ActiveBound(t, i);
    assert MergeOk(t, i);
    var len := l[p.n];
    JoinFits(a, l, p.n, p.m, top);
    joined := l[node := len - 1];
    assert Active(t, i + 1) == a - {p.n} - {p.m} + {node};
    JoinSum(a, ShareW(top, l), ShareW(top, joined), p.n, p.m, node, Size(t));
    JoinSum(a, CostW(t, l), CostW(t, joined), p.n, p.m, node, Size(t));
    TimesNext(F(t, p.n), F(t, p.m), F(t, node), len - 1);
  }

  lemma JoinFits(a: set<nat>, l: seq<nat>, x: nat, y: nat, top: nat)
    requires Feasible(a, l, top) && x in a && y in a && x != y && l[x] == l[y]
    ensures l[x] >= 1 && Share(top, l[x] - 1) == Share(top, l[x]) + Share(top, l[x])
  {
    hide Sum;
    var b, w := a - {x} - {y}, ShareW(top, l);
    SumTwo(a, x, y, w, |l|);
    SumNonneg(b, w, |l|);
    JoinShare(top, l[x], Sum(b, w, |l|));
  }

  lemma JoinSum(a: set<nat>, w: nat -> int, v: nat -> int, x: nat, y: nat, z: nat, k: nat)
    requires x in a && y in a && x != y && x < k && y < k && z !in a && z < k
    requires forall u: nat | u in a && u < k && u != x && u != y :: w(u) == v(u)
    ensures Sum(a - {x} - {y} + {z}, v, k) == Sum(a, w, k) - w(x) - w(y) + v(z)
  {
    hide Sum;
    SumTwo(a, x, y, w, k);
    SumExt(a - {x} - {y}, w, v, k);
    SumAdd(a - {x} - {y}, z, v, k);
  }

  lemma JoinShare(top: nat, len: nat, rest: int)
    requires len <= top && rest >= 0 && rest + Share(top, len) + Share(top, len) <= Pow2(top)
    ensures len >= 1 && Share(top, len - 1) == Share(top, len) + Share(top, len)
  {
  }

  /** Swapping the longest to n first, nothing swapped later is longer. */
  lemma LongestFirst(l: seq<nat>, n: nat, x: nat, m: nat, y: nat, a: set<nat>)
    requires n in a && x in a && m in a && y in a && n != m && n != y
    requires forall z: nat | z in a :: z < |l| && LenAt(l, z) <= LenAt(l, x)
    ensures var l2 := Swap(Swap(l, n, x), m, y); l2[m] <= l2[n]
  {
  }

  /** The two least frequent roots can have equal lengths, at least as long as all others, at no more cost. */
  lemma Normalize(t: Trace, i: nat, l: seq<nat>, top: nat) returns (r: seq<nat>)
    requires ValidTrace(t) && i < |t.ms| && LeastTwo(t, i) && |l| == Size(t) && Feasible(Active(t, i), l, top)
    ensures |r| == Size(t) && Feasible(Active(t, i), r, top) && Cost(t, i, r) <= Cost(t, i, l)
    ensures t.ms[i].n < |r| && t.ms[i].m < |r| && r[t.ms[i].n] == r[t.ms[i].m]
  {
    hide Sum, Active, Share, F, Cost, Feasible, Swap;
    var p, a := t.ms[i], Active(t, i);
    ActiveBound(t, i);
    assert MergeOk(t, i);
    assert p.n in a && p.m in a && p.n != p.m;
    var x := Longest(a, l);
    SwapBetter(t, i, l, top, p.n, x);
    var l1 := Swap(l, p.n, x);
    assert p.m in a - {p.n};
    var y := Longest(a - {p.n}, l1);
    SwapBetter(t, i, l1, top, p.m, y);
    var l2 := Swap(l1, p.m, y);
    forall z: nat | z in a && z != p.n
      ensures l2[z] <= l2[p.m]
    {
      assert z in a - {p.n} && LenAt(l1, z) <= LenAt(l1, y) && LenAt(l1, p.m) <= LenAt(l1, y);
    }
    LongestFirst(l, p.n, x, p.m, y, a);
    Shorten(t, i, l2, top, p.n, p.m);
    r := l2[p.n := l2[p.m]];
  }

  /** Every feasible choice of lengths for the forest after i merges costs at least what the remaining merges cost. */
  lemma {:induction false} LowerBound(t: Trace, i: nat, l: seq<nat>, top: nat)
    requires ValidTrace(t) && Greedy(t) && i <= |t.ms| && |l| == Size(t) && Feasible(Active(t, i), l, top)
    ensures Cost(t, i, l) >= Rest(t, i)
    decreases |t.ms| - i
  {
    hide Sum, Active, F, Feasible, ValidTrace, LeastTwo;
    if i == |t.ms| {
      SumNonneg(Active(t, i), CostW(t, l), Size(t));
    } else {
      assert LeastTwo(t, i);
      var r := Normalize(t, i, l, top);
      var joined := Join(t, i, r, top);
      LowerBound(t, i + 1, joined, top);
    }
  }

  // ---- prefix codes

  /** The strings code[x] for x in a are distinct and none starts with another one. */
  ghost predicate PrefixFree(a: set<nat>, code: seq<seq<bool>>) {
    (forall x: nat | x in a :: x < |code|) &&
    forall x: nat, y: nat | x in a && y in a && x != y :: !(code[x] <= code[y])
  }

  function CodeLens(code: seq<seq<bool>>): (l: seq<nat>)
    ensures |l| == |code| && forall x: nat | x < |l| :: l[x] == |code[x]|
  {
    seq(|code|, x requires 0 <= x < |code| => |code[x]|)
  }

  /** Kraft's inequality, for the part of a prefix code below the prefix p. */
  lemma {:induction false} KraftInequality(a: set<nat>, code: seq<seq<bool>>, p: seq<bool>, top: nat)
    requires PrefixFree(a, code) && |p| <= top
    requires forall x: nat | x in a :: x < |code| && p <= code[x] && |code[x]| <= top
    ensures Sum(a, ShareW(top, CodeLens(code)), |code|) <= Pow2(top - |p|)
    decreases top - |p|
  {
    hide Sum, PrefixFree;
    var w, k := ShareW(top, CodeLens(code)), |code|;
    if a == {} {
      SumNone(w, k);
    } else if x: nat :| x in a && code[x] == p {
      AtPrefix(a, code, p, x);
      SumOne(x, w, k);
    } else {
      var z: nat :| z in a;
      assert |p| < |code[z]|;
      var b, c := Halves(a, code, p);
      KraftInequality(b, code, p + [false], top);
      KraftInequality(c, code, p + [true], top);
      SumParts(b, c, w, k);
      assert Pow2(top - |p|) == 2 * Pow2(top - |p| - 1);
    }
  }

  /** The codes that go on after p with a zero, and those that go on with a one. */
  lemma Halves(a: set<nat>, code: seq<seq<bool>>, p: seq<bool>) returns (b: set<nat>, c: set<nat>)
    requires PrefixFree(a, code) && forall x: nat | x in a :: p <= code[x] && code[x] != p
    ensures a == b + c && b !! c && PrefixFree(b, code) && PrefixFree(c, code)
    ensures forall x: nat | x in b :: x in a && p + [false] <= code[x]
    ensures forall x: nat | x in c :: x in a && p + [true] <= code[x]
  {
    b := set y: nat | y in a && |code[y]| > |p| && !code[y][|p|];
    c := a - b;
  }

  lemma AtPrefix(a: set<nat>, code: seq<seq<bool>>, p: seq<bool>, x: nat)
    requires PrefixFree(a, code) && x in a && code[x] == p && forall y: nat | y in a :: p <= code[y]
    ensures a == {x}
  {
    forall y: nat | y in a
      ensures y == x
    {
      assert code[x] <= code[y];
    }
  }

  /** The greedy lengths cost no more than any prefix code for the same symbols. */
  lemma Optimal(t: Trace, l: seq<nat>, max: nat, code: seq<seq<bool>>)
    requires ValidTrace(t) && Greedy(t) && Clipped(t, l, max) && Over(t, l, max, 0) == 0
    requires PrefixFree(t.leaves, code) && |code| == Size(t)
    ensures Cost(t, 0, l) <= Cost(t, 0, CodeLens(code))
  {
    hide Sum, Clipped, MergeOk, Cost, Greedy;
    CostClipped(t, l, max, 0);
    ActiveBound(t, 0);
    var top := 0;
    if t.leaves != {} {
      var x := Longest(t.leaves, CodeLens(code));
      top := |code[x]|;
    }
    KraftInequality(t.leaves, code, [], top);
    LowerBound(t, 0, CodeLens(code), top);
  }
}
