/** The hash chains of deflate.c as sequences: what head and prev say about the strings inserted so far.
    Strings are named by their absolute position in the input; window index i is position base + i. */
module Chains {
  import opened Bits
  import opened Hash

  /** hash_bits, hash_shift and w_size. */
  datatype Geometry = Geometry(k: nat, s: nat, wsize: nat)

  ghost predicate GoodGeometry(g: Geometry) { GoodHash(g.k, g.s) && 512 <= g.wsize <= 32768 }

  function HashAt(g: Geometry, x: seq<byte>, a: nat): (h: nat)
    requires a + 2 < |x|
    ensures h < Pow2(g.k)
  {
    Hash3(g.k, g.s, x[a], x[a + 1], x[a + 2])
  }

  /** The inserted strings lie before top and are complete. */
  ghost predicate Inserted(ins: set<nat>, x: seq<byte>, top: nat) {
    forall a: nat | a in ins :: a + 2 < |x| && a < top
  }

  /** A string with hash h has been inserted at a. */
  predicate Hit(g: Geometry, x: seq<byte>, ins: set<nat>, h: nat, a: nat) {
    a in ins && a + 2 < |x| && HashAt(g, x, a) == h
  }

  /** The window index of the newest string with hash h inserted before position a, or NIL: index 0 does not count. */
  function Latest(g: Geometry, x: seq<byte>, base: nat, ins: set<nat>, h: nat, a: nat): (u: nat)
    ensures u != 0 ==> base + u < a && Hit(g, x, ins, h, base + u)
    ensures forall b: nat | base < b < a && Hit(g, x, ins, h, b) :: b <= base + u
    decreases a
  {
    if a <= base + 1 then 0
    else if Hit(g, x, ins, h, a - 1) then a - 1 - base
    else Latest(g, x, base, ins, h, a - 1)
  }

  /** Strings that are inserted later, or input that is read later, make no difference. */
  lemma {:induction false} LatestSame(g: Geometry, x: seq<byte>, y: seq<byte>, base: nat, ins: set<nat>, more: set<nat>, h: nat, a: nat)
    requires forall b: nat | b < a :: Hit(g, x, ins, h, b) <==> Hit(g, y, more, h, b)
    ensures Latest(g, y, base, more, h, a) == Latest(g, x, base, ins, h, a)
    decreases a
  {
    hide Hit;
    if a > base + 1 {
      LatestSame(g, x, y, base, ins, more, h, a - 1);
    }
  }

  /** Nothing is found where nothing has been inserted. */
  lemma {:induction false} LatestGap(g: Geometry, x: seq<byte>, base: nat, ins: set<nat>, h: nat, a: nat, b: nat)
    requires a <= b && forall i: nat | i in ins :: i < a
    ensures Latest(g, x, base, ins, h, b) == Latest(g, x, base, ins, h, a)
    decreases b
  {
    if a < b {
      LatestGap(g, x, base, ins, h, a, b - 1);
    }
  }

  /** The slide moves the index, and drops it if it falls out of the window. */
  lemma {:induction false} LatestSlide(g: Geometry, x: seq<byte>, base: nat, ins: set<nat>, h: nat, a: nat)
    ensures Latest(g, x, base + g.wsize, ins, h, a) == Slid(Latest(g, x, base, ins, h, a), g.wsize)
    decreases a
  {
    hide Hit;
    if a > base + g.wsize + 1 {
      LatestSlide(g, x, base, ins, h, a - 1);
    }
  }

  /** The newest n strings with hash h inserted between the positions low and a, newest first. */
  function Earlier(g: Geometry, x: seq<byte>, ins: set<nat>, h: nat, low: nat, a: nat, n: nat): (s: seq<nat>)
    ensures |s| <= n && forall i | 0 <= i < |s| :: low < s[i] < a && Hit(g, x, ins, h, s[i])
    decreases a
  {
    if n == 0 || a <= low + 1 then []
    else if Hit(g, x, ins, h, a - 1) then [a - 1] + Earlier(g, x, ins, h, low, a - 1, n - 1)
    else Earlier(g, x, ins, h, low, a - 1, n)
  }

  /** None is left out unless there are n newer ones, and they come in descending order. */
  lemma {:induction false} EarlierAll(g: Geometry, x: seq<byte>, ins: set<nat>, h: nat, low: nat, a: nat, n: nat)
    ensures var s := Earlier(g, x, ins, h, low, a, n);
      && (forall b: nat | low < b < a && Hit(g, x, ins, h, b) :: b in s || (|s| == n && forall i | 0 <= i < n :: b < s[i]))
      && (forall i, j | 0 <= i < j < |s| :: s[i] > s[j])
    decreases a
  {
    hide Hit;
    if n > 0 && a > low + 1 {
      EarlierAll(g, x, ins, h, low, a - 1, if Hit(g, x, ins, h, a - 1) then n - 1 else n);
    }
  }

  /** The newest of them first, then those before it. */
  lemma {:induction false} EarlierStep(g: Geometry, x: seq<byte>, base: nat, ins: set<nat>, h: nat, low: nat, a: nat, n: nat)
    requires n > 0 && base <= low
    ensures var u := Latest(g, x, base, ins, h, a);
      Earlier(g, x, ins, h, low, a, n) == if base + u <= low then [] else [base + u] + Earlier(g, x, ins, h, low, base + u, n - 1)
    decreases a
  {
    hide Hit;
    if a > low + 1 {
      if !Hit(g, x, ins, h, a - 1) {
        EarlierStep(g, x, base, ins, h, low, a - 1, n);
      }
    }
  }

  /** The strings that longest_match looks at for the one at p: the newest with its hash, if it is not farther away than
      far, and the older ones that are nearer than far, until there are n. */
  function Candidates(g: Geometry, x: seq<byte>, base: nat, ins: set<nat>, p: nat, far: int, n: nat): (s: seq<nat>)
    requires p + 2 < |x| && n > 0
    ensures forall i | 0 <= i < |s| :: base < s[i] < p && p - s[i] <= far && Hit(g, x, ins, HashAt(g, x, p), s[i])
  {
    var h := HashAt(g, x, p);
    var u := Latest(g, x, base, ins, h, p);
    if u == 0 || p - (base + u) > far then []
    else [base + u] + Earlier(g, x, ins, h, Lowest(base, p - far), base + u, n - 1)
  }

  function Lowest(base: nat, p: int): nat { if p > base then p else base }

  /** A string that is not among the candidates has not been inserted, has another hash, is out of reach, or comes after
      n newer ones. */
  lemma CandidatesAll(g: Geometry, x: seq<byte>, base: nat, ins: set<nat>, p: nat, far: int, n: nat, a: nat)
    requires p + 2 < |x| && n > 0 && base < a < p && p - a < far && Hit(g, x, ins, HashAt(g, x, p), a)
    ensures var s := Candidates(g, x, base, ins, p, far, n);
      a in s || (|s| == n && forall i | 0 <= i < n :: a < s[i])
  {
    hide Hit, HashAt;
    var h := HashAt(g, x, p);
    var u := Latest(g, x, base, ins, h, p);
    EarlierAll(g, x, ins, h, Lowest(base, p - far), base + u, n - 1);
  }

  /** Every entry of head is the newest string with its hash before top. */
  ghost predicate HeadOk(g: Geometry, head: seq<nat>, x: seq<byte>, base: nat, ins: set<nat>, top: nat) {
    forall h: nat | h < |head| :: head[h] == Latest(g, x, base, ins, h, top)
  }

  /** The slot of prev for position a. */
  function Slot(g: Geometry, base: nat, a: nat): (r: nat)
    requires g.wsize > 0 && a >= base
    ensures r < g.wsize
  {
    (a - base) % g.wsize
  }

  /** Every inserted string whose slot has not been taken over is linked to the newest older string with its hash. */
  ghost predicate PrevOk(g: Geometry, prev: seq<nat>, x: seq<byte>, base: nat, ins: set<nat>, top: nat)
    requires |prev| == g.wsize > 0
  {
    forall a: nat | a in ins && a > base && a + g.wsize >= top && a + 2 < |x| ::
      prev[Slot(g, base, a)] == Latest(g, x, base, ins, HashAt(g, x, a), a)
  }

  /** Slots written so far lead to slots written so far, at window indices below bound. */
  ghost predicate SlotsOk(g: Geometry, head: seq<nat>, prev: seq<nat>, slots: set<nat>, bound: nat)
    requires |prev| == g.wsize > 0
  {
    && (forall h: nat | h < |head| :: SlotLink(g, head[h], slots, bound))
    && (forall r: nat | r in slots :: r < g.wsize && SlotLink(g, prev[r], slots, bound))
  }

  ghost predicate SlotLink(g: Geometry, u: nat, slots: set<nat>, bound: nat)
    requires g.wsize > 0
  {
    u == 0 || (u < bound && u % g.wsize in slots)
  }

  ghost predicate ChainsOk(g: Geometry, head: seq<nat>, prev: seq<nat>, x: seq<byte>, base: nat, ins: set<nat>, slots: set<nat>, p: nat) {
    && |prev| == g.wsize > 0
    && Inserted(ins, x, base + p) && HeadOk(g, head, x, base, ins, base + p)
    && PrevOk(g, prev, x, base, ins, base + p) && SlotsOk(g, head, prev, slots, p)
  }

  /** Skipping positions, or reading more input, keeps the chains. */
  lemma ChainsGrow(g: Geometry, head: seq<nat>, prev: seq<nat>, x: seq<byte>, y: seq<byte>, base: nat, ins: set<nat>, slots: set<nat>, p: nat, q: nat)
    requires ChainsOk(g, head, prev, x, base, ins, slots, p) && p <= q && x <= y
    ensures ChainsOk(g, head, prev, y, base, ins, slots, q)
  {
    hide Hash3, Latest, Slot;
    forall h: nat | h < |head|
      ensures head[h] == Latest(g, y, base, ins, h, base + q) && SlotLink(g, head[h], slots, q)
    {
      LatestSame(g, x, y, base, ins, ins, h, base + p);
      LatestGap(g, y, base, ins, h, base + p, base + q);
      assert SlotLink(g, head[h], slots, p);
    }
    forall a: nat | a in ins && a > base && a + g.wsize >= base + q && a + 2 < |y|
      ensures prev[Slot(g, base, a)] == Latest(g, y, base, ins, HashAt(g, y, a), a)
    {
      LatestSame(g, x, y, base, ins, ins, HashAt(g, y, a), a);
    }
    forall r: nat | r in slots
      ensures r < g.wsize && SlotLink(g, prev[r], slots, q)
    {
      assert SlotLink(g, prev[r], slots, p);
    }
  }

  /** Two positions share a slot only if they are at least w_size apart. */
  lemma SlotApart(g: Geometry, base: nat, a: nat, b: nat)
    requires g.wsize > 0 && base <= a < b && Slot(g, base, a) == Slot(g, base, b)
    ensures a + g.wsize <= b
  {
    var d := g.wsize;
    DivSplit(a - base, d);
    DivSplit(b - base, d);
    var q, r := (a - base) / d, (b - base) / d;
    if q >= r {
      MulMono(r, q, d);
    } else {
      MulMono(q + 1, r, d);
      MulAdd(q, 1, d);
    }
  }

  /** Strings inserted at top or later are not among the newest before a position up to top. */
  lemma LatestInsert(g: Geometry, x: seq<byte>, base: nat, ins: set<nat>, p: nat, h: nat, a: nat)
    requires a <= p
    ensures Latest(g, x, base, ins + {p}, h, a) == Latest(g, x, base, ins, h, a)
  {
    hide HashAt, Latest;
    LatestSame(g, x, x, base, ins, ins + {p}, h, a);
  }

  /** The string inserted last is the newest with its hash. */
  lemma LatestPut(g: Geometry, x: seq<byte>, base: nat, ins: set<nat>, p: nat, h: nat)
    requires p >= base && p + 2 < |x|
    ensures Latest(g, x, base, ins + {p}, h, p + 1) == if h == HashAt(g, x, p) then p - base else Latest(g, x, base, ins, h, p)
  {
    hide HashAt;
    LatestInsert(g, x, base, ins, p, h, p);
  }

  lemma SlotsInsert(g: Geometry, head: seq<nat>, prev: seq<nat>, slots: set<nat>, p: nat, h: nat)
    requires |prev| == g.wsize > 0 && SlotsOk(g, head, prev, slots, p) && h < |head|
    ensures SlotsOk(g, head[h := p], prev[p % g.wsize := head[h]], slots + {p % g.wsize}, p + 1)
  {
    var head', prev', slots' := head[h := p], prev[p % g.wsize := head[h]], slots + {p % g.wsize};
    forall i: nat | i < |head'| ensures SlotLink(g, head'[i], slots', p + 1) {
      assert SlotLink(g, head[i], slots, p);
    }
    forall r: nat | r in slots' ensures r < g.wsize && SlotLink(g, prev'[r], slots', p + 1) {
      assert SlotLink(g, head[h], slots, p);
      if r in slots {
        assert SlotLink(g, prev[r], slots, p);
      }
    }
  }

  /** INSERT_STRING at window index p with hash h: the head of its chain becomes the link of the new string. */
  lemma ChainsInsert(g: Geometry, head: seq<nat>, prev: seq<nat>, x: seq<byte>, base: nat, ins: set<nat>, slots: set<nat>, p: nat, h: nat)
    requires ChainsOk(g, head, prev, x, base, ins, slots, p) && base + p + 2 < |x|
    requires h < |head| && h == HashAt(g, x, base + p)
    ensures ChainsOk(g, head[h := p], prev[p % g.wsize := head[h]], x, base, ins + {base + p}, slots + {p % g.wsize}, p + 1)
    ensures head[h] == Latest(g, x, base, ins + {base + p}, h, base + p) && SlotLink(g, head[h], slots + {p % g.wsize}, p)
  {
    hide Hash3, HashAt, Latest;
    var head', prev', ins', slots' := head[h := p], prev[p % g.wsize := head[h]], ins + {base + p}, slots + {p % g.wsize};
    assert Slot(g, base, base + p) == p % g.wsize;
    forall i: nat | i < |head'|
      ensures head'[i] == Latest(g, x, base, ins', i, base + p + 1)
    {
      LatestPut(g, x, base, ins, base + p, i);
    }
    forall a: nat | a in ins' && a > base && a + g.wsize >= base + p + 1 && a + 2 < |x|
      ensures prev'[Slot(g, base, a)] == Latest(g, x, base, ins', HashAt(g, x, a), a)
    {
      LatestInsert(g, x, base, ins, base + p, HashAt(g, x, a), a);
      if a < base + p && Slot(g, base, a) == p % g.wsize {
        SlotApart(g, base, a, base + p);
      }
    }
    SlotsInsert(g, head, prev, slots, p, h);
    LatestInsert(g, x, base, ins, base + p, h, base + p);
    assert SlotLink(g, head[h], slots, p);
  }

  /** What the slide does to an entry of head or prev. */
  function Slid(u: nat, wsize: nat): nat { if u >= wsize then u - wsize else 0 }

  function SlidAll(s: seq<nat>, wsize: nat): (r: seq<nat>)
    ensures |r| == |s| && forall i | 0 <= i < |s| :: r[i] == Slid(s[i], wsize)
  {
    seq(|s|, i requires 0 <= i < |s| => Slid(s[i], wsize))
  }

  lemma SlidMod(u: nat, d: nat)
    requires d > 0 && u >= d
    ensures (u - d) % d == u % d
  {
    DivSplit(u - d, d);
    var q, r := (u - d) / d, (u - d) % d;
    MulAdd(q, 1, d);
    DivMod(u, d, q + 1, r);
  }

  /** Moving the window up by w_size keeps the chains; strings that fall out of it become NIL. */
  lemma ChainsSlide(g: Geometry, head: seq<nat>, prev: seq<nat>, x: seq<byte>, base: nat, ins: set<nat>, slots: set<nat>, p: nat)
    requires ChainsOk(g, head, prev, x, base, ins, slots, p) && p >= g.wsize
    ensures ChainsOk(g, SlidAll(head, g.wsize), SlidAll(prev, g.wsize), x, base + g.wsize, ins, slots, p - g.wsize)
  {
    hide Hash3, HashAt, Latest;
    var d := g.wsize;
    var head', prev', base', p' := SlidAll(head, d), SlidAll(prev, d), base + d, p - d;
    assert base' + p' == base + p;
    forall i: nat | i < |head'|
      ensures head'[i] == Latest(g, x, base', ins, i, base' + p') && SlotLink(g, head'[i], slots, p')
    {
      LatestSlide(g, x, base, ins, i, base + p);
      SlideSlot(g, head[i], slots, p);
    }
    forall a: nat | a in ins && a > base' && a + d >= base' + p' && a + 2 < |x|
      ensures prev'[Slot(g, base', a)] == Latest(g, x, base', ins, HashAt(g, x, a), a)
    {
      SlidMod(a - base, d);
      assert Slot(g, base', a) == Slot(g, base, a);
      LatestSlide(g, x, base, ins, HashAt(g, x, a), a);
    }
    forall r: nat | r in slots
      ensures r < d && SlotLink(g, prev'[r], slots, p')
    {
      SlideSlot(g, prev[r], slots, p);
    }
  }

  lemma SlideSlot(g: Geometry, u: nat, slots: set<nat>, p: nat)
    requires g.wsize > 0 && SlotLink(g, u, slots, p) && p >= g.wsize
    ensures SlotLink(g, Slid(u, g.wsize), slots, p - g.wsize)
  {
    if u >= g.wsize {
      SlidMod(u, g.wsize);
    }
  }

  /** Empty chains. */
  lemma ChainsEmpty(g: Geometry, head: seq<nat>, prev: seq<nat>, x: seq<byte>, base: nat, p: nat)
    requires |prev| == g.wsize > 0 && forall h | 0 <= h < |head| :: head[h] == 0
    ensures ChainsOk(g, head, prev, x, base, {}, {}, p)
  {
    forall h: nat | h < |head| ensures head[h] == Latest(g, x, base, {}, h, base + p) {
      LatestGap(g, x, base, {}, h, 0, base + p);
    }
  }
}
