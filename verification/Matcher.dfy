/** The sliding window and the string matcher of deflate.c. The ghost input is everything read so far; window
    index i holds input position base + i. */
module Matcher {
  import opened Bits
  import opened Tokens
  import opened Hash
  import opened Chains
  import Adler32

  const MIN_LOOKAHEAD: nat := MAX_MATCH + MIN_MATCH + 1
  const NIL: nat := 0

  /** The two strings of length n agree. */
  ghost predicate Same(x: seq<byte>, a: nat, b: nat, n: nat) {
    a + n <= |x| && b + n <= |x| && x[a..a + n] == x[b..b + n]
  }

  /** The rolling hash h is ready for the third byte of the string at a. */
  ghost predicate Rolled(g: Geometry, x: seq<byte>, a: nat, h: nat) {
    a + 2 < |x| ==> Update(g.k, g.s, h, x[a + 2]) == HashAt(g, x, a)
  }

  /** Two updates prepare the hash, whatever it was before. */
  lemma RolledUp(g: Geometry, x: seq<byte>, a: nat, h: nat)
    requires GoodGeometry(g) && a + 1 < |x|
    ensures Rolled(g, x, a, Update(g.k, g.s, Update(g.k, g.s, h, x[a]), x[a + 1]))
  {
    hide Update, Hash3;
    if a + 2 < |x| {
      ThreeUpdates(g.k, g.s, h, x[a], x[a + 1], x[a + 2]);
    }
  }

  /** The hash of one string is ready for the next. */
  lemma RolledNext(g: Geometry, x: seq<byte>, a: nat)
    requires GoodGeometry(g) && a + 2 < |x|
    ensures Rolled(g, x, a + 1, HashAt(g, x, a))
  {
    hide Update;
    RolledUp(g, x, a + 1, Update(g.k, g.s, 0, x[a]));
  }

  /** A string inserted before position a with the hash of a. */
  ghost predicate Candidate(g: Geometry, x: seq<byte>, base: nat, ins: set<nat>, u: nat, a: nat) {
    base + u in ins && base + u < a && a + 2 < |x| && base + u + 2 < |x| && HashAt(g, x, base + u) == HashAt(g, x, a)
  }

  /** All strings are at low or after it. */
  ghost predicate Recent(low: nat, ins: set<nat>) { forall a | a in ins :: low <= a }

  predicate Between(from: nat, a: nat, to: nat) { from <= a < to }

  /** Of the strings from one position up to another: those that are complete when the input has n bytes, and the others. */
  ghost function Complete(from: nat, to: nat, n: nat): set<nat> { set a: nat | a < to && Between(from, a, to) && a + 2 < n }

  ghost function Cut(from: nat, to: nat, n: nat): map<nat, nat> { map a: nat | a < to && Between(from, a, to) && a + 2 >= n :: n }

  /** With n bytes of input, the complete strings from one position up to another have been inserted, the others skipped. */
  ghost predicate Entered(n: nat, ins: set<nat>, skipped: map<nat, nat>, ins': set<nat>, skipped': map<nat, nat>, from: nat, to: nat) {
    ins' == ins + Complete(from, to, n) && skipped' == skipped + Cut(from, to, n)
  }

  lemma EnteredNone(n: nat, ins: set<nat>, skipped: map<nat, nat>, a: nat)
    ensures Entered(n, ins, skipped, ins, skipped, a, a)
  {
  }

  lemma EnteredNext(n: nat, ins: set<nat>, skipped: map<nat, nat>, ins': set<nat>, skipped': map<nat, nat>, from: nat, to: nat)
    requires Entered(n, ins, skipped, ins', skipped', from, to) && from <= to
    ensures to + 2 < n ==> Entered(n, ins, skipped, ins' + {to}, skipped', from, to + 1)
    ensures to + 2 >= n ==> Entered(n, ins, skipped, ins', skipped' + map[to := n], from, to + 1)
  {
    forall a: nat ensures Between(from, a, to + 1) <==> Between(from, a, to) || a == to {
    }
    if to + 2 < n {
      assert Complete(from, to + 1, n) == Complete(from, to, n) + {to} && Cut(from, to + 1, n) == Cut(from, to, n);
    } else {
      assert Complete(from, to + 1, n) == Complete(from, to, n) && Cut(from, to + 1, n) == Cut(from, to, n) + map[to := n];
    }
  }

  lemma EnteredBoth(n: nat, ins: set<nat>, skipped: map<nat, nat>, ins': set<nat>, skipped': map<nat, nat>, ins'': set<nat>, skipped'': map<nat, nat>,
                    from: nat, mid: nat, to: nat)
    requires Entered(n, ins, skipped, ins', skipped', from, mid) && Entered(n, ins', skipped', ins'', skipped'', mid, to) && from <= mid <= to
    ensures Entered(n, ins, skipped, ins'', skipped'', from, to)
  {
    forall a: nat ensures Between(from, a, to) <==> Between(from, a, mid) || Between(mid, a, to) {
    }
    assert Complete(from, to, n) == Complete(from, mid, n) + Complete(mid, to, n) && Cut(from, to, n) == Cut(from, mid, n) + Cut(mid, to, n);
  }

  /** With two more bytes behind the last string, none is incomplete. */
  lemma EnterAll(from: nat, to: nat, n: nat)
    requires to + 1 < n
    ensures Cut(from, to, n) == map[]
  {
  }

  /** Every string since low has been inserted or skipped. */
  ghost predicate Covered(low: nat, top: int, ins: set<nat>, skipped: map<nat, nat>) {
    forall a: nat | low <= a < top :: a in ins || a in skipped
  }

  lemma LatestCandidate(g: Geometry, x: seq<byte>, base: nat, ins: set<nat>, a: nat)
    requires a + 2 < |x|
    ensures var u := Latest(g, x, base, ins, HashAt(g, x, a), a); u != NIL ==> Candidate(g, x, base, ins, u, a)
  {
    hide HashAt;
  }

  /** The string of length n at m is a match for the one at p, not farther away than far. */
  ghost predicate Repeated(x: seq<byte>, p: nat, m: int, n: nat, far: int) {
    0 <= m < p && p - m <= far && Same(x, p, m, n)
  }

  function Lesser(a: nat, b: nat): nat { if a <= b then a else b }

  /** A window w whose first e bytes are the input from base on. */
  ghost predicate Shows(w: seq<byte>, e: nat, x: seq<byte>, base: nat) {
    e <= |w| && |x| == base + e && w[..e] == x[base..]
  }

  lemma ShowsAt(w: seq<byte>, e: nat, x: seq<byte>, base: nat, i: nat, n: nat)
    requires Shows(w, e, x, base) && i + n <= e
    ensures e <= |w| && |x| == base + e && w[i..i + n] == x[base + i..base + i + n]
    ensures n > 0 ==> w[i] == x[base + i]
  {
    assert w[i..i + n] == w[..e][i..i + n];
    assert x[base..][i..i + n] == x[base + i..base + i + n];
    if n > 0 {
      assert w[i] == w[..e][i] && x[base + i] == x[base..][i];
    }
  }

  /** Bytes 0, 1 and 3 up to len agree; byte 2 agrees because the hashes do. */
  lemma MatchFound(g: Geometry, x: seq<byte>, base: nat, ins: set<nat>, w: seq<byte>, e: nat, s: nat, cur: nat, len: nat)
    requires GoodGeometry(g) && Shows(w, e, x, base) && s + 2 < e && cur < s && s + len <= |w| && len >= 3
    requires Candidate(g, x, base, ins, cur, base + s)
    requires w[cur] == w[s] && w[cur + 1] == w[s + 1] && w[s + 3..s + len] == w[cur + 3..cur + len]
    ensures Same(x, base + s, base + cur, Lesser(len, e - s))
  {
    hide Hash3, Shows;
    var n := Lesser(len, e - s);
    ShowsAt(w, e, x, base, s, n);
    ShowsAt(w, e, x, base, cur, n);
    ShowsAt(w, e, x, base, s + 1, 1);
    ShowsAt(w, e, x, base, s + 2, 1);
    ShowsAt(w, e, x, base, cur + 1, 1);
    ShowsAt(w, e, x, base, cur + 2, 1);
    ThirdByte(g.k, g.s, x[base + s], x[base + s + 1], x[base + s + 2], x[base + cur + 2]);
    ThreeAndRest(w, s, cur, len, n);
  }

  lemma ThreeAndRest(w: seq<byte>, s: nat, cur: nat, len: nat, n: nat)
    requires 3 <= n <= len && cur < s && s + len <= |w|
    requires w[cur] == w[s] && w[cur + 1] == w[s + 1] && w[cur + 2] == w[s + 2] && w[s + 3..s + len] == w[cur + 3..cur + len]
    ensures w[s..s + n] == w[cur..cur + n]
  {
    assert w[s + 3..s + n] == w[s + 3..s + len][..n - 3];
    assert w[cur + 3..cur + n] == w[cur + 3..cur + len][..n - 3];
    assert w[s..s + n] == [w[s], w[s + 1], w[s + 2]] + w[s + 3..s + n];
    assert w[cur..cur + n] == [w[cur], w[cur + 1], w[cur + 2]] + w[cur + 3..cur + n];
  }

  /** The next entry of a chain. */
  lemma NextCandidate(g: Geometry, head: seq<nat>, prev: seq<nat>, x: seq<byte>, base: nat, ins: set<nat>, slots: set<nat>, s: nat, cur: nat)
    requires GoodGeometry(g) && ChainsOk(g, head, prev, x, base, ins, slots, s + 1)
    requires 0 < cur <= s && s - cur <= g.wsize - MIN_LOOKAHEAD && cur % g.wsize in slots
    ensures SlotLink(g, prev[cur % g.wsize], slots, s + 1)
    ensures Candidate(g, x, base, ins, cur, base + s) && prev[cur % g.wsize] != NIL ==>
      Candidate(g, x, base, ins, prev[cur % g.wsize], base + s)
  {
    hide Hash3, HashAt;
    var u := prev[cur % g.wsize];
    if Candidate(g, x, base, ins, cur, base + s) && u != NIL {
      var a := base + cur;
      assert Slot(g, base, a) == cur % g.wsize;
      assert prev[Slot(g, base, a)] == Latest(g, x, base, ins, HashAt(g, x, a), a);
    }
  }

  // ---- how long a match is

  /** The strings at p and q have no more than n bytes in common, or as many as a match may have. */
  ghost predicate AtMost(w: seq<byte>, p: nat, q: nat, n: nat) {
    n < MAX_MATCH ==> p + n < |w| && q + n < |w| && w[p..p + n + 1] != w[q..q + n + 1]
  }

  lemma Differs(w: seq<byte>, p: nat, q: nat, i: nat, n: nat)
    requires i <= n && p + MAX_MATCH <= |w| && q + MAX_MATCH <= |w| && (i < MAX_MATCH ==> w[p + i] != w[q + i])
    ensures AtMost(w, p, q, n)
  {
    if n < MAX_MATCH {
      assert w[p..p + n + 1][i] != w[q..q + n + 1][i];
    }
  }

  lemma AtMostMore(w: seq<byte>, p: nat, q: nat, m: nat, n: nat)
    requires m <= n && p + MAX_MATCH <= |w| && q + MAX_MATCH <= |w| && AtMost(w, p, q, m)
    ensures AtMost(w, p, q, n)
  {
    if n < MAX_MATCH {
      assert w[p..p + n + 1][..m + 1] == w[p..p + m + 1] && w[q..q + n + 1][..m + 1] == w[q..q + m + 1];
    }
  }

  /** The tests at the ends of the best match: if one fails, there is no longer match. */
  lemma Ends(w: seq<byte>, p: nat, q: nat, n: nat)
    requires 1 <= n <= MAX_MATCH && p + MAX_MATCH < |w| && q + MAX_MATCH < |w|
    ensures w[p + n] != w[q + n] || w[p + n - 1] != w[q + n - 1] || w[p] != w[q] || w[p + 1] != w[q + 1] ==> AtMost(w, p, q, n)
  {
    if n < MAX_MATCH {
      if w[p + n] != w[q + n] {
        Differs(w, p, q, n, n);
      } else if w[p + n - 1] != w[q + n - 1] {
        Differs(w, p, q, n - 1, n);
      } else if w[p] != w[q] {
        Differs(w, p, q, 0, n);
      } else if w[p + 1] != w[q + 1] {
        Differs(w, p, q, 1, n);
      }
    }
  }

  /** The first n candidates of the chain from cur that are above limit. */
  ghost function ChainFrom(prev: seq<nat>, cur: nat, limit: nat, n: nat): (s: seq<nat>)
    requires |prev| > 0
    decreases n
  {
    if n == 0 then [] else [cur] + (var next := prev[cur % |prev|]; if next <= limit then [] else ChainFrom(prev, next, limit, n - 1))
  }

  lemma ChainNext(prev: seq<nat>, cur: nat, limit: nat, n: nat, seen: seq<nat>)
    requires |prev| > 0 && n > 0
    ensures var next := prev[cur % |prev|];
      seen + ChainFrom(prev, cur, limit, n) == seen + [cur] + (if next <= limit || n == 1 then [] else ChainFrom(prev, next, limit, n - 1))
  {
    var next := prev[cur % |prev|];
    if next > limit {
      Bits.Associative(seen, [cur], ChainFrom(prev, next, limit, n - 1));
    }
  }

  /** None of the candidates has more than n bytes in common with the string at p. */
  ghost predicate NoneBetter(w: seq<byte>, p: nat, seen: seq<nat>, n: nat) { forall c | c in seen :: c <= p && AtMost(w, p, c, n) }

  lemma NoneSeen(w: seq<byte>, p: nat, n: nat)
    ensures NoneBetter(w, p, [], n)
  {
  }

  lemma NoneMore(w: seq<byte>, p: nat, seen: seq<nat>, cur: nat, m: nat, n: nat)
    requires NoneBetter(w, p, seen, m) && m <= n && p + MAX_MATCH <= |w| && cur <= p && AtMost(w, p, cur, n)
    ensures NoneBetter(w, p, seen + [cur], n)
  {
    hide AtMost;
    forall c | c in seen ensures AtMost(w, p, c, n) {
      AtMostMore(w, p, c, m, n);
    }
  }

  // ---- the same about the input

  /** None of the strings agrees with the one at p in n bytes. */
  ghost predicate NoneAgrees(x: seq<byte>, p: nat, seen: seq<nat>, n: nat) { forall i | 0 <= i < |seen| :: !Same(x, p, seen[i], n) }

  /** start is one of the strings, and none before it agrees with the one at p in n bytes. */
  ghost predicate Nearest(x: seq<byte>, p: nat, seen: seq<nat>, start: int, n: nat) {
    exists i | 0 <= i < |seen| :: seen[i] == start && NoneAgrees(x, p, seen[..i], n)
  }

  lemma SameLess(x: seq<byte>, a: nat, b: nat, m: nat, n: nat)
    requires m <= n && Same(x, a, b, n)
    ensures Same(x, a, b, m)
  {
    assert x[a..a + n][..m] == x[a..a + m] && x[b..b + n][..m] == x[b..b + m];
  }

  lemma NoneAgreesMore(x: seq<byte>, p: nat, seen: seq<nat>, m: nat, n: nat)
    requires m <= n && NoneAgrees(x, p, seen, m)
    ensures NoneAgrees(x, p, seen, n)
  {
    hide Same;
    forall i | 0 <= i < |seen| ensures !Same(x, p, seen[i], n) {
      if Same(x, p, seen[i], n) {
        SameLess(x, p, seen[i], m, n);
      }
    }
  }

  lemma AtMostDiffers(w: seq<byte>, e: nat, x: seq<byte>, base: nat, p: nat, c: nat, n: nat)
    requires Shows(w, e, x, base) && p + n < e && c <= p && n < MAX_MATCH && AtMost(w, p, c, n)
    ensures !Same(x, base + p, base + c, n + 1)
  {
    hide Shows;
    ShowsAt(w, e, x, base, p, n + 1);
    ShowsAt(w, e, x, base, c, n + 1);
  }

  /** The window indices s are those of the positions t. */
  ghost predicate Indices(base: nat, s: seq<nat>, t: seq<nat>) { |s| == |t| && forall i | 0 <= i < |s| :: t[i] == base + s[i] }

  lemma NoneBetterAgrees(w: seq<byte>, e: nat, x: seq<byte>, base: nat, p: nat, s: seq<nat>, t: seq<nat>, n: nat)
    requires Shows(w, e, x, base) && p + n < e && n < MAX_MATCH && Indices(base, s, t) && NoneBetter(w, p, s, n)
    ensures NoneAgrees(x, base + p, t, n + 1)
  {
    hide Shows, Same, AtMost;
    forall i | 0 <= i < |t| ensures !Same(x, base + p, t[i], n + 1) {
      assert s[i] in s;
      AtMostDiffers(w, e, x, base, p, s[i], n);
    }
  }

  /** start is one of the candidates, and none before it has more than n bytes in common with the string at p. */
  ghost predicate FirstBetter(w: seq<byte>, p: nat, seen: seq<nat>, start: int, n: nat) {
    exists i | 0 <= i < |seen| :: seen[i] == start && NoneBetter(w, p, seen[..i], n)
  }

  lemma FirstBetterSnoc(w: seq<byte>, p: nat, seen: seq<nat>, cur: nat, n: nat)
    requires NoneBetter(w, p, seen, n)
    ensures FirstBetter(w, p, seen + [cur], cur, n)
  {
    hide NoneBetter;
    assert (seen + [cur])[..|seen|] == seen && (seen + [cur])[|seen|] == cur;
  }

  lemma FirstBetterMore(w: seq<byte>, p: nat, seen: seq<nat>, more: seq<nat>, start: int, n: nat)
    requires FirstBetter(w, p, seen, start, n)
    ensures FirstBetter(w, p, seen + more, start, n)
  {
    hide NoneBetter;
    var i :| 0 <= i < |seen| && seen[i] == start && NoneBetter(w, p, seen[..i], n);
    assert (seen + more)[..i] == seen[..i] && (seen + more)[i] == start;
  }

  lemma FirstIsNearest(w: seq<byte>, e: nat, x: seq<byte>, base: nat, p: nat, s: seq<nat>, t: seq<nat>, start: int, m: nat, n: nat)
    requires Shows(w, e, x, base) && m < n && p + n <= e && n <= MAX_MATCH && Indices(base, s, t) && FirstBetter(w, p, s, start, m)
    ensures Nearest(x, base + p, t, base + start, n)
  {
    hide Shows, NoneBetter, NoneAgrees;
    var i :| 0 <= i < |s| && s[i] == start && NoneBetter(w, p, s[..i], m);
    NoneBetterAgrees(w, e, x, base, p, s[..i], t[..i], m);
    NoneAgreesMore(x, base + p, t[..i], m + 1, n);
    assert t[i] == base + start;
  }

  lemma ChainStep(prev: seq<nat>, cur: nat, limit: nat, n: nat)
    requires |prev| > 0 && n > 0
    ensures var next := prev[cur % |prev|];
      ChainFrom(prev, cur, limit, n) == [cur] + (if next <= limit || n == 1 then [] else ChainFrom(prev, next, limit, n - 1))
  {
  }

  /** A link leads to the newest older string. */
  lemma LinkStep(g: Geometry, head: seq<nat>, prev: seq<nat>, x: seq<byte>, base: nat, ins: set<nat>, slots: set<nat>, s: nat, cur: nat)
    requires ChainsOk(g, head, prev, x, base, ins, slots, s + 1) && 0 < cur <= s && s - cur <= g.wsize - 1 && base + cur in ins
    ensures |prev| == g.wsize > 0 && base + cur + 2 < |x|
    ensures prev[cur % |prev|] == Latest(g, x, base, ins, HashAt(g, x, base + cur), base + cur)
  {
    hide HashAt, Latest;
    assert Slot(g, base, base + cur) == cur % g.wsize;
  }

  /** The links lead through the candidates. */
  lemma {:induction false} LinksAre(g: Geometry, head: seq<nat>, prev: seq<nat>, x: seq<byte>, base: nat, ins: set<nat>, slots: set<nat>, s: nat, cur: nat, limit: nat, n: nat)
    requires ChainsOk(g, head, prev, x, base, ins, slots, s + 1) && n > 0 && 0 < cur <= s && s - cur <= g.wsize - 1 && s - limit <= g.wsize
    requires base + cur in ins
    ensures base + cur + 2 < |x|
    ensures Indices(base, ChainFrom(prev, cur, limit, n),
      [base + cur] + Earlier(g, x, ins, HashAt(g, x, base + cur), base + limit, base + cur, n - 1))
    decreases n
  {
    hide HashAt, Earlier, Latest, Indices, ChainFrom, ChainsOk;
    LinkStep(g, head, prev, x, base, ins, slots, s, cur);
    var a, h := base + cur, HashAt(g, x, base + cur);
    var next := prev[cur % |prev|];
    ChainStep(prev, cur, limit, n);
    if n == 1 {
      EarlierNone(g, x, ins, h, base + limit, a);
      IndicesCons(base, cur, [], []);
    } else {
      EarlierStep(g, x, base, ins, h, base + limit, a, n - 1);
      if next <= limit {
        IndicesCons(base, cur, [], []);
      } else {
        LatestAt(g, x, base, ins, h, a);
        LinksAre(g, head, prev, x, base, ins, slots, s, next, limit, n - 1);
        IndicesCons(base, cur, ChainFrom(prev, next, limit, n - 1), [base + next] + Earlier(g, x, ins, h, base + limit, base + next, n - 2));
      }
    }
  }

  lemma IndicesCons(base: nat, cur: nat, s: seq<nat>, t: seq<nat>)
    requires (s == [] && t == []) || Indices(base, s, t)
    ensures Indices(base, [cur] + s, [base + cur] + t)
  {
  }

  lemma EarlierNone(g: Geometry, x: seq<byte>, ins: set<nat>, h: nat, low: nat, a: nat)
    ensures Earlier(g, x, ins, h, low, a, 0) == []
  {
  }

  lemma LatestAt(g: Geometry, x: seq<byte>, base: nat, ins: set<nat>, h: nat, a: nat)
    requires Latest(g, x, base, ins, h, a) != 0
    ensures var u := Latest(g, x, base, ins, h, a); base + u < a && base + u in ins && base + u + 2 < |x| && HashAt(g, x, base + u) == h
  {
    hide HashAt;
  }

  /** Where the history starts again: the input position, the number of blocks and the number of bytes written before the
      last full flush was complete. */
  class Restart {
    ghost var at: nat
    ghost var blocks: nat
    ghost var bytes: nat

    constructor (ghost bytes: nat)
      ensures at == 0 && blocks == 0 && this.bytes == bytes
    {
      at, blocks, this.bytes := 0, 0, bytes;
    }
  }

  /** One more candidate has been looked at. */
  lemma LookAt(w: seq<byte>, p: nat, prev: seq<nat>, cur: nat, limit: nat, n: nat, seen: seq<nat>, best: nat, better: nat)
    requires |prev| > 0 && n > 0 && NoneBetter(w, p, seen, best) && best <= better && p + MAX_MATCH <= |w| && cur <= p && AtMost(w, p, cur, better)
    ensures var next := prev[cur % |prev|];
      seen + ChainFrom(prev, cur, limit, n) == seen + [cur] + (if next <= limit || n == 1 then [] else ChainFrom(prev, next, limit, n - 1))
    ensures NoneBetter(w, p, seen + [cur], better) && FirstBetter(w, p, seen + ChainFrom(prev, cur, limit, n), cur, best)
  {
    hide NoneBetter, AtMost, FirstBetter, ChainFrom;
    ChainNext(prev, cur, limit, n, seen);
    NoneMore(w, p, seen, cur, best, better);
    FirstBetterSnoc(w, p, seen, cur, best);
    var next := prev[cur % |prev|];
    FirstBetterMore(w, p, seen + [cur], if next <= limit || n == 1 then [] else ChainFrom(prev, next, limit, n - 1), cur, best);
  }

  class Matcher {
    const restart: Restart
    const g: Geometry
    const wrap: bool
    const maxChain: nat
    const goodMatch: nat
    const niceMatch: nat
    const window: array<byte>
    const head: array<nat>
    const prev: array<nat>
    var adler: nat
    var insH: nat
    var strstart: nat
    var lookahead: nat
    var matchStart: int
    var blockStart: int
    var prevLength: nat
    ghost var input: seq<byte>
    ghost var base: nat
    ghost var ins: set<nat>
    ghost var slots: set<nat>
    /** The strings that have been passed without being inserted, with the length of the input at that time. */
    ghost var skipped: map<nat, nat>

    function MaxDist(): int { g.wsize - MIN_LOOKAHEAD }

    ghost predicate Sizes() {
      && GoodGeometry(g) && maxChain >= 4 && window.Length == 2 * g.wsize && head.Length == Pow2(g.k) && prev.Length == g.wsize && head != prev
      && goodMatch >= MIN_MATCH && 6 <= niceMatch <= MAX_MATCH
    }

    /** The window shows the input from base to its end. */
    ghost predicate WindowOk()
      reads `input, `base, `insH, `adler, window
    {
      && base <= |input| && Shows(window[..], |input| - base, input, base) && insH < Pow2(g.k)
      && (wrap ==> adler == Adler32.Pack(Adler32.Adler(input)))
    }

    /** The input ends with the lookahead; if the window has moved, all strings in reach are still in it. */
    ghost predicate Positioned()
      reads `strstart, `lookahead, `input, `base
    {
      |input| == base + strstart + lookahead && (base > 0 ==> strstart >= MaxDist())
    }

    /** The chains hold strings before window index p and not before the restart, and the hash is ready for p. */
    ghost predicate Hashed(p: nat)
      requires Sizes()
      reads `input, `base, `ins, `slots, `skipped, `insH, head, prev, restart`at
    {
      && ChainsOk(g, head[..], prev[..], input, base, ins, slots, p) && Rolled(g, input, base + p, insH)
      && Recent(restart.at, ins) && restart.at <= base + p && Covered(restart.at, base + p, ins, skipped)
    }

    ghost predicate Valid()
      reads `strstart, `lookahead, `input, `base, `ins, `slots, `skipped, `insH, `adler, window, head, prev, restart`at
      ensures Valid() ==> Sizes() && WindowOk() && Positioned()
    {
      Sizes() && WindowOk() && Positioned() && Hashed(strstart)
    }

    /** The newest string with the hash of the one at window index p. */
    ghost function Newest(p: nat): nat
      requires base + p + 2 < |input|
      reads `input, `base, `ins
    {
      Latest(g, input, base, ins, HashAt(g, input, base + p), base + p)
    }

    /** INSERT_STRING for the string at window index p; hashHead is the previous head of its chain. */
    method InsertString(p: nat) returns (hashHead: nat)
      requires Sizes() && WindowOk() && Hashed(p) && base + p + 2 < |input|
      modifies this`insH, this`ins, this`slots, head, prev
      ensures WindowOk() && Hashed(p + 1) && hashHead == Newest(p)
      ensures SlotLink(g, hashHead, slots, p) && slots == old(slots) + {p % g.wsize} && ins == old(ins) + {base + p}
    {
      hide Update, HashAt, ChainsOk, Latest, Shows;
      ShowsAt(window[..], |input| - base, input, base, p + 2, 1);
      assert Update(g.k, g.s, insH, window[p + 2]) == HashAt(g, input, base + p);
      ghost var heads, prevs := head[..], prev[..];
      assert |prevs| == g.wsize;
      insH := Update(g.k, g.s, insH, window[p + 2]);
      ChainsInsert(g, heads, prevs, input, base, ins, slots, p, insH);
      hashHead := head[insH];
      prev[p % g.wsize] := hashHead;
      head[insH] := p;
      assert head[..] == heads[insH := p] && prev[..] == prevs[p % g.wsize := hashHead];
      ins, slots := ins + {base + p}, slots + {p % g.wsize};
      RolledNext(g, input, base + p);
      assert base + (p + 1) == base + p + 1;
    }

    /** The strings from a position on, up to another, that are passed now. */
    ghost function Passed(from: nat, to: nat): map<nat, nat>
      reads `input
    {
      map a: nat | a < to && Between(from, a, to) :: |input|
    }

    lemma PassedOne(a: nat)
      ensures Passed(a, a + 1) == map[a := |input|]
    {
      assert Between(a, a, a + 1);
    }

    /** Skips the strings from window index p to q: those at the end of the lookahead, or those whose hash is computed anew. */
    ghost method Skip(p: nat, q: nat)
      requires Sizes() && ChainsOk(g, head[..], prev[..], input, base, ins, slots, p) && p <= q && Rolled(g, input, base + q, insH)
      requires Recent(restart.at, ins) && restart.at <= base + p && Covered(restart.at, base + p, ins, skipped)
      modifies this`skipped
      ensures Hashed(q) && skipped == old(skipped) + Passed(base + p, base + q)
    {
      ChainsGrow(g, head[..], prev[..], input, input, base, ins, slots, p, q);
      skipped := skipped + Passed(base + p, base + q);
    }

    // ---- matching

    /** The do-while loop of both matchers: bytes 3 and up, with the end checked after every eighth byte. */
    method Compare(cur: nat) returns (len: nat)
      requires cur <= strstart && strstart + MAX_MATCH < window.Length
      ensures 3 <= len <= MAX_MATCH
      ensures window[strstart + 3..strstart + len] == window[cur + 3..cur + len]
      ensures len < MAX_MATCH ==> window[strstart + len] != window[cur + len]
    {
      var scan, other, strend := strstart + 2, cur + 2, strstart + MAX_MATCH;
      var checks: nat := 0;
      while true
        invariant scan == strstart + 2 + checks && other == cur + 2 + checks && checks < 256
        invariant window[strstart + 3..strstart + 3 + checks] == window[cur + 3..cur + 3 + checks]
        decreases 256 - checks
      {
        scan, other, checks := scan + 1, other + 1, checks + 1;
        if window[scan] != window[other] {
          break;
        }
        if checks % 8 == 0 && scan >= strend {
          break;
        }
      }
      len := MAX_MATCH - (strend - scan);
    }

    /** A match of length n for the current string at window index m, not before the restart. */
    ghost predicate Found(m: int, n: nat)
      reads `strstart, `lookahead, `input, `base, restart`at
    {
      n <= lookahead && m > 0 && base + m >= restart.at && Repeated(input, base + strstart, base + m, n, MaxDist())
    }

    /** The tests at the ends of the best match so far, then the comparison; 0 if the candidate is skipped. */
    method Try(cur: nat, bestLen: nat, scanEnd1: byte, scanEnd: byte) returns (len: nat)
      requires Sizes() && WindowOk() && Positioned() && strstart + MIN_LOOKAHEAD <= window.Length && 1 <= bestLen <= MAX_MATCH
      requires 0 < cur <= strstart && strstart - cur <= MaxDist() && Recent(restart.at, ins)
      requires lookahead >= MIN_MATCH ==> Candidate(g, input, base, ins, cur, base + strstart)
      requires scanEnd1 == window[strstart + bestLen - 1] && scanEnd == window[strstart + bestLen]
      ensures len <= MAX_MATCH && (len > 0 && lookahead >= MIN_MATCH ==> Found(cur, Lesser(len, lookahead)))
      ensures AtMost(window[..], strstart, cur, if len > bestLen then len else bestLen)
    {
      hide Candidate, Repeated, Shows, Hash3, AtMost;
      Ends(window[..], strstart, cur, bestLen);
      len := 0;
      if window[cur + bestLen] == scanEnd && window[cur + bestLen - 1] == scanEnd1
         && window[cur] == window[strstart] && window[cur + 1] == window[strstart + 1] {
        len := Compare(cur);
        Differs(window[..], strstart, cur, len, if len > bestLen then len else bestLen);
        if lookahead >= MIN_MATCH {
          FoundAt(cur, len);
        }
      }
    }

    /** How many candidates longest_match looks at. */
    function Budget(): nat
      reads `prevLength
    {
      if prevLength >= goodMatch then maxChain / 4 else maxChain
    }

    function Limit(): nat
      reads `strstart
    {
      if strstart > MaxDist() then strstart - MaxDist() else NIL
    }

    /** The loop of longest_match, until a match of length nice is found or the chain ends: the nearest of the longest,
        where lower is the length that it had to beat. */
    method Walk(curMatch: nat, budget: nat, nice: nat) returns (bestLen: nat, ghost lower: nat)
      requires Sizes() && WindowOk() && Positioned() && Hashed(strstart + 1)
      requires strstart + MIN_LOOKAHEAD <= window.Length && 1 <= prevLength <= MAX_MATCH && lookahead >= 1 && budget >= 1
      requires curMatch != NIL && SlotLink(g, curMatch, slots, strstart + 1) && strstart - curMatch <= MaxDist()
      requires lookahead >= MIN_MATCH ==> Candidate(g, input, base, ins, curMatch, base + strstart)
      modifies this`matchStart
      ensures prevLength <= bestLen <= MAX_MATCH
      ensures bestLen > prevLength && lookahead >= MIN_MATCH ==> Found(matchStart, Lesser(bestLen, lookahead))
      ensures (bestLen >= nice && bestLen > prevLength) || NoneBetter(window[..], strstart, ChainFrom(prev[..], curMatch, Limit(), budget), bestLen)
      ensures bestLen > prevLength ==> lower < bestLen && (lower == prevLength || lower < nice)
      ensures bestLen > prevLength ==> FirstBetter(window[..], strstart, ChainFrom(prev[..], curMatch, Limit(), budget), matchStart, lower)
    {
      hide ChainsOk, Candidate, Repeated, WindowOk, Hash3, AtMost, NoneBetter, ChainFrom, FirstBetter, Rolled;
      ghost var hs, ps := head[..], prev[..];
      var chainLength := budget;
      bestLen := prevLength;
      lower := prevLength;
      var limit := Limit();
      var scanEnd1, scanEnd := window[strstart + bestLen - 1], window[strstart + bestLen];
      var cur: nat := curMatch;
      ghost var w, whole, seen := window[..], ChainFrom(ps, cur, limit, chainLength), [];
      NoneSeen(w, strstart, bestLen);
      while true
        invariant chainLength >= 1 && prevLength <= bestLen <= MAX_MATCH && WindowOk() && Positioned() && (bestLen == prevLength || bestLen < nice)
        invariant scanEnd1 == window[strstart + bestLen - 1] && scanEnd == window[strstart + bestLen]
        invariant whole == seen + ChainFrom(ps, cur, limit, chainLength) && NoneBetter(w, strstart, seen, bestLen)
        invariant cur != NIL && SlotLink(g, cur, slots, strstart + 1) && strstart - cur <= MaxDist()
        invariant lookahead >= MIN_MATCH ==> Candidate(g, input, base, ins, cur, base + strstart)
        invariant bestLen > prevLength && lookahead >= MIN_MATCH ==> Found(matchStart, Lesser(bestLen, lookahead))
        invariant bestLen > prevLength ==> lower < bestLen && (lower == prevLength || lower < nice) && FirstBetter(w, strstart, whole, matchStart, lower)
        decreases chainLength
      {
        var len := Try(cur, bestLen, scanEnd1, scanEnd);
        LookAt(w, strstart, ps, cur, limit, chainLength, seen, bestLen, if len > bestLen then len else bestLen);
        seen := seen + [cur];
        if len > bestLen {
          matchStart := cur;
          lower := bestLen;
          bestLen := len;
          if len >= nice {
            break;
          }
          scanEnd1 := window[strstart + bestLen - 1];
          scanEnd := window[strstart + bestLen];
        }
        NextCandidate(g, hs, ps, input, base, ins, slots, strstart, cur);
        cur := prev[cur % g.wsize];
        if cur <= limit {
          assert whole == seen;
          break;
        }
        chainLength := chainLength - 1;
        if chainLength == 0 {
          assert whole == seen;
          break;
        }
      }
    }

    /** The strings that a search may look at. */
    ghost function Seen(): seq<nat>
      requires Sizes() && base + strstart + 2 < |input|
      reads `strstart, `prevLength, `input, `base, `ins
    {
      Candidates(g, input, base, ins, base + strstart, MaxDist(), Budget())
    }

    /** The links from the newest string on are those of the candidates. */
    lemma SeenIs(curMatch: nat)
      requires Sizes() && WindowOk() && Positioned() && Hashed(strstart + 1) && lookahead >= MIN_MATCH
      requires curMatch == Newest(strstart) && curMatch != NIL && strstart - curMatch <= MaxDist()
      ensures Indices(base, ChainFrom(prev[..], curMatch, Limit(), Budget()), Seen())
    {
      hide ChainsOk, HashAt, Rolled, Latest, Indices, Earlier;
      LatestAt(g, input, base, ins, HashAt(g, input, base + strstart), base + strstart);
      LinksAre(g, head[..], prev[..], input, base, ins, slots, strstart, curMatch, Limit(), Budget());
      assert base + Limit() == Lowest(base, base + strstart - MaxDist());
    }

    /** longest_match: a match longer than prevLength, if there is a string of that kind among those looked at; unless it
        is nice enough or takes all of the lookahead, none of them has a longer one, and none that is nearer has one as
        long. With fewer than three bytes of lookahead curMatch may be a leftover of an earlier string; the result is then
        too short to be used. */
    method LongestMatch(curMatch: nat) returns (length: nat)
      requires Sizes() && WindowOk() && Positioned() && Hashed(strstart + 1)
      requires strstart + MIN_LOOKAHEAD <= window.Length && 1 <= prevLength <= MAX_MATCH && lookahead >= 1
      requires curMatch != NIL && SlotLink(g, curMatch, slots, strstart + 1) && strstart - curMatch <= MaxDist()
      requires lookahead >= MIN_MATCH ==> curMatch == Newest(strstart)
      modifies this`matchStart
      ensures 1 <= length <= lookahead && Lesser(prevLength, lookahead) <= length <= MAX_MATCH
      ensures length > prevLength && length >= MIN_MATCH ==> Found(matchStart, length)
      ensures lookahead >= MIN_MATCH ==> Best(niceMatch, length)
    {
      hide ChainsOk, Candidate, Repeated, WindowOk, Hash3, NoneBetter, ChainFrom, FirstBetter, Rolled, Latest, HashAt, NoneAgrees, Nearest, Seen;
      var chainLength, nice := maxChain, niceMatch;
      if prevLength >= goodMatch {
        chainLength := chainLength / 4;
      }
      if nice > lookahead {
        nice := lookahead;
      }
      if lookahead >= MIN_MATCH {
        LatestCandidate(g, input, base, ins, base + strstart);
      }
      ghost var lower: nat;
      var bestLen: nat;
      bestLen, lower := Walk(curMatch, chainLength, nice);
      length := Lesser(bestLen, lookahead);
      if lookahead >= MIN_MATCH {
        BestOfChain(curMatch, bestLen, lower, nice);
      }
    }

    /** The outcome of a search: unless there is an improvement that is nice, or that takes all of the lookahead, no string
        that was looked at agrees in one byte more; and an improvement is the nearest such string. */
    ghost predicate Best(nice: nat, length: nat)
      requires Sizes() && base + strstart + 2 < |input|
      reads `strstart, `lookahead, `matchStart, `prevLength, `input, `base, `ins
    {
      && (length < lookahead && length < MAX_MATCH && (length < nice || length <= prevLength) ==> NoneAgrees(input, base + strstart, Seen(), length + 1))
      && (length > prevLength ==> Nearest(input, base + strstart, Seen(), base + matchStart, length))
    }

    lemma BestOfChain(curMatch: nat, bestLen: nat, lower: nat, nice: nat)
      requires Sizes() && WindowOk() && Positioned() && Hashed(strstart + 1) && lookahead >= MIN_MATCH && strstart < window.Length
      requires curMatch == Newest(strstart) && curMatch != NIL && strstart - curMatch <= MaxDist()
      requires nice == Lesser(niceMatch, lookahead) && prevLength <= bestLen <= MAX_MATCH
      requires (bestLen >= nice && bestLen > prevLength) || NoneBetter(window[..], strstart, ChainFrom(prev[..], curMatch, Limit(), Budget()), bestLen)
      requires bestLen > prevLength ==> lower < bestLen && (lower == prevLength || lower < nice)
      requires bestLen > prevLength ==> FirstBetter(window[..], strstart, ChainFrom(prev[..], curMatch, Limit(), Budget()), matchStart, lower)
      ensures Best(niceMatch, Lesser(bestLen, lookahead))
    {
      hide ChainsOk, Hash3, NoneBetter, ChainFrom, FirstBetter, Rolled, Latest, HashAt, NoneAgrees, Nearest, Seen, Shows, Indices;
      SeenIs(curMatch);
      var w, e, p, chain := window[..], strstart + lookahead, strstart, ChainFrom(prev[..], curMatch, Limit(), Budget());
      var length := Lesser(bestLen, lookahead);
      if length < lookahead && length < MAX_MATCH && (length < niceMatch || length <= prevLength) {
        NoneBetterAgrees(w, e, input, base, p, chain, Seen(), length);
      }
      if length > prevLength {
        FirstIsNearest(w, e, input, base, p, chain, Seen(), matchStart, lower, length);
      }
    }

    lemma FoundAt(cur: nat, len: nat)
      requires Sizes() && WindowOk() && Positioned() && strstart + MAX_MATCH < window.Length && 3 <= len <= MAX_MATCH && lookahead >= MIN_MATCH
      requires Candidate(g, input, base, ins, cur, base + strstart) && 0 < cur && strstart - cur <= MaxDist() && Recent(restart.at, ins)
      requires window[cur] == window[strstart] && window[cur + 1] == window[strstart + 1]
      requires window[strstart + 3..strstart + len] == window[cur + 3..cur + len]
      ensures Found(cur, Lesser(len, lookahead))
    {
      hide Shows, Hash3, HashAt;
      var w := window[..];
      assert w[strstart + 3..strstart + len] == window[strstart + 3..strstart + len] && w[cur + 3..cur + len] == window[cur + 3..cur + len];
      MatchFound(g, input, base, ins, w, strstart + lookahead, strstart, cur, len);
    }

    lemma FirstCandidate()
      requires Sizes() && Hashed(strstart + 1) && Positioned()
      ensures Recent(restart.at, ins)
      ensures lookahead >= MIN_MATCH && Newest(strstart) != NIL ==> Candidate(g, input, base, ins, Newest(strstart), base + strstart)
    {
      hide ChainsOk, Candidate, Latest, HashAt, Rolled;
      if lookahead >= MIN_MATCH {
        LatestCandidate(g, input, base, ins, base + strstart);
      }
    }

    /** longest_match_fast: looks at one candidate only. Compare never returns less than three, so the routine's second
        test for short matches has no effect. */
    method LongestMatchFast(curMatch: nat) returns (length: nat)
      requires Sizes() && WindowOk() && Positioned() && Hashed(strstart + 1) && strstart + MIN_LOOKAHEAD <= window.Length && lookahead >= 1
      requires curMatch != NIL && SlotLink(g, curMatch, slots, strstart + 1) && strstart - curMatch <= MaxDist()
      requires lookahead >= MIN_MATCH ==> curMatch == Newest(strstart)
      modifies this`matchStart
      ensures 1 <= length <= MAX_MATCH && (length <= lookahead || length == 2)
      ensures length >= MIN_MATCH ==> Found(matchStart, length) && matchStart == curMatch
      ensures Unlike(curMatch, length)
    {
      hide ChainsOk, Candidate, Repeated, Same, Shows, Hash3, AtMost, Latest, HashAt, Rolled, WindowOk, Hashed, Found, Unlike, Recent;
      FirstCandidate();
      Ends(window[..], strstart, curMatch, MIN_MATCH - 1);
      if window[curMatch] != window[strstart] || window[curMatch + 1] != window[strstart + 1] {
        UnlikeIs(curMatch, MIN_MATCH - 1);
        return MIN_MATCH - 1;
      }
      var len := Compare(curMatch);
      Differs(window[..], strstart, curMatch, len, len);
      matchStart := curMatch;
      UnlikeIs(curMatch, len);
      if lookahead >= MIN_MATCH {
        FoundAt(curMatch, len);
      }
      length := Lesser(len, lookahead);
    }

    /** Unless the lookahead or the longest match is at its end, the strings differ after n bytes. */
    ghost predicate Unlike(cur: nat, n: nat)
      reads `strstart, `lookahead, `input, `base
    {
      n < lookahead && n < MAX_MATCH ==> !Same(input, base + strstart, base + cur, n + 1)
    }

    lemma UnlikeIs(cur: nat, n: nat)
      requires WindowOk() && Positioned() && strstart + n < window.Length && cur <= strstart && AtMost(window[..], strstart, cur, n)
      ensures Unlike(cur, n) && Unlike(cur, lookahead)
    {
      hide Shows, Same, AtMost;
      if n < lookahead && n < MAX_MATCH {
        AtMostDiffers(window[..], strstart + lookahead, input, base, strstart, cur, n);
      }
    }

    // ---- filling the window

    /** Slides one of the two tables. */
    method SlideTable(a: array<nat>)
      modifies a
      ensures a[..] == SlidAll(old(a[..]), g.wsize)
    {
      ghost var s := a[..];
      var n := a.Length;
      while n > 0
        invariant 0 <= n <= a.Length
        invariant forall i | 0 <= i < n :: a[i] == s[i]
        invariant forall i | n <= i < a.Length :: a[i] == Slid(s[i], g.wsize)
      {
        n := n - 1;
        a[n] := if a[n] >= g.wsize then a[n] - g.wsize else NIL;
      }
    }

    /** Copies the upper half of the window over the lower half. */
    method MoveDown()
      requires window.Length == 2 * g.wsize
      modifies window
      ensures window[..g.wsize] == old(window[g.wsize..])
    {
      ghost var w := window[..];
      var i: nat := 0;
      while i < g.wsize
        invariant i <= g.wsize
        invariant forall k | 0 <= k < i :: window[k] == w[g.wsize + k]
        invariant forall k | g.wsize <= k < window.Length :: window[k] == w[k]
      {
        window[i] := window[g.wsize + i];
        i := i + 1;
      }
    }

    /** The slide: the window moves up by w_size, positions stay what they are. */
    method Slide()
      requires Valid() && strstart >= g.wsize + MaxDist()
      modifies this`strstart, this`matchStart, this`blockStart, this`base, window, head, prev
      ensures Valid() && base == old(base) + g.wsize && strstart == old(strstart) - g.wsize
      ensures base + matchStart == old(base + matchStart) && base + blockStart == old(base + blockStart)
    {
      hide ChainsOk, Shows, Rolled;
      ghost var hs, ps, w, e := head[..], prev[..], window[..], strstart + lookahead;
      ChainsSlide(g, hs, ps, input, base, ins, slots, strstart);
      MoveDown();
      ShowsSlid(w, window[..], e, input, base, g.wsize);
      matchStart := matchStart - g.wsize;
      strstart := strstart - g.wsize;
      blockStart := blockStart - g.wsize;
      base := base + g.wsize;
      SlideTable(head);
      SlideTable(prev);
    }

    method CopyIn(at: nat, bytes: seq<byte>)
      requires at + |bytes| <= window.Length
      modifies window
      ensures forall k | 0 <= k < at :: window[k] == old(window[k])
      ensures forall k | 0 <= k < |bytes| :: window[at + k] == bytes[k]
    {
      var i: nat := 0;
      while i < |bytes|
        invariant i <= |bytes|
        invariant forall k | 0 <= k < at :: window[k] == old(window[k])
        invariant forall k | 0 <= k < i :: window[at + k] == bytes[k]
      {
        window[at + i] := bytes[i];
        i := i + 1;
      }
    }

    /** read_buf: copies input behind the lookahead and updates the check value. */
    method ReadBuf(nextIn: seq<byte>, size: nat) returns (rest: seq<byte>)
      requires Sizes() && WindowOk() && Positioned() && strstart + lookahead + size == window.Length
      modifies this`lookahead, this`input, this`adler, window
      ensures WindowOk() && Positioned() && |rest| <= |nextIn| && rest == nextIn[|nextIn| - |rest|..]
      ensures |nextIn| - |rest| == if |nextIn| <= size then |nextIn| else size
      ensures input == old(input) + nextIn[..|nextIn| - |rest|] && lookahead == old(lookahead) + |nextIn| - |rest|
    {
      hide Shows, Adler32.Pack, Adler32.Adler;
      var len := if |nextIn| > size then size else |nextIn|;
      ghost var w, e, x := window[..], strstart + lookahead, input;
      if wrap {
        Adler32.AdlerMore(input, nextIn[..len]);
        adler := Adler32.Adler32(adler, nextIn[..len]);
      }
      CopyIn(strstart + lookahead, nextIn[..len]);
      ShowsMore(w, window[..], e, x, base, nextIn[..len]);
      lookahead := lookahead + len;
      input := input + nextIn[..len];
      rest := nextIn[len..];
    }

    /** Starts the rolling hash anew at the current string. With less than three bytes of lookahead it is garbage. */
    method StartHash()
      requires Sizes() && WindowOk() && strstart + 1 < window.Length
      modifies this`insH
      ensures WindowOk() && Rolled(g, input, base + strstart, insH)
    {
      hide Update, Hash3;
      if base + strstart + 2 < |input| {
        ShowsAt(window[..], |input| - base, input, base, strstart, 1);
        ShowsAt(window[..], |input| - base, input, base, strstart + 1, 1);
        FirstUpdate(g.k, g.s, window[strstart]);
        RolledUp(g, input, base + strstart, 0);
      }
      insH := window[strstart];
      insH := Update(g.k, g.s, insH, window[strstart + 1]);
    }

    /** The free space at the end of the window, after a slide if it is nearly full: at least two bytes. */
    method MakeRoom() returns (more: nat)
      requires Valid() && lookahead < MIN_LOOKAHEAD
      modifies this`strstart, this`matchStart, this`blockStart, this`base, window, head, prev
      ensures Valid() && more == window.Length - lookahead - strstart >= 2 && strstart + MIN_LOOKAHEAD < window.Length
      ensures base + strstart == old(base + strstart) && base >= old(base) && (old(strstart) >= 1 ==> strstart >= 1)
      ensures base + matchStart == old(base + matchStart) && base + blockStart == old(base + blockStart)
    {
      hide ChainsOk, Shows, Rolled, Update, WindowOk;
      WindowBounds();
      more := window.Length - lookahead - strstart;
      if strstart >= g.wsize + MaxDist() {
        Slide();
        more := more + g.wsize;
      }
    }

    /** One round of reading. */
    method Refill(nextIn: seq<byte>, more: nat) returns (rest: seq<byte>)
      requires Valid() && strstart + lookahead + more == window.Length && strstart + 1 < window.Length
      modifies this`lookahead, this`input, this`adler, this`insH, window
      ensures Valid() && |rest| <= |nextIn| && rest == nextIn[|nextIn| - |rest|..]
      ensures |nextIn| - |rest| == if |nextIn| <= more then |nextIn| else more
      ensures input == old(input) + nextIn[..|nextIn| - |rest|] && lookahead == old(lookahead) + |nextIn| - |rest|
    {
      hide ChainsOk, Shows, Update, HashAt, WindowOk;
      ghost var x := input;
      rest := ReadBuf(nextIn, more);
      WindowBounds();
      if lookahead >= MIN_MATCH {
        hide Rolled;
        StartHash();
      }
      ChainsGrow(g, head[..], prev[..], x, input, base, ins, slots, strstart, strstart);
    }

    /** fill_window: reads input until there is enough lookahead or no more input, sliding the window first if it is
        nearly full. One round is always enough: if input is left after it, the window is full. */
    method FillWindow(nextIn: seq<byte>) returns (rest: seq<byte>)
      requires Valid() && lookahead < MIN_LOOKAHEAD
      modifies this`strstart, this`lookahead, this`matchStart, this`blockStart, this`base, this`input, this`adler, this`insH, window, head, prev
      ensures Valid() && base + strstart == old(base + strstart)
      ensures base + matchStart == old(base + matchStart) && base + blockStart == old(base + blockStart)
      ensures Consumed(nextIn, rest, old(input), input)
      ensures strstart + MIN_LOOKAHEAD < window.Length && (lookahead >= MIN_LOOKAHEAD || rest == [])
      ensures base >= old(base) && old(lookahead) <= lookahead && (old(strstart) >= 1 ==> strstart >= 1)
    {
      hide Valid, Sizes;
      rest := nextIn;
      var more := MakeRoom();
      if |rest| > 0 {
        rest := Refill(rest, more);
      }
    }

    lemma WindowBounds()
      requires WindowOk() && Positioned()
      ensures strstart + lookahead <= window.Length && |input| == base + strstart + lookahead
    {
    }

    /** lm_init: no strings, nothing read; the stream has a header of so many bytes. */
    constructor (g: Geometry, wrap: bool, maxChain: nat, goodMatch: nat, niceMatch: nat, ghost bytes: nat)
      requires GoodGeometry(g) && maxChain >= 4 && goodMatch >= MIN_MATCH && 6 <= niceMatch <= MAX_MATCH
      ensures Valid() && input == [] && base == 0 && strstart == 0 && lookahead == 0 && blockStart == 0 && prevLength == MIN_MATCH - 1
      ensures fresh(window) && fresh(head) && fresh(prev) && fresh(restart) && this.g == g && this.wrap == wrap
      ensures this.maxChain == maxChain && this.goodMatch == goodMatch && this.niceMatch == niceMatch
      ensures restart.at == 0 && restart.blocks == 0 && restart.bytes == bytes && ins == {} && skipped == map[]
    {
      this.g, this.wrap, this.maxChain, this.goodMatch, this.niceMatch := g, wrap, maxChain, goodMatch, niceMatch;
      restart := new Restart(bytes);
      window := new byte[2 * g.wsize];
      head := new nat[Pow2(g.k)](_ => NIL);
      prev := new nat[g.wsize];
      adler, insH, strstart, lookahead, matchStart, blockStart, prevLength := 1, 0, 0, 0, 0, 0, MIN_MATCH - 1;
      input, base, ins, slots, skipped := [], 0, {}, {}, map[];
      new;
      ChainsEmpty(g, head[..], prev[..], input, base, 0);
      AdlerStart();
    }

    /** The window bytes between two indices continue the input at the first of them. */
    lemma WindowPart(from: nat, to: nat)
      requires WindowOk() && from <= to && base + to <= |input|
      ensures to <= window.Length && input[..base + from] + window[from..to] == input[..base + to]
    {
      ShowsAt(window[..], |input| - base, input, base, from, to - from);
      assert input[base + from..base + to] == window[..][from..to] == window[from..to];
    }

    /** CLEAR_HASH: forgets all strings. */
    method ClearHash()
      requires Valid()
      modifies this`ins, this`slots, this`skipped, head, restart`at
      ensures Valid() && restart.at == base + strstart && ins == {} && skipped == map[] && forall h | 0 <= h < head.Length :: head[h] == NIL
    {
      hide Rolled, Shows, ChainsOk;
      var h: nat := 0;
      while h < head.Length
        invariant h <= head.Length && forall i | 0 <= i < h :: head[i] == NIL
      {
        head[h] := NIL;
        h := h + 1;
      }
      ins, slots, skipped, restart.at := {}, {}, map[], base + strstart;
      Emptied();
    }

    lemma Emptied()
      requires Sizes() && forall h | 0 <= h < head.Length :: head[h] == NIL
      ensures ChainsOk(g, head[..], prev[..], input, base, {}, {}, strstart)
    {
      ChainsEmpty(g, head[..], prev[..], input, base, strstart);
    }
  }

  lemma AdlerStart()
    ensures Adler32.Pack(Adler32.Adler([])) == 1
  {
  }

  lemma ShowsMore(w: seq<byte>, w': seq<byte>, e: nat, x: seq<byte>, base: nat, y: seq<byte>)
    requires Shows(w, e, x, base) && |w'| == |w| && e + |y| <= |w|
    requires (forall k | 0 <= k < e :: w'[k] == w[k]) && forall k | 0 <= k < |y| :: w'[e + k] == y[k]
    ensures Shows(w', e + |y|, x + y, base)
  {
    assert w'[..e + |y|] == w[..e] + y;
    assert (x + y)[base..] == x[base..] + y;
  }

  /** Of the input bytes all, rest is left, and x grew by the others to y. */
  ghost predicate Consumed(all: seq<byte>, rest: seq<byte>, x: seq<byte>, y: seq<byte>) {
    |rest| <= |all| && rest == all[|all| - |rest|..] && y == x + all[..|all| - |rest|]
  }

  lemma ShowsSlid(w: seq<byte>, w': seq<byte>, e: nat, x: seq<byte>, base: nat, d: nat)
    requires Shows(w, e, x, base) && |w| == 2 * d && |w'| == 2 * d && w'[..d] == w[d..] && d <= e
    ensures Shows(w', e - d, x, base + d)
  {
    assert w'[..e - d] == w'[..d][..e - d] == w[d..][..e - d];
    assert w[d..][..e - d] == w[..e][d..];
    assert x[base + d..] == x[base..][d..];
  }
}
