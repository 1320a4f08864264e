/** Why deflate_fast and deflate_slow take the tokens they take: a record of every search, and what follows from it about
    the input. */
module Picks {
  import opened Bits
  import opened Tokens
  import opened Traces
  import opened Chains
  import opened Matcher
  import opened Streams

  datatype Strategy = DefaultStrategy | Filtered | HuffmanOnly | Rle | FixedStrategy

  const TOO_FAR: nat := 4096

  /** What the parameters of a compressor say about its searches. */
  datatype Tuning = Tuning(g: Geometry, strategy: Strategy, lazy: bool, maxLazy: nat, maxChain: nat, goodMatch: nat, niceMatch: nat)

  ghost predicate GoodTuning(t: Tuning) {
    && GoodGeometry(t.g) && t.maxChain >= 4 && t.goodMatch >= MIN_MATCH && 6 <= t.niceMatch <= MAX_MATCH
    && MIN_MATCH <= t.maxLazy <= MAX_MATCH
  }

  function Far(t: Tuning): int { t.g.wsize - MIN_LOOKAHEAD }

  /** A search for the string at position at: the input read by then, the position of the window, the strings inserted since
      low and those skipped, the length to beat, the length found, that length or less after the filters, and its start. */
  datatype Search = Search(x: seq<byte>, at: nat, base: nat, low: nat, ins: set<nat>, skipped: map<nat, nat>,
                           before: nat, raw: nat, length: nat, start: int)

  function Budget(t: Tuning, before: nat): nat { if before >= t.goodMatch then t.maxChain / 4 else t.maxChain }

  /** The strings that the search looks at: none if it is not made. */
  ghost function Looked(t: Tuning, s: Search): (r: seq<nat>)
    requires GoodTuning(t)
    ensures forall i | 0 <= i < |r| :: s.base < r[i] < s.at && r[i] in s.ins
  {
    if s.at + 2 >= |s.x| || t.strategy.HuffmanOnly? || (t.lazy && s.before >= t.maxLazy) then []
    else
      var c := Candidates(t.g, s.x, s.base, s.ins, s.at, Far(t), Budget(t, s.before));
      if t.strategy.Rle? then (if |c| > 0 && s.at - c[0] == 1 then [c[0]] else []) else c
  }

  /** A match of this length is not improved on. */
  function Nice(t: Tuning): nat { if t.strategy.Rle? then MAX_MATCH else t.niceMatch }

  /** deflate_slow gives up short matches under the filtered strategy, and the shortest if they are far. */
  function Kept(t: Tuning, raw: nat, dist: int): nat {
    if t.lazy && raw <= 5 && (t.strategy.Filtered? || (raw == MIN_MATCH && dist > TOO_FAR)) then MIN_MATCH - 1 else raw
  }

  /** deflate_slow skips a string only if the input ends within it, at one of the given places. */
  ghost predicate Short(skipped: map<nat, nat>, ends: set<nat>) {
    forall a | a in skipped :: a < skipped[a] <= a + 2 && skipped[a] in ends
  }

  /** What a search could know: the strings since low, and the input far enough ahead unless it ends at one of the given places. */
  ghost predicate Knows(t: Tuning, s: Search, low: nat, ends: set<nat>) {
    s.low == low && (s.at + MIN_LOOKAHEAD <= |s.x| || |s.x| in ends) && (t.lazy ==> Short(s.skipped, ends))
  }

  /** The search has looked at everything: there is no improvement, or one that is not nice and does not reach the end. */
  predicate Exhausted(t: Tuning, s: Search) {
    s.at + s.raw < |s.x| && s.raw < MAX_MATCH && (s.raw < Nice(t) || s.raw <= s.before)
  }

  /** The outcome of a search: the nearest of the longest matches, unless one is long enough to stop early. */
  ghost predicate Justified(t: Tuning, s: Search)
    requires GoodTuning(t)
  {
    && s.at < |s.x| && (s.base > 0 ==> s.base + Far(t) <= s.at)
    && Recent(s.low, s.ins) && Covered(s.low, s.at, s.ins, s.skipped)
    && if Looked(t, s) == [] then s.length < MIN_MATCH
       else
         && (Exhausted(t, s) ==> NoneAgrees(s.x, s.at, Looked(t, s), s.raw + 1))
         && (s.raw > s.before && s.raw >= MIN_MATCH ==> Nearest(s.x, s.at, Looked(t, s), s.start, s.raw))
         && (s.raw > s.before && s.raw >= MIN_MATCH ==> Repeated(s.x, s.at, s.start, s.raw, Far(t)))
         && (s.length == Kept(t, s.raw, s.at - s.start) || (s.raw <= s.before && s.length <= s.before))
  }

  /** The reason for a token: deflate_fast takes what it finds; deflate_slow waits for the search at the next position, if
      there is one. */
  datatype Pick = Eager(found: Search) | Lazy(found: Search, next: Option<Search>)

  predicate Taken(p: Pick) {
    p.found.length >= MIN_MATCH && (p.Lazy? && p.next.Some? ==> p.next.value.length <= p.found.length)
  }

  /** The token is the match if it is taken, otherwise the byte. */
  ghost predicate Fits(t: Tuning, x: seq<byte>, p: Pick, tok: Token)
    requires GoodTuning(t)
  {
    && (p.Lazy? <==> t.lazy) && Justified(t, p.found) && p.found.x <= x
    && (if p.found.length < MIN_MATCH then p.found.before < MIN_MATCH else p.found.length > p.found.before)
    && (p.Lazy? ==> if p.next.Some? then Second(t, x, p.found, p.next.value) else p.found.length < MIN_MATCH)
    && tok == if Taken(p) then Match(p.found.length, p.found.at - p.found.start) else Literal(x[p.found.at])
  }

  /** The search at the next position, for something longer. */
  ghost predicate Second(t: Tuning, x: seq<byte>, s: Search, n: Search)
    requires GoodTuning(t)
  {
    Justified(t, n) && n.x <= x && n.at == s.at + 1 && n.before == s.length
  }

  ghost predicate KnowsBoth(t: Tuning, p: Pick, low: nat, ends: set<nat>) {
    Knows(t, p.found, low, ends) && (p.Lazy? && p.next.Some? ==> Knows(t, p.next.value, low, ends))
  }

  ghost predicate AllKnow(t: Tuning, ps: seq<Pick>, low: nat, ends: set<nat>) { forall i | 0 <= i < |ps| :: KnowsBoth(t, ps[i], low, ends) }

  lemma KnowsMore(t: Tuning, s: Search, low: nat, ends: set<nat>, more: set<nat>)
    requires Knows(t, s, low, ends) && ends <= more
    ensures Knows(t, s, low, more)
  {
  }

  lemma AllKnowMore(t: Tuning, ps: seq<Pick>, low: nat, ends: set<nat>, more: set<nat>)
    requires AllKnow(t, ps, low, ends) && ends <= more
    ensures AllKnow(t, ps, low, more)
  {
    hide Knows;
    forall i | 0 <= i < |ps| ensures KnowsBoth(t, ps[i], low, more) {
      assert KnowsBoth(t, ps[i], low, ends);
      KnowsMore(t, ps[i].found, low, ends, more);
      if ps[i].Lazy? && ps[i].next.Some? {
        KnowsMore(t, ps[i].next.value, low, ends, more);
      }
    }
  }

  function Length(tok: Token): nat { if tok.Match? then tok.length else 1 }

  /** The tokens, each for its reason, follow each other from position b to position end. */
  ghost predicate Reasoned(t: Tuning, x: seq<byte>, b: int, ps: seq<Pick>, ts: seq<Token>, end: int)
    requires GoodTuning(t)
    decreases |ts|
  {
    |ps| == |ts| &&
    if |ts| == 0 then b == end
    else
      var k := |ts| - 1;
      Fits(t, x, ps[k], ts[k]) && ps[k].found.at + Length(ts[k]) == end && Reasoned(t, x, b, ps[..k], ts[..k], ps[k].found.at)
  }

  lemma ReasonedNothing(t: Tuning, x: seq<byte>, b: int)
    requires GoodTuning(t)
    ensures Reasoned(t, x, b, [], [], b)
  {
  }

  lemma ReasonedSnoc(t: Tuning, x: seq<byte>, b: int, ps: seq<Pick>, ts: seq<Token>, end: int, p: Pick, tok: Token)
    requires GoodTuning(t) && Reasoned(t, x, b, ps, ts, end) && Fits(t, x, p, tok) && p.found.at == end
    ensures Reasoned(t, x, b, ps + [p], ts + [tok], end + Length(tok))
  {
    hide Fits;
    assert (ps + [p])[..|ps|] == ps && (ts + [tok])[..|ts|] == ts;
  }

  lemma FitsMore(t: Tuning, x: seq<byte>, y: seq<byte>, p: Pick, tok: Token)
    requires GoodTuning(t) && Fits(t, x, p, tok) && x <= y
    ensures Fits(t, y, p, tok)
  {
    hide Looked, NoneAgrees, Nearest, Repeated, Covered, Short;
  }

  lemma {:induction false} ReasonedMore(t: Tuning, x: seq<byte>, y: seq<byte>, b: int, ps: seq<Pick>, ts: seq<Token>, end: int)
    requires GoodTuning(t) && Reasoned(t, x, b, ps, ts, end) && x <= y
    ensures Reasoned(t, y, b, ps, ts, end)
    decreases |ts|
  {
    hide Fits;
    if |ts| > 0 {
      var k := |ts| - 1;
      FitsMore(t, x, y, ps[k], ts[k]);
      ReasonedMore(t, x, y, b, ps[..k], ts[..k], ps[k].found.at);
    }
  }

  // ---- the tokens of a stream

  /** Every token of the blocks has its reason; what a stored block stands for is not divided into tokens. */
  ghost predicate Explained(t: Tuning, x: seq<byte>, blocks: seq<Block>, done: seq<seq<Pick>>)
    requires GoodTuning(t)
  {
    |done| == |blocks| && forall i | 0 <= i < |blocks| :: ExplainedAt(t, x, blocks, done[i], i)
  }

  ghost predicate ExplainedAt(t: Tuning, x: seq<byte>, blocks: seq<Block>, ps: seq<Pick>, i: nat)
    requires GoodTuning(t) && i < |blocks|
  {
    !blocks[i].StoredBlock? ==>
      Reasoned(t, x, |BlocksOut([], blocks[..i])|, ps, blocks[i].tokens, |BlocksOut([], blocks[..i + 1])|)
  }

  lemma ExplainedSize(t: Tuning, x: seq<byte>, blocks: seq<Block>, done: seq<seq<Pick>>)
    requires GoodTuning(t) && Explained(t, x, blocks, done)
    ensures |done| == |blocks|
  {
  }

  lemma ExplainedMore(t: Tuning, x: seq<byte>, y: seq<byte>, blocks: seq<Block>, done: seq<seq<Pick>>)
    requires GoodTuning(t) && Explained(t, x, blocks, done) && x <= y
    ensures Explained(t, y, blocks, done)
  {
    hide Reasoned, BlocksOut;
    forall i | 0 <= i < |blocks| ensures ExplainedAt(t, y, blocks, done[i], i) {
      assert ExplainedAt(t, x, blocks, done[i], i);
      if !blocks[i].StoredBlock? {
        ReasonedMore(t, x, y, |BlocksOut([], blocks[..i])|, done[i], blocks[i].tokens, |BlocksOut([], blocks[..i + 1])|);
      }
    }
  }

  lemma ExplainedSnoc(t: Tuning, x: seq<byte>, blocks: seq<Block>, done: seq<seq<Pick>>, blk: Block, ps: seq<Pick>)
    requires GoodTuning(t) && Explained(t, x, blocks, done) && GoodBlocks([], blocks) && GoodBlock(BlocksOut([], blocks), blk)
    requires !blk.StoredBlock? ==>
      Reasoned(t, x, |BlocksOut([], blocks)|, ps, blk.tokens, |BlockOut(BlocksOut([], blocks), blk)|)
    ensures Explained(t, x, blocks + [blk], done + [ps])
  {
    hide Reasoned, BlocksOut, GoodBlocks, GoodBlock, BlockOut, BlocksBits, BlockBits;
    var more := blocks + [blk];
    BlocksSnoc([], blocks, blk, false, 0);
    assert more[..|blocks|] == blocks && more[..|blocks| + 1] == more;
    forall i | 0 <= i < |more| ensures ExplainedAt(t, x, more, (done + [ps])[i], i) {
      if i < |blocks| {
        assert ExplainedAt(t, x, blocks, done[i], i);
        assert more[..i] == blocks[..i] && more[..i + 1] == blocks[..i + 1];
      }
    }
  }

  // ---- what follows

  /** Each token stands at the position that its search was made for. */
  lemma {:induction false} EachFits(t: Tuning, x: seq<byte>, h: seq<byte>, ps: seq<Pick>, ts: seq<Token>, end: int, i: nat)
    requires GoodTuning(t) && Reasoned(t, x, |h|, ps, ts, end) && ValidTokens(h, ts) && i < |ts|
    ensures i < |ps| && Fits(t, x, ps[i], ts[i]) && ps[i].found.at == |Expand(h, ts[..i])| && end == |Expand(h, ts)|
    decreases |ts|
  {
    hide Fits, Copy;
    var k := |ts| - 1;
    if k > 0 {
      EachFits(t, x, h, ps[..k], ts[..k], ps[k].found.at, if i < k then i else 0);
    }
    if i < k {
      assert ts[..k][..i] == ts[..i];
    }
    if ts[k].Match? {
      CopyLength(Expand(h, ts[..k]), ts[k].dist, ts[k].length);
    }
  }

  /** The strategies that search all candidates. */
  predicate Searching(t: Tuning) { !t.strategy.HuffmanOnly? && !t.strategy.Rle? }

  /** No string since the last restart within reach agrees with the one at s.at in n bytes, unless it is at window index 0, or
      was skipped, or as many newer strings with its hash have been looked at as there may be. */
  ghost predicate NoRepeat(t: Tuning, s: Search, n: nat)
    requires GoodTuning(t)
  {
    forall a: nat | s.low <= a && 0 < a < s.at && s.at - a < Far(t) && a !in s.skipped && Same(s.x, s.at, a, n) ::
      |Looked(t, s)| == Budget(t, s.before) && forall i | 0 <= i < |Looked(t, s)| :: a < Looked(t, s)[i]
  }

  lemma AgreeHash(g: Geometry, x: seq<byte>, a: nat, b: nat, n: nat)
    requires Same(x, a, b, n) && n >= MIN_MATCH
    ensures HashAt(g, x, a) == HashAt(g, x, b)
  {
    hide Hash.Hash3;
    var u, v := x[a..a + n], x[b..b + n];
    assert u[0] == x[a] && u[1] == x[a + 1] && u[2] == x[a + 2];
    assert v[0] == x[b] && v[1] == x[b + 1] && v[2] == x[b + 2];
  }

  lemma NoneMeansNoRepeat(t: Tuning, s: Search, n: nat)
    requires GoodTuning(t) && Searching(t) && Justified(t, s) && s.at + 2 < |s.x| && n >= MIN_MATCH
    requires t.lazy ==> s.before < t.maxLazy
    requires NoneAgrees(s.x, s.at, Looked(t, s), n)
    ensures NoRepeat(t, s, n)
  {
    hide Candidates, HashAt, Hit, Same, Nearest;
    var c := Looked(t, s);
    forall a: nat | s.low <= a && 0 < a < s.at && s.at - a < Far(t) && a !in s.skipped && Same(s.x, s.at, a, n)
      ensures |c| == Budget(t, s.before) && forall i | 0 <= i < |c| :: a < c[i]
    {
      InsertedHit(t, s, a, n);
      CandidatesAll(t.g, s.x, s.base, s.ins, s.at, Far(t), Budget(t, s.before), a);
    }
  }

  lemma InsertedHit(t: Tuning, s: Search, a: nat, n: nat)
    requires GoodTuning(t) && s.low <= a < s.at && a !in s.skipped && Covered(s.low, s.at, s.ins, s.skipped)
    requires s.at + 2 < |s.x| && n >= MIN_MATCH && Same(s.x, s.at, a, n)
    ensures Hit(t.g, s.x, s.ins, HashAt(t.g, s.x, s.at), a)
  {
    hide HashAt, Same;
    AgreeHash(t.g, s.x, s.at, a, n);
  }

  /** The longest match is one that deflate_slow gives up, and no string agrees in one byte more. */
  ghost predicate GivenUp(t: Tuning, s: Search)
    requires GoodTuning(t)
  {
    t.lazy && MIN_MATCH <= s.raw <= 5 && Kept(t, s.raw, s.at - s.start) < MIN_MATCH && NoRepeat(t, s, s.raw + 1)
  }

  lemma NothingLonger(t: Tuning, s: Search, n: nat)
    requires GoodTuning(t) && Searching(t) && Justified(t, s) && s.at + 2 < |s.x| && (t.lazy ==> s.before < t.maxLazy)
    requires n >= MIN_MATCH && (Looked(t, s) == [] || (s.raw < n && (s.raw < 6 || s.raw <= s.before) && s.before < MAX_MATCH))
    ensures NoRepeat(t, s, n)
  {
    hide Candidates, Looked, Covered, Nearest, NoneAgrees, Repeated;
    if Looked(t, s) == [] {
      assert NoneAgrees(s.x, s.at, [], n) by { NoneOfNone(s.x, s.at, n); }
      NoneMeansNoRepeat(t, s, n);
    } else if s.at + s.raw < |s.x| {
      NoneAgreesMore(s.x, s.at, Looked(t, s), s.raw + 1, n);
      NoneMeansNoRepeat(t, s, n);
    }
  }

  lemma NoneOfNone(x: seq<byte>, p: nat, n: nat)
    ensures NoneAgrees(x, p, [], n)
  {
  }

  /** A search with at least three bytes of lookahead and without result: no string agrees in three bytes, or the longest
      match has been given up. */
  lemma NothingFound(t: Tuning, s: Search)
    requires GoodTuning(t) && Searching(t) && Justified(t, s) && s.at + 2 < |s.x| && s.length < MIN_MATCH && s.before < MIN_MATCH
    ensures NoRepeat(t, s, MIN_MATCH) || GivenUp(t, s)
  {
    hide Candidates, Looked, NoRepeat, Covered, Nearest, Same, NoneAgrees, Repeated;
    if Looked(t, s) == [] || s.raw < MIN_MATCH {
      NothingLonger(t, s, MIN_MATCH);
    } else {
      NothingLonger(t, s, s.raw + 1);
    }
  }

  /** A search that finds nothing better than the match before: no string agrees in one byte more than that match has, or the
      longest match has been given up. */
  lemma NotImproved(t: Tuning, s: Search)
    requires GoodTuning(t) && Searching(t) && Justified(t, s) && s.at + 2 < |s.x| && s.length <= s.before
    requires MIN_MATCH <= s.before < MAX_MATCH && (t.lazy ==> s.before < t.maxLazy)
    ensures NoRepeat(t, s, s.before + 1) || GivenUp(t, s)
  {
    hide Candidates, Looked, NoRepeat, Covered, Nearest, Same, NoneAgrees, Repeated;
    if Looked(t, s) == [] || s.raw <= s.before {
      NothingLonger(t, s, s.before + 1);
    } else {
      NothingLonger(t, s, s.raw + 1);
    }
  }

  /** Why a literal: there is nothing to repeat, or the match was given up, or the next position has a longer one. */
  lemma LiteralReason(t: Tuning, x: seq<byte>, p: Pick, tok: Token)
    requires GoodTuning(t) && Searching(t) && Fits(t, x, p, tok) && tok.Literal? && p.found.at + 2 < |p.found.x|
    ensures p.found.at < |x| && tok.b == x[p.found.at]
    ensures NoRepeat(t, p.found, MIN_MATCH) || GivenUp(t, p.found) || Deferred(p)
  {
    hide NoRepeat, Justified;
    if p.found.length < MIN_MATCH {
      NothingFound(t, p.found);
    }
    JustifiedAt(t, p.found);
  }

  /** The match was put off for a longer one. */
  predicate Deferred(p: Pick) { p.Lazy? && p.next.Some? && MIN_MATCH <= p.found.length < p.next.value.length }

  lemma JustifiedAt(t: Tuning, s: Search)
    requires GoodTuning(t) && Justified(t, s)
    ensures s.at < |s.x|
  {
  }

  /** Why a match: it repeats a string within reach, and no string of those looked at that is nearer repeats as much; unless it
      is nice or reaches the end of the input, nothing longer can be repeated; and deflate_slow has found nothing longer at the
      next position. */
  lemma MatchReason(t: Tuning, x: seq<byte>, p: Pick, tok: Token)
    requires GoodTuning(t) && Fits(t, x, p, tok) && tok.Match?
    ensures var s := p.found; s.at - tok.dist == s.start && tok.length == s.length && Repeated(s.x, s.at, s.start, tok.length, Far(t))
    ensures Nearest(p.found.x, p.found.at, Looked(t, p.found), p.found.at - tok.dist, tok.length) && p.found.at - tok.dist >= p.found.low
    ensures Searching(t) && tok.length < t.niceMatch ==> NoRepeat(t, p.found, tok.length + 1)
    ensures p.Lazy? && p.next.Some? ==> p.next.value.length <= tok.length
    ensures p.Lazy? && p.next.Some? && Searching(t) && tok.length < t.maxLazy && p.next.value.at + 2 < |p.next.value.x| ==>
      NoRepeat(t, p.next.value, tok.length + 1) || GivenUp(t, p.next.value)
  {
    hide NoRepeat, Justified, GivenUp, NoneAgrees, Nearest, Repeated, Looked;
    MatchFacts(t, p.found);
    if Searching(t) && tok.length < t.niceMatch {
      NiceOrLongest(t, p.found);
    }
    if p.Lazy? && p.next.Some? && Searching(t) && tok.length < t.maxLazy && p.next.value.at + 2 < |p.next.value.x| {
      NotImproved(t, p.next.value);
    }
  }

  lemma MatchFacts(t: Tuning, s: Search)
    requires GoodTuning(t) && Justified(t, s) && s.length >= MIN_MATCH && s.length > s.before
    ensures s.start >= s.low && s.raw == s.length && s.start < s.at && Repeated(s.x, s.at, s.start, s.length, Far(t)) && Nearest(s.x, s.at, Looked(t, s), s.start, s.length)
  {
    hide Looked, NoneAgrees, Same;
  }

  lemma NiceOrLongest(t: Tuning, s: Search)
    requires GoodTuning(t) && Searching(t) && Justified(t, s) && s.length >= MIN_MATCH && s.length > s.before && s.length < t.niceMatch
    ensures NoRepeat(t, s, s.length + 1)
  {
    hide Candidates, Covered, Nearest, NoneAgrees, Repeated;
    MatchFacts(t, s);
    if s.at + s.raw < |s.x| {
      NoneMeansNoRepeat(t, s, s.raw + 1);
    }
  }
}
