/** deflate_fast and deflate_slow of deflate.c: the tokens they tally always expand to the input read so far. */
module Deflater {
  import opened Bits
  import opened Tokens
  import opened Traces
  import opened Chains
  import opened Matcher
  import opened Picks
  import opened Streams
  import opened Encoder
  import opened BitWriter
  import opened BlockWriter

  datatype Flush = NoFlush | PartialFlush | SyncFlush | FullFlush | Finish
  /** How a round of one of the loops ends: the loop goes on, the routine returns, or the input is at its end. */
  datatype Verdict = Again | Returns | AtEnd
  datatype BlockState = NeedMore | BlockDone | FinishStarted | FinishDone

  /** How much had been put out when a call began, and how much can have been when it ends. */
  datatype Span = Span(start: nat, total: nat)

  // ---- tokens against the input

  lemma {:induction false} CopyRepeats(x: seq<byte>, p: nat, m: nat, n: nat, far: int)
    requires Repeated(x, p, m, n, far)
    ensures Copy(x[..p], p - m, n) == x[..p + n]
  {
    hide Copy;
    if n == 0 {
      CopyNone(x[..p], p - m);
    } else {
      SameShorter(x, p, m, n);
      CopyRepeats(x, p, m, n - 1, far);
      CopyNext(x[..p], p - m, n - 1);
      NextByte(x, p + n - 1, m + n - 1);
    }
  }

  lemma NextByte(x: seq<byte>, q: nat, r: nat)
    requires r < q < |x| && x[q] == x[r]
    ensures x[..q] + [x[..q][r]] == x[..q + 1]
  {
  }

  lemma SameShorter(x: seq<byte>, p: nat, m: nat, n: nat)
    requires Same(x, p, m, n) && n > 0
    ensures Same(x, p, m, n - 1) && x[p + n - 1] == x[m + n - 1]
  {
    var a, b := x[p..p + n], x[m..m + n];
    assert a[..n - 1] == x[p..p + n - 1];
    assert b[..n - 1] == x[m..m + n - 1];
    assert a[n - 1] == x[p + n - 1] && b[n - 1] == x[m + n - 1];
  }

  /** No match reaches farther back than far. */
  ghost predicate Near(ts: seq<Token>, far: int) { forall i | 0 <= i < |ts| :: ts[i].Match? ==> ts[i].dist <= far }

  ghost predicate NearBlock(b: Block, far: int) { !b.StoredBlock? ==> Near(b.tokens, far) }

  ghost predicate NearBlocks(bs: seq<Block>, far: int) { forall i | 0 <= i < |bs| :: NearBlock(bs[i], far) }

  /** The tokens ts turn the input up to b into the input up to end, reaching back no farther than far. */
  ghost predicate Tells(x: seq<byte>, b: int, ts: seq<Token>, end: int, far: int) {
    0 <= b <= end <= |x| && ValidTokens(x[..b], ts) && Expand(x[..b], ts) == x[..end] && Near(ts, far)
  }

  lemma TellsLiteral(x: seq<byte>, b: int, ts: seq<Token>, end: nat, far: int)
    requires Tells(x, b, ts, end, far) && end < |x|
    ensures Tells(x, b, ts + [Literal(x[end])], end + 1, far)
  {
    var t := Literal(x[end]);
    assert (ts + [t])[..|ts|] == ts;
    assert x[..end + 1] == x[..end] + [x[end]];
  }

  lemma TellsMatch(x: seq<byte>, b: int, ts: seq<Token>, end: nat, m: int, n: nat, far: int)
    requires Tells(x, b, ts, end, far) && Repeated(x, end, m, n, far) && far <= MAX_WINDOW && MIN_MATCH <= n <= MAX_MATCH
    ensures Tells(x, b, ts + [Match(n, end - m)], end + n, far)
  {
    hide Copy;
    var t := Match(n, end - m);
    assert (ts + [t])[..|ts|] == ts;
    CopyRepeats(x, end, m, n, far);
  }

  lemma TellsMore(x: seq<byte>, y: seq<byte>, b: int, ts: seq<Token>, end: int, far: int)
    requires Tells(x, b, ts, end, far) && x <= y
    ensures Tells(y, b, ts, end, far)
  {
    assert x[..b] == y[..b] && x[..end] == y[..end];
  }

  lemma TellsNothing(x: seq<byte>, b: nat, far: int)
    requires b <= |x|
    ensures Tells(x, b, [], b, far)
  {
  }

  lemma RepeatedMore(x: seq<byte>, y: seq<byte>, p: nat, m: int, n: nat, far: int)
    requires Repeated(x, p, m, n, far) && x <= y
    ensures Repeated(y, p, m, n, far)
  {
    assert x[p..p + n] == y[p..p + n] && x[m..m + n] == y[m..m + n];
  }

  lemma RepeatedSince(x: seq<byte>, low: nat, p: nat, m: int, n: nat, far: int)
    requires Repeated(x, p, m, n, far) && low <= m
    ensures p <= |x| && Repeated(x[low..], p - low, m - low, n, far)
  {
    var y := x[low..];
    assert x[p..p + n] == y[p - low..p - low + n] && x[m..m + n] == y[m - low..m - low + n];
  }

  /** The tokens have their reasons, and they tell the same about the input since low alone. */
  ghost predicate Account(t: Tuning, x: seq<byte>, low: nat, ends: set<nat>, b: int, ts: seq<Token>, ps: seq<Pick>, end: int)
    requires GoodTuning(t)
  {
    low <= b <= end <= |x| && Tells(x[low..], b - low, ts, end - low, Far(t)) && Reasoned(t, x, b, ps, ts, end) && AllKnow(t, ps, low, ends)
  }

  lemma AccountLiteral(t: Tuning, x: seq<byte>, low: nat, ends: set<nat>, b: int, ts: seq<Token>, ps: seq<Pick>, end: nat, p: Pick)
    requires GoodTuning(t) && Account(t, x, low, ends, b, ts, ps, end) && end < |x| && Fits(t, x, p, Literal(x[end])) && p.found.at == end && KnowsBoth(t, p, low, ends)
    ensures Account(t, x, low, ends, b, ts + [Literal(x[end])], ps + [p], end + 1)
  {
    hide Tells, Reasoned, Fits, KnowsBoth;
    TellsLiteral(x[low..], b - low, ts, end - low, Far(t));
    assert x[low..][end - low] == x[end];
    ReasonedSnoc(t, x, b, ps, ts, end, p, Literal(x[end]));
  }

  lemma AccountMatch(t: Tuning, x: seq<byte>, low: nat, ends: set<nat>, b: int, ts: seq<Token>, ps: seq<Pick>, end: nat, m: int, n: nat, p: Pick)
    requires GoodTuning(t) && Account(t, x, low, ends, b, ts, ps, end) && low <= m && Repeated(x, end, m, n, Far(t)) && MIN_MATCH <= n <= MAX_MATCH
    requires Fits(t, x, p, Match(n, end - m)) && p.found.at == end && KnowsBoth(t, p, low, ends)
    ensures Account(t, x, low, ends, b, ts + [Match(n, end - m)], ps + [p], end + n)
  {
    hide Tells, Reasoned, Fits, KnowsBoth;
    RepeatedSince(x, low, end, m, n, Far(t));
    TellsMatch(x[low..], b - low, ts, end - low, m - low, n, Far(t));
    ReasonedSnoc(t, x, b, ps, ts, end, p, Match(n, end - m));
    RepeatedEnd(x, end, m, n, Far(t));
  }

  lemma RepeatedEnd(x: seq<byte>, p: nat, m: int, n: nat, far: int)
    requires Repeated(x, p, m, n, far)
    ensures p + n <= |x|
  {
  }

  lemma AccountMore(t: Tuning, x: seq<byte>, y: seq<byte>, low: nat, ends: set<nat>, b: int, ts: seq<Token>, ps: seq<Pick>, end: int)
    requires GoodTuning(t) && Account(t, x, low, ends, b, ts, ps, end) && x <= y
    ensures Account(t, y, low, ends, b, ts, ps, end)
  {
    hide Tells, Reasoned, AllKnow;
    TellsMore(x[low..], y[low..], b - low, ts, end - low, Far(t));
    ReasonedMore(t, x, y, b, ps, ts, end);
  }

  lemma AccountNothing(t: Tuning, x: seq<byte>, low: nat, ends: set<nat>, b: nat)
    requires GoodTuning(t) && low <= b <= |x|
    ensures Account(t, x, low, ends, b, [], [], b)
  {
    hide Tells;
    TellsNothing(x[low..], b - low, Far(t));
    ReasonedNothing(t, x, b);
  }

  /** The blocks from before to after have n tokens each. */
  ghost predicate Divided(before: seq<seq<Pick>>, after: seq<seq<Pick>>, n: int) {
    before <= after && forall i | |before| <= i < |after| :: |after[i]| == n
  }

  lemma DividedMore(a: seq<seq<Pick>>, b: seq<seq<Pick>>, c: seq<seq<Pick>>, n: int)
    requires Divided(a, b, n) && Divided(b, c, n)
    ensures Divided(a, c, n)
  {
  }

  lemma DividedNone(a: seq<seq<Pick>>, n: int)
    ensures Divided(a, a, n)
  {
  }

  lemma DividedOne(a: seq<seq<Pick>>, ps: seq<Pick>, n: int)
    requires |ps| == n
    ensures Divided(a, a + [ps], n)
  {
  }

  /** The same for all blocks but possibly the last one, which is as long as it happens to be. */
  ghost predicate DividedButLast(before: seq<seq<Pick>>, after: seq<seq<Pick>>, n: int) {
    Divided(before, after, n) || (|after| > 0 && Divided(before, after[..|after| - 1], n))
  }

  lemma DividedLast(a: seq<seq<Pick>>, b: seq<seq<Pick>>, ps: seq<Pick>, n: int)
    requires Divided(a, b, n)
    ensures DividedButLast(a, b, n) && DividedButLast(a, b + [ps], n)
  {
    assert (b + [ps])[..|b + [ps]| - 1] == b;
  }

  lemma AccountEnds(t: Tuning, x: seq<byte>, low: nat, ends: set<nat>, more: set<nat>, b: int, ts: seq<Token>, ps: seq<Pick>, end: int)
    requires GoodTuning(t) && Account(t, x, low, ends, b, ts, ps, end) && ends <= more
    ensures Account(t, x, low, more, b, ts, ps, end)
  {
    hide Tells, Reasoned, AllKnow;
    AllKnowMore(t, ps, low, ends, more);
  }

  // ---- the blocks written so far

  /** bits are the blocks that stand for the first b input bytes, after what went before them in the stream. */
  ghost predicate Wrote(bits: seq<bool>, origin: seq<bool>, blocks: seq<Block>, x: seq<byte>, b: int, ended: bool, far: int) {
    && 0 <= b <= |x| && GoodBlocks([], blocks) && BlocksOut([], blocks) == x[..b]
    && (ended ==> |blocks| > 0) && NearBlocks(blocks, far)
    && bits == Ended(origin + BlocksBits([], blocks, ended, |origin|), ended)
  }

  lemma StartOk(origin: seq<bool>)
    ensures forall far: int :: Wrote(origin, origin, [], [], 0, false, far) && Tells([], 0, [], 0, far)
  {
    assert origin + [] == origin;
  }

  lemma WroteMore(bits: seq<bool>, origin: seq<bool>, blocks: seq<Block>, x: seq<byte>, y: seq<byte>, b: int, ended: bool, far: int)
    requires Wrote(bits, origin, blocks, x, b, ended, far) && x <= y
    ensures Wrote(bits, origin, blocks, y, b, ended, far)
  {
    assert x[..b] == y[..b];
  }

  lemma NearSnoc(bs: seq<Block>, b: Block, far: int)
    requires NearBlocks(bs, far) && NearBlock(b, far)
    ensures NearBlocks(bs + [b], far)
  {
    hide NearBlock;
  }

  lemma EndedNot(bits: seq<bool>)
    ensures Ended(bits, false) == bits
  {
  }

  lemma WroteBlock(bits: seq<bool>, origin: seq<bool>, blocks: seq<Block>, x: seq<byte>, b: int, blk: Block, end: int, eof: bool, far: int)
    requires Wrote(bits, origin, blocks, x, b, false, far) && b <= end <= |x| && GoodBlock(x[..b], blk) && BlockOut(x[..b], blk) == x[..end]
    requires NearBlock(blk, far)
    ensures Wrote(Ended(bits + BlockBits(x[..b], blk, eof, |bits|), eof), origin, blocks + [blk], x, end, eof, far)
  {
    hide GoodBlocks, GoodBlock, BlockBits, BlockOut, BlocksBits, BlocksOut, NearBlocks, Ended;
    NearSnoc(blocks, blk, far);
    EndedNot(origin + BlocksBits([], blocks, false, |origin|));
    BlocksSnoc([], blocks, blk, eof, |origin|);
    Associative(origin, BlocksBits([], blocks, false, |origin|), BlockBits(x[..b], blk, eof, |bits|));
  }

  /** The bytes and the blocks written since the last restart tell the input since then, without what went before; and all
      tokens have their reasons. */
  ghost predicate Journal(t: Tuning, bits: seq<bool>, low: nat, ends: set<nat>, cut: nat, bytes: nat, blocks: seq<Block>, done: seq<seq<Pick>>, x: seq<byte>, b: int, ended: bool)
    requires GoodTuning(t)
  {
    && low <= b <= |x| && cut <= |blocks| && 8 * bytes <= |bits|
    && Wrote(bits[8 * bytes..], [], blocks[cut..], x[low..], b - low, ended, Far(t)) && Explained(t, x, blocks, done)
    && forall i | cut <= i < |done| :: AllKnow(t, done[i], low, ends)
  }

  lemma JournalMore(t: Tuning, bits: seq<bool>, low: nat, ends: set<nat>, cut: nat, bytes: nat, blocks: seq<Block>, done: seq<seq<Pick>>, x: seq<byte>, y: seq<byte>, b: int, ended: bool)
    requires GoodTuning(t) && Journal(t, bits, low, ends, cut, bytes, blocks, done, x, b, ended) && x <= y
    ensures Journal(t, bits, low, ends, cut, bytes, blocks, done, y, b, ended)
  {
    hide AllKnow, Wrote, Explained;
    WroteMore(bits[8 * bytes..], [], blocks[cut..], x[low..], y[low..], b - low, ended, Far(t));
    ExplainedMore(t, x, y, blocks, done);
  }

  lemma JournalAt(t: Tuning, bits: seq<bool>, low: nat, ends: set<nat>, cut: nat, bytes: nat, blocks: seq<Block>, done: seq<seq<Pick>>, x: seq<byte>, b: int, ended: bool)
    requires GoodTuning(t) && Journal(t, bits, low, ends, cut, bytes, blocks, done, x, b, ended)
    ensures low <= b <= |x| && Explained(t, x, blocks, done)
  {
    hide AllKnow, Explained, Wrote;
  }

  /** When all of the input is in blocks, those since the restart stand for the input since then. */
  lemma JournalOpen(t: Tuning, bits: seq<bool>, low: nat, ends: set<nat>, cut: nat, bytes: nat, blocks: seq<Block>, done: seq<seq<Pick>>, x: seq<byte>)
    requires GoodTuning(t) && Journal(t, bits, low, ends, cut, bytes, blocks, done, x, |x|, false)
    ensures low <= |x| && cut <= |blocks| && 8 * bytes <= |bits| && GoodBlocks([], blocks[cut..]) && BlocksOut([], blocks[cut..]) == x[low..]
    ensures bits[8 * bytes..] == BlocksBits([], blocks[cut..], false, 0)
  {
    hide AllKnow, Explained, GoodBlocks, BlocksOut, BlocksBits, NearBlocks;
    var y := x[low..];
    assert y[..|y|] == y;
    assert [] + BlocksBits([], blocks[cut..], false, 0) == BlocksBits([], blocks[cut..], false, 0);
  }

  lemma JournalEnds(t: Tuning, bits: seq<bool>, low: nat, ends: set<nat>, more: set<nat>, cut: nat, bytes: nat, blocks: seq<Block>, done: seq<seq<Pick>>, x: seq<byte>, b: int, ended: bool)
    requires GoodTuning(t) && Journal(t, bits, low, ends, cut, bytes, blocks, done, x, b, ended) && ends <= more
    ensures Journal(t, bits, low, more, cut, bytes, blocks, done, x, b, ended)
  {
    hide AllKnow, Wrote, Explained;
    forall i | cut <= i < |done| ensures AllKnow(t, done[i], low, more) {
      AllKnowMore(t, done[i], low, ends, more);
    }
  }

  /** A restart at a byte boundary. */
  lemma JournalCut(t: Tuning, bits: seq<bool>, ends: set<nat>, bytes: nat, blocks: seq<Block>, done: seq<seq<Pick>>, x: seq<byte>, b: nat)
    requires GoodTuning(t) && |bits| == 8 * bytes && b <= |x| && Explained(t, x, blocks, done)
    ensures Journal(t, bits, b, ends, |blocks|, bytes, blocks, done, x, b, false)
  {
    hide AllKnow, Explained, Wrote;
    ExplainedSize(t, x, blocks, done);
    StartOk([]);
    assert bits[8 * bytes..] == [] && blocks[|blocks|..] == [];
    WroteMore([], [], [], [], x[b..], 0, false, Far(t));
  }

  /** A block stands for the same bytes after another history, if its tokens do. */
  lemma BlockSince(x: seq<byte>, low: nat, b: nat, blk: Block, end: nat, ts: seq<Token>, far: int)
    requires low <= b <= end <= |x| && GoodBlock(x[..b], blk) && BlockOut(x[..b], blk) == x[..end]
    requires (blk.StoredBlock? || blk.tokens == ts) && Tells(x[low..], b - low, ts, end - low, far)
    ensures GoodBlock(x[low..][..b - low], blk) && BlockOut(x[low..][..b - low], blk) == x[low..][..end - low]
  {
    hide ValidTokens, Expand;
    if blk.StoredBlock? {
      var y := x[low..];
      assert x[..end] == x[..b] + blk.bytes;
      assert y[..end - low] == x[..end][low..] == x[..b][low..] + blk.bytes == y[..b - low] + blk.bytes;
    }
  }

  lemma EndedSince(bits: seq<bool>, more: seq<bool>, eof: bool, bytes: nat)
    requires 8 * bytes <= |bits|
    ensures 8 * bytes <= |Ended(bits + more, eof)| && Ended(bits + more, eof)[8 * bytes..] == Ended(bits[8 * bytes..] + more, eof)
  {
    hide Padding;
    var all := bits + more;
    assert all[8 * bytes..] == bits[8 * bytes..] + more;
    SamePadding(|all|, bytes);
  }

  /** One more block. */
  lemma JournalBlock(t: Tuning, bits: seq<bool>, origin: seq<bool>, low: nat, ends: set<nat>, cut: nat, bytes: nat, blocks: seq<Block>, done: seq<seq<Pick>>,
                     x: seq<byte>, b: int, ts: seq<Token>, ps: seq<Pick>, end: int, blk: Block, eof: bool)
    requires GoodTuning(t) && Journal(t, bits, low, ends, cut, bytes, blocks, done, x, b, false) && Wrote(bits, origin, blocks, x, b, false, Far(t))
    requires Account(t, x, low, ends, b, ts, ps, end) && (blk.StoredBlock? || blk.tokens == ts) && NearBlock(blk, Far(t))
    requires GoodBlock(x[..b], blk) && BlockOut(x[..b], blk) == x[..end]
    ensures Journal(t, Ended(bits + BlockBits(x[..b], blk, eof, |bits|), eof), low, ends, cut, bytes, blocks + [blk], done + [ps], x, end, eof)
  {
    hide AllKnow, GoodBlocks, GoodBlock, BlockBits, BlockOut, BlocksBits, BlocksOut, NearBlocks, NearBlock, Ended, Tells, Reasoned, Explained, Wrote;
    BlockSince(x, low, b, blk, end, ts, Far(t));
    BitsSince(x[..b], x[low..][..b - low], blk, eof, |bits|, bytes);
    WroteBlock(bits[8 * bytes..], [], blocks[cut..], x[low..], b - low, blk, end - low, eof, Far(t));
    EndedSince(bits, BlockBits(x[..b], blk, eof, |bits|), eof, bytes);
    assert (blocks + [blk])[cut..] == blocks[cut..] + [blk];
    WroteOut(bits, origin, blocks, x, b, Far(t));
    ExplainedSnoc(t, x, blocks, done, blk, ps);
  }

  lemma WroteOut(bits: seq<bool>, origin: seq<bool>, blocks: seq<Block>, x: seq<byte>, b: int, far: int)
    requires Wrote(bits, origin, blocks, x, b, false, far)
    ensures 0 <= b <= |x| && GoodBlocks([], blocks) && BlocksOut([], blocks) == x[..b]
  {
  }

  class Deflater {
    const strategy: Strategy
    /** deflate_slow is used; otherwise deflate_fast, and maxLazy is the longest match whose strings are inserted. */
    const lazy: bool
    const maxLazy: nat
    const m: Matcher
    const c: TreeCoder
    var matchLength: nat
    var prevMatch: int
    var matchAvailable: bool
    ghost const origin: seq<bool>
    ghost var blocks: seq<Block>
    ghost var ended: bool
    /** The reasons for the tokens of the current block and of the blocks before it; the search at the pending byte, and the
        search at the current string. */
    ghost var picks: seq<Pick>
    ghost var done: seq<seq<Pick>>
    ghost var last: Picks.Search
    ghost var found: Picks.Search
    /** The lengths of the input at which a call with a flush value has come to its end. */
    ghost var ends: set<nat>
    /** The room that is left for output in this call, and how many of the pending bytes have been put out so far. */
    var availOut: nat
    var flushed: nat
    ghost var span: Span

    constructor (m: Matcher, c: TreeCoder, strategy: Strategy, lazy: bool, maxLazy: nat, ghost origin: seq<bool>)
      requires m.Valid() && m.input == [] && m.base == 0 && m.strstart == 0 && m.blockStart == 0 && m.prevLength == MIN_MATCH - 1
      requires m.restart.at == 0 && m.restart.blocks == 0 && |origin| == 8 * m.restart.bytes && m.skipped == map[]
      requires c.Valid() && c.Tallies() == [] && c.level > 0 && c.lastLit == 0 && c.litBufsize > 1 && c.b.Sent() == origin
      requires m.head !in c.Work() + c.Static() && m.prev !in c.Work() + c.Static() && MIN_MATCH <= maxLazy <= MAX_MATCH
      ensures (if lazy then SlowOk() else FastOk()) && !ended && blocks == [] && flushed == 0
      ensures this.m == m && this.c == c && this.origin == origin && this.lazy == lazy && this.strategy == strategy && this.maxLazy == maxLazy && ends == {}
    {
      this.m, this.c, this.strategy, this.lazy, this.maxLazy, this.origin := m, c, strategy, lazy, maxLazy, origin;
      matchLength, prevMatch, matchAvailable := MIN_MATCH - 1, 0, false;
      blocks, done, picks, ended, ends := [], [], [], false, {};
      availOut, flushed, span := 0, 0, Span(0, 0);
      new;
      hide Matcher.Valid, TreeCoder.Valid, TreeCoder.Tallies, TreeCoder.Work, TreeCoder.Static, BitBuffer.Sent;
      StartOk(origin);
      AccountNothing(Tune(), [], 0, ends, 0);
      JournalCut(Tune(), origin, ends, m.restart.bytes, [], [], [], 0);
    }

    /** The parameters of the searches. */
    function Tune(): Tuning { Tuning(m.g, strategy, lazy, maxLazy, m.maxChain, m.goodMatch, m.niceMatch) }

    /** The position of the current string in the input. */
    ghost function At(): int
      reads m`base, m`strstart
    {
      m.base + m.strstart
    }

    ghost function BlockAt(): int
      reads m`base, m`blockStart
    {
      m.base + m.blockStart
    }

    /** The matcher and the encoder share no arrays. */
    ghost predicate Apart() {
      m.head !in c.Work() + c.Static() && m.prev !in c.Work() + c.Static()
    }

    /** The tallied tokens stand for the input up to end, each of them for its reason, and none looks back before the restart. */
    ghost predicate Told(end: int)
      reads `picks, `ends, m`input, m`base, m`blockStart, m.restart`at, c`lastLit, c.dBuf, c.lBuf
    {
      && c.Sizes() && c.lastLit <= c.litBufsize && Tells(m.input, BlockAt(), c.Tallies(), end, m.MaxDist())
      && GoodTuning(Tune()) && Account(Tune(), m.input, m.restart.at, ends, BlockAt(), c.Tallies(), picks, end)
    }

    /** The stream written so far stands for the input up to the current block, and so does the part since the restart. */
    ghost predicate Written()
      reads `blocks, `done, `ends, `ended, `availOut, `flushed, `span, m`input, m`base, m`blockStart, m.restart, c.b
    {
      && Wrote(c.b.Sent(), origin, blocks, m.input, BlockAt(), ended, m.MaxDist()) && (ended ==> c.b.biValid == 0) && Flow()
      && GoodTuning(Tune()) && Logged(c.b.Sent(), blocks, done, BlockAt(), ended)
    }

    ghost predicate Logged(bits: seq<bool>, blocks: seq<Block>, done: seq<seq<Pick>>, b: int, ended: bool)
      requires GoodTuning(Tune())
      reads `ends, m`input, m.restart
    {
      Journal(Tune(), bits, m.restart.at, ends, m.restart.blocks, m.restart.bytes, blocks, done, m.input, b, ended)
    }

    /** What has been put out was pending, and took the room it needs. */
    ghost predicate Flow()
      reads `availOut, `flushed, `span, c.b`pending
    {
      span.start <= flushed <= |c.b.pending| && availOut + flushed == span.total
    }

    /** The room for output of a new call. */
    method SetRoom(room: nat)
      requires Flow()
      modifies `availOut, `span
      ensures Flow() && availOut == room && span == Span(flushed, room + flushed)
      ensures (old(SlowOk()) ==> SlowOk()) && (old(FastOk()) ==> FastOk())
    {
      hide Wrote, Journal, Tells, Account, Prior, Held, Short, TreeCoder.Valid, TreeCoder.Tallies, BitBuffer.Sent, Matcher.Valid;
      availOut, span := room, Span(flushed, room + flushed);
    }

    /** flush_pending between the runs of a compressor. */
    method PutOut()
      requires Flow()
      modifies `availOut, `flushed
      ensures Flow() && flushed >= old(flushed) && (availOut > 0 ==> flushed == |c.b.pending|)
      ensures availOut > 0 <==> old(availOut) > |c.b.pending| - old(flushed)
      ensures (old(SlowOk()) ==> SlowOk()) && (old(FastOk()) ==> FastOk())
    {
      hide Wrote, Journal, Tells, Account, Prior, Held, Short, TreeCoder.Valid, TreeCoder.Tallies, BitBuffer.Sent, Matcher.Valid;
      FlushPending();
    }

    /** flush_pending: as much of the pending output as there is room for. */
    method FlushPending()
      requires Flow()
      modifies `availOut, `flushed
      ensures Flow() && flushed >= old(flushed) && (availOut > 0 ==> flushed == |c.b.pending|)
      ensures availOut > 0 <==> old(availOut) > |c.b.pending| - old(flushed)
    {
      var len := |c.b.pending| - flushed;
      if len > availOut {
        len := availOut;
      }
      flushed, availOut := flushed + len, availOut - len;
    }

    /** The encoder can take another token. */
    ghost predicate Open()
      reads c`lastLit, c`optLen, c`staticLen, c.b, c.Work(), c.Static()
    {
      Apart() && c.Valid() && c.level > 0 && c.lastLit + 1 < c.litBufsize
    }

    lemma OpenSizes()
      requires Open()
      ensures Apart() && c.Valid() && c.level > 0 && c.litBufsize > 1
    {
    }

    /** _tr_tally_lit for the byte at input position end. */
    method TallyLiteral(value: byte, ghost end: nat, ghost p: Pick) returns (full: bool)
      requires Open() && Told(end) && end < |m.input| && m.input[end] == value
      requires Fits(Tune(), m.input, p, Literal(value)) && p.found.at == end && KnowsBoth(Tune(), p, m.restart.at, ends)
      modifies `picks, c`lastLit, c`matches, c.dBuf, c.lBuf, c.lFc, c.dFc
      ensures Apart() && c.Valid() && Told(end + 1) && (full <==> !Open())
    {
      hide KnowsBoth, Tells, Tallied, Account, Fits;
      ghost var ts := c.Tallies();
      full := c.TrTally(0, value);
      assert TokenOf(0, value) == Literal(m.input[end]);
      TellsLiteral(m.input, BlockAt(), ts, end, m.MaxDist());
      AccountLiteral(Tune(), m.input, m.restart.at, ends, BlockAt(), ts, picks, end, p);
      picks := picks + [p];
    }

    /** _tr_tally_dist for a match of length n at input position end. */
    method TallyMatch(dist: nat, n: nat, ghost end: nat, ghost p: Pick) returns (full: bool)
      requires Open() && Told(end) && MIN_MATCH <= n <= MAX_MATCH && Repeated(m.input, end, end - dist, n, m.MaxDist())
      requires m.Sizes() && end - dist >= m.restart.at && Fits(Tune(), m.input, p, Match(n, dist)) && p.found.at == end && KnowsBoth(Tune(), p, m.restart.at, ends)
      modifies `picks, c`lastLit, c`matches, c.dBuf, c.lBuf, c.lFc, c.dFc
      ensures Apart() && c.Valid() && Told(end + n) && (full <==> !Open())
    {
      hide KnowsBoth, Tells, Tallied, Same, Account, Fits;
      ghost var ts := c.Tallies();
      full := c.TrTally(dist, n - MIN_MATCH);
      assert TokenOf(dist, n - MIN_MATCH) == Match(n, dist);
      TellsMatch(m.input, BlockAt(), ts, end, end - dist, n, m.MaxDist());
      AccountMatch(Tune(), m.input, m.restart.at, ends, BlockAt(), ts, picks, end, end - dist, n, p);
      picks := picks + [p];
    }

    /** _tr_flush_block for the tallied tokens; the window is used if it still holds the block. */
    method EmitBlock(eof: bool) returns (ghost blk: Block)
      requires Apart() && c.Valid() && c.level > 0 && c.litBufsize > 1
      requires m.Sizes() && m.WindowOk() && At() <= |m.input| && m.strstart < m.window.Length
      requires Told(At()) && Written() && !ended
      modifies c`lastLit, c`matches, c`optLen, c`staticLen, c`lastEobLen, c.b, c.Work()
      ensures Open() && c.lastLit == 0 && c.Tallies() == [] && (eof ==> c.b.biValid == 0) && |c.b.pending| >= |old(c.b.pending)|
      ensures Wrote(c.b.Sent(), origin, blocks + [blk], m.input, At(), eof, m.MaxDist())
      ensures Logged(c.b.Sent(), blocks + [blk], done + [picks], At(), eof)
    {
      hide Account, Journal, Near, NearBlock, Tells, Tallied, Wrote, Cheapest, Stands, Ended, ValidTokens, Expand, BlockBits, GoodBlock, BlockOut, Shows,
        TreeCoder.Valid, TreeCoder.Tallies, Matcher.WindowOk, TreeCoder.Work, TreeCoder.Static, BitBuffer.Sent;
      ghost var x, b, ts, end := m.input, BlockAt(), c.Tallies(), At();
      TellsFacts(x, b, ts, end, m.MaxDist());
      WroteFacts(c.b.Sent(), origin, blocks, x, b, ended, m.MaxDist());
      var buf: Option<seq<byte>> := None;
      var storedLen: nat := m.strstart - m.blockStart;
      if m.blockStart >= 0 {
        buf := Some(m.window[m.blockStart..m.strstart]);
        m.WindowPart(m.blockStart, m.strstart);
      }
      ghost var sent := c.b.Sent();
      blk := c.TrFlushBlock(buf, storedLen, eof, x[..b]);
      StandsNear(blk, buf, ts, c.level, m.MaxDist());
      StandsTokens(blk, buf, ts, c.level);
      WroteBlock(sent, origin, blocks, x, b, blk, end, eof, m.MaxDist());
      JournalBlock(Tune(), sent, origin, m.restart.at, ends, m.restart.blocks, m.restart.bytes, blocks, done, x, b, ts, picks, end, blk, eof);
    }

    lemma TellsTuned()
      requires Told(At())
      ensures GoodTuning(Tune())
    {
      hide Tells, Account;
    }

    lemma Since(end: int)
      requires Told(end)
      ensures m.restart.at <= BlockAt() <= end <= |m.input|
    {
      hide Tells, Reasoned;
    }

    /** The block ends at the current string. */
    method WriteBlock(eof: bool)
      requires Apart() && c.Valid() && c.level > 0 && c.litBufsize > 1
      requires m.Sizes() && m.WindowOk() && At() <= |m.input| && m.strstart < m.window.Length
      requires Told(At()) && Written() && !ended
      modifies this`blocks, this`done, this`picks, this`ended, m`blockStart, c`lastLit, c`matches, c`optLen, c`staticLen, c`lastEobLen, c.b, c.Work()
      ensures Open() && Told(At()) && Written() && ended == eof && m.blockStart == m.strstart && c.lastLit == 0
      ensures done == old(done) + [old(picks)]
    {
      hide Tells, Wrote, TreeCoder.Valid, TreeCoder.Tallies, Matcher.WindowOk, Matcher.Sizes, BitBuffer.Sent, Account, Journal, Open, GoodTuning;
      Since(At());
      TellsTuned();
      ghost var blk := EmitBlock(eof);
      NextBlock(blk, eof);
    }

    /** The block that has just been written is recorded, and the next one begins. */
    method NextBlock(ghost blk: Block, eof: bool)
      requires Open() && c.Tallies() == [] && (eof ==> c.b.biValid == 0) && Flow() && m.restart.at <= At() <= |m.input| && GoodTuning(Tune())
      requires Wrote(c.b.Sent(), origin, blocks + [blk], m.input, At(), eof, m.MaxDist()) && Logged(c.b.Sent(), blocks + [blk], done + [picks], At(), eof)
      modifies this`blocks, this`done, this`picks, this`ended, m`blockStart
      ensures Open() && Told(At()) && Written() && ended == eof && m.blockStart == m.strstart
      ensures done == old(done) + [old(picks)]
    {
      hide Tells, Wrote, TreeCoder.Valid, TreeCoder.Tallies, BitBuffer.Sent, Account, Journal, GoodTuning;
      m.blockStart := m.strstart;
      blocks, done, picks, ended := blocks + [blk], done + [picks], [], eof;
      TellsNothing(m.input, At(), m.MaxDist());
      AccountNothing(Tune(), m.input, m.restart.at, ends, At());
    }

    /** FLUSH_BLOCK_ONLY. */
    method FlushBlock(eof: bool)
      requires Apart() && c.Valid() && c.level > 0 && c.litBufsize > 1
      requires m.Sizes() && m.WindowOk() && At() <= |m.input| && m.strstart < m.window.Length
      requires Told(At()) && Written() && !ended
      modifies this`blocks, this`done, this`picks, this`ended, this`availOut, this`flushed, m`blockStart, c`lastLit, c`matches, c`optLen, c`staticLen, c`lastEobLen, c.b, c.Work()
      ensures Open() && Told(At()) && Written() && ended == eof && m.blockStart == m.strstart && c.lastLit == 0
      ensures availOut > 0 ==> flushed == |c.b.pending|
      ensures done == old(done) + [old(picks)]
    {
      hide Tells, Account, Wrote, Journal, TreeCoder.Valid, TreeCoder.Tallies, Matcher.WindowOk, Matcher.Sizes, BitBuffer.Sent;
      WriteBlock(eof);
      FlushPending();
    }

    /** FLUSH_BLOCK if the buffer of tokens is full. */
    method FlushIf(full: bool)
      requires Apart() && c.Valid() && c.level > 0 && c.litBufsize > 1 && (full <==> !Open())
      requires m.Valid() && m.strstart < m.window.Length && Told(At()) && Written() && !ended
      modifies this`blocks, this`done, this`picks, this`ended, this`availOut, this`flushed, m`blockStart, c`lastLit, c`matches, c`optLen, c`staticLen, c`lastEobLen, c.b, c.Work()
      ensures Open() && m.Valid() && Told(At()) && Written() && !ended
      ensures Divided(old(done), done, c.litBufsize - 1) && (!full ==> done == old(done))
    {
      hide Divided, Tells, Account, Wrote, Journal, Matcher.Valid, TreeCoder.Valid, TreeCoder.Tallies, Told, Written, Matcher.WindowOk, Matcher.Sizes, Shows;
      DividedNone(done, c.litBufsize - 1);
      if full {
        FullPicks(At());
        FlushBlock(false);
        DividedOne(old(done), old(picks), c.litBufsize - 1);
      }
    }

    /** A full buffer. */
    lemma FullPicks(end: int)
      requires Told(end) && !Open() && Apart() && c.Valid() && c.level > 0
      ensures |picks| == c.litBufsize - 1
    {
      hide Tells, Fits;
    }

    // ---- steps that both compressors share

    /** An unsigned 32-bit difference. */
    function Minus(a: int, b: int): int { (a - b) % 0x1_0000_0000 }

    /** A head that came out of the hash table in this call: its slot of prev has been written. */
    ghost predicate Known(h: nat)
      reads m`slots
    {
      h == NIL || (m.g.wsize > 0 && h < 65536 && h % m.g.wsize in m.slots)
    }

    lemma NoHead()
      ensures Known(NIL)
    {
    }

    /** fill_window changes nothing of what has been told and written. */
    method Fill(nextIn: seq<byte>, ghost end: int) returns (rest: seq<byte>)
      requires m.Valid() && m.lookahead < MIN_LOOKAHEAD && Open() && Told(end) && Written()
      modifies m`strstart, m`lookahead, m`matchStart, m`blockStart, m`base, m`input, m`adler, m`insH, m.window, m.head, m.prev
      ensures m.Valid() && Open() && Told(end) && Written() && At() == old(At()) && BlockAt() == old(BlockAt())
      ensures m.base + m.matchStart == old(m.base + m.matchStart) && old(m.lookahead) <= m.lookahead
      ensures Consumed(nextIn, rest, old(m.input), m.input) && (m.lookahead >= MIN_LOOKAHEAD || rest == [])
      ensures m.strstart + MIN_LOOKAHEAD < m.window.Length && (old(m.strstart) >= 1 ==> m.strstart >= 1)
    {
      hide Account, Journal, Tells, Wrote, Matcher.Valid, TreeCoder.Valid, TreeCoder.Tallies, BitBuffer.Sent;
      ghost var x, b, ts := m.input, BlockAt(), c.Tallies();
      rest := m.FillWindow(nextIn);
      assert x <= m.input;
      TellsMore(x, m.input, b, ts, end, m.MaxDist());
      AccountMore(Tune(), x, m.input, m.restart.at, ends, b, ts, picks, end);
      WroteMore(c.b.Sent(), origin, blocks, x, m.input, b, ended, m.MaxDist());
      JournalMore(Tune(), c.b.Sent(), m.restart.at, ends, m.restart.blocks, m.restart.bytes, blocks, done, x, m.input, b, ended);
    }

    /** INSERT_STRING for the current string, if three bytes of it are there; otherwise the old head stays. */
    method InsertCurrent(h0: nat) returns (h: nat)
      requires m.Valid() && Known(h0) && m.strstart < 65536
      modifies m`insH, m`ins, m`slots, m`skipped, m.head, m.prev
      ensures m.Sizes() && m.WindowOk() && m.Positioned() && m.Hashed(m.strstart + 1) && Known(h)
      ensures m.lookahead >= MIN_MATCH ==> h == m.Newest(m.strstart)
      ensures Entered(|m.input|, old(m.ins), old(m.skipped), m.ins, m.skipped, At(), At() + 1)
    {
      hide Shows, ChainsOk, HashAt, Latest, Entered, Matcher.Passed, Matcher.Newest, Recent, Covered;
      h := h0;
      EnteredNone(|m.input|, m.ins, m.skipped, At());
      EnteredNext(|m.input|, m.ins, m.skipped, m.ins, m.skipped, At(), At());
      if m.lookahead >= MIN_MATCH {
        h := m.InsertString(m.strstart);
      } else {
        m.PassedOne(At());
        m.Skip(m.strstart, m.strstart + 1);
      }
    }

    /** The same, with what the encoder keeps. */
    method InsertKeeping(h0: nat, ghost end: int) returns (h: nat)
      requires m.Valid() && Known(h0) && m.strstart < 65536 && Open() && Told(end) && Written()
      modifies m`insH, m`ins, m`slots, m`skipped, m.head, m.prev
      ensures m.Sizes() && m.WindowOk() && m.Positioned() && m.Hashed(m.strstart + 1) && Known(h)
      ensures m.lookahead >= MIN_MATCH ==> h == m.Newest(m.strstart)
      ensures Open() && Told(end) && Written() && Entered(|m.input|, old(m.ins), old(m.skipped), m.ins, m.skipped, At(), At() + 1)
    {
      hide Tells, Account, Wrote, Journal, Matcher.Valid, Matcher.WindowOk, Matcher.Hashed, Matcher.Sizes, Matcher.Newest, TreeCoder.Valid, TreeCoder.Tallies,
        BitBuffer.Sent, Told, Written, Known, Entered;
      h := InsertCurrent(h0);
    }

    /** A known head at an unsigned distance up to MAX_DIST is not after the current string. */
    lemma KnownNear(h: nat)
      requires Known(h) && h != NIL && m.Sizes() && m.strstart < 65536 && Minus(m.strstart, h) <= m.MaxDist()
      ensures h <= m.strstart && m.strstart - h <= m.MaxDist() && SlotLink(m.g, h, m.slots, m.strstart + 1)
    {
    }

    // ---- deflate_slow

    /** A match of length n for the string before the current one, at window index start, not before the restart. */
    ghost predicate Prior(start: int, n: nat)
      reads m`input, m`base, m`strstart, m`lookahead, m.restart`at
    {
      n <= m.lookahead + 1 && At() >= 1 && m.base + start >= m.restart.at && Repeated(m.input, At() - 1, m.base + start, n, m.MaxDist())
    }

    /** The search at the pending byte, before the current string, has found n bytes at window index start. */
    ghost predicate Held(n: nat, start: int)
      reads `last, `ends, m`input, m`base, m`strstart, m.restart`at
    {
      && GoodTuning(Tune()) && Justified(Tune(), last) && last.x <= m.input && last.at == At() - 1 && last.length == n && Knows(Tune(), last, m.restart.at, ends)
      && (if n < MIN_MATCH then last.before < MIN_MATCH else last.before < n && last.start == m.base + start)
    }

    /** The search at the current string. */
    ghost predicate Current()
      reads `found, `ends, `matchLength, m`input, m`base, m`strstart, m`prevLength, m`matchStart, m.restart`at
    {
      && GoodTuning(Tune()) && Justified(Tune(), found) && found.x == m.input && found.at == At() && found.before == m.prevLength && Knows(Tune(), found, m.restart.at, ends)
      && found.length == matchLength && (matchLength >= MIN_MATCH && matchLength > m.prevLength ==> found.start == m.base + m.matchStart)
    }

    /** The matcher after a search: the current string is inserted, and the record tells what the search has found. */
    ghost predicate Ripe()
      reads `found, `ends, `matchLength, m`strstart, m`lookahead, m`base, m`input, m`ins, m`slots, m`skipped, m`insH, m`adler, m`prevLength, m`matchStart,
        m.window, m.head, m.prev, m.restart`at
    {
      && m.Sizes() && m.WindowOk() && m.Positioned() && m.Hashed(m.strstart + 1) && Current()
      && m.lookahead >= 1 && m.strstart + MIN_LOOKAHEAD <= m.window.Length && 1 <= m.prevLength <= MAX_MATCH && matchLength <= MAX_MATCH
      && (matchLength >= MIN_MATCH && matchLength > m.prevLength ==> m.Found(m.matchStart, matchLength)) && Ample(At())
    }

    /** A match that has been found but not adopted yet is a match for the previous string, whose first byte is pending. */
    ghost predicate Pending()
      reads `matchLength, `matchAvailable, `last, `ends, m`input, m`base, m`strstart, m`lookahead, m`matchStart, m.restart`at
    {
      && 1 <= matchLength <= MAX_MATCH && (matchAvailable ==> m.strstart >= 1 && Held(matchLength, m.matchStart))
      && (matchLength >= MIN_MATCH ==> matchAvailable && Prior(m.matchStart, matchLength))
    }

    /** The head leads to a search. */
    ghost predicate Tried(h: nat)
      reads m`strstart, m`prevLength
    {
      && h != NIL && (lazy ==> m.prevLength < maxLazy) && Minus(m.strstart, h) <= m.MaxDist()
      && (Searching(Tune()) || (strategy == Rle && m.strstart - h == 1))
    }

    /** What the search routines promise about the length that they return. */
    ghost predicate Promised(h: nat, raw: nat)
      reads m`strstart, m`lookahead, m`matchStart, m`prevLength, m`input, m`base, m`ins, m.restart
      requires m.Sizes()
    {
      && (raw >= MIN_MATCH && raw > m.prevLength ==> m.Found(m.matchStart, raw))
      && (m.base + m.strstart + 2 < |m.input| ==>
            if Searching(Tune()) then m.Best(m.niceMatch, raw) else m.Unlike(h, raw) && (raw >= MIN_MATCH ==> m.matchStart == h))
    }

    /** The record of a search. */
    ghost function Recorded(raw: nat, length: nat): Picks.Search
      reads m`strstart, m`matchStart, m`prevLength, m`input, m`base, m`ins, m`skipped, m.restart
    {
      Picks.Search(m.input, At(), m.base, m.restart.at, m.ins, m.skipped, m.prevLength, raw, length, m.base + m.matchStart)
    }

    /** The strings looked at are those the source looks at. */
    lemma LookedIs(h: nat, s: Picks.Search)
      requires m.Sizes() && m.Positioned() && GoodTuning(Tune()) && m.strstart < 65536
      requires m.lookahead >= MIN_MATCH ==> h == m.Newest(m.strstart)
      requires s == Recorded(s.raw, s.length)
      ensures m.lookahead < MIN_MATCH || !Tried(h) ==> Looked(Tune(), s) == []
      ensures m.lookahead >= MIN_MATCH && Tried(h) ==> Looked(Tune(), s) == if Searching(Tune()) then m.Seen() else [m.base + h]
      ensures m.lookahead >= MIN_MATCH && Tried(h) ==> Looked(Tune(), s) != []
    {
      hide HashAt, Latest, Earlier;
      if m.lookahead >= MIN_MATCH {
        LatestBefore(m.g, m.input, m.base, m.ins, HashAt(m.g, m.input, At()), At());
        assert m.MaxDist() == Far(Tune()) && m.Budget() == Picks.Budget(Tune(), s.before);
      }
    }

    lemma LatestBefore(g: Geometry, x: seq<byte>, base: nat, ins: set<nat>, h: nat, a: nat)
      ensures var u := Latest(g, x, base, ins, h, a); u != 0 ==> base + u < a
    {
    }

    /** The record tells the outcome of the search. */
    lemma JustifiedIs(h: nat, s: Picks.Search)
      requires m.Sizes() && m.Positioned() && m.Hashed(m.strstart + 1) && GoodTuning(Tune()) && m.lookahead >= 1 && m.strstart < 65536
      requires m.lookahead >= MIN_MATCH ==> h == m.Newest(m.strstart)
      requires s == Recorded(s.raw, s.length)
      requires m.lookahead < MIN_MATCH || !Tried(h) ==> s.length < MIN_MATCH
      requires m.lookahead >= MIN_MATCH && Tried(h) ==> Promised(h, s.raw)
      requires s.length == Kept(Tune(), s.raw, s.at - s.start) || (s.raw <= s.before && s.length <= s.before)
      ensures Justified(Tune(), s)
    {
      hide ChainsOk, Rolled, Recent, Looked, Short, Same, NoneAgrees, Nearest, Kept, Tried, Matcher.Seen, Matcher.Newest, Repeated;
      LookedIs(h, s);
      if m.lookahead >= MIN_MATCH && Tried(h) && !Searching(Tune()) {
        OneLooked(s.x, s.at, m.base + h, s.raw);
      }
    }

    lemma OneLooked(x: seq<byte>, p: nat, a: nat, n: nat)
      ensures !Same(x, p, a, n + 1) ==> NoneAgrees(x, p, [a], n + 1)
      ensures Nearest(x, p, [a], a, n)
    {
      assert [a][..0] == [] && NoneAgrees(x, p, [], n);
      assert [a][0] == a;
    }

    /** The search that the strategy asks for, from a head within reach; otherwise the length stays. */
    method SearchFrom(h: nat, initial: nat) returns (length: nat)
      requires m.Sizes() && m.WindowOk() && m.Positioned() && m.Hashed(m.strstart + 1) && Known(h) && GoodTuning(Tune())
      requires m.lookahead >= MIN_MATCH ==> h == m.Newest(m.strstart)
      requires m.lookahead >= 1 && m.strstart + MIN_LOOKAHEAD <= m.window.Length && 1 <= m.prevLength <= MAX_MATCH
      requires h != NIL && Minus(m.strstart, h) <= m.MaxDist() && (lazy ==> m.prevLength < maxLazy)
      modifies m`matchStart
      ensures if Tried(h) then Promised(h, length) && 1 <= length <= MAX_MATCH && (m.lookahead < MIN_MATCH ==> length < MIN_MATCH)
              else length == initial
    {
      hide Shows, ChainsOk, HashAt, Rolled, Repeated, NoneAgrees, Nearest, Matcher.Newest, Matcher.Seen, Same, Recent, Covered;
      length := initial;
      KnownNear(h);
      if strategy != HuffmanOnly && strategy != Rle {
        length := m.LongestMatch(h);
      } else if strategy == Rle && m.strstart - h == 1 {
        length := m.LongestMatchFast(h);
      }
    }

    /** The test for short matches, made with unsigned arithmetic, is that of Kept for a match that has just been found. */
    lemma KeptIs(h: nat, raw: nat, length: nat)
      requires m.Sizes() && lazy && m.strstart < 65536 && (raw >= MIN_MATCH && raw > m.prevLength ==> m.Found(m.matchStart, raw))
      requires length == if raw <= 5 && (strategy == Filtered || (raw == MIN_MATCH && Minus(m.strstart, m.matchStart) > TOO_FAR)) then MIN_MATCH - 1 else raw
      ensures length == Kept(Tune(), raw, m.strstart - m.matchStart) || (raw <= m.prevLength && length <= m.prevLength)
    {
      hide Same;
    }

    /** What a search with the filter of deflate_slow says. */
    ghost predicate Filtering(h: nat, raw: nat)
      requires m.Sizes()
      reads `matchLength, m`strstart, m`lookahead, m`matchStart, m`prevLength, m`input, m`base, m`ins, m.restart
    {
      && (Tried(h) ==> Promised(h, raw)) && (m.lookahead < MIN_MATCH || !Tried(h) ==> matchLength < MIN_MATCH)
      && (matchLength == Kept(Tune(), raw, m.strstart - m.matchStart) || (raw <= m.prevLength && matchLength <= m.prevLength))
      && (matchLength >= MIN_MATCH && matchLength > m.prevLength ==> m.Found(m.matchStart, matchLength))
    }

    /** The search of deflate_slow, which gives up some short matches. */
    method Improve(h: nat) returns (ghost raw: nat)
      requires m.Sizes() && m.WindowOk() && m.Positioned() && m.Hashed(m.strstart + 1) && Known(h) && lazy && GoodTuning(Tune())
      requires m.lookahead >= MIN_MATCH ==> h == m.Newest(m.strstart)
      requires m.lookahead >= 1 && m.strstart + MIN_LOOKAHEAD <= m.window.Length && 1 <= m.prevLength <= MAX_MATCH && matchLength == MIN_MATCH - 1
      modifies this`matchLength, m`matchStart
      ensures 1 <= matchLength <= MAX_MATCH && Filtering(h, raw)
    {
      hide Known, Promised, GoodTuning, Kept, Matcher.WindowOk, Matcher.Positioned, Matcher.Hashed, Matcher.Newest, Matcher.Found;
      SizesAre();
      raw := matchLength;
      if h != NIL && m.prevLength < maxLazy && Minus(m.strstart, h) <= m.MaxDist() {
        matchLength := SearchFrom(h, matchLength);
        raw := matchLength;
        if matchLength <= 5 &&
           (strategy == Filtered || (matchLength == MIN_MATCH && Minus(m.strstart, m.matchStart) > TOO_FAR)) {
          matchLength := MIN_MATCH - 1;
        }
      }
      if Tried(h) {
        PromisedFound(h, raw);
      }
      KeptIs(h, raw, matchLength);
    }

    /** Looks for a match that is better than the previous one. */
    method FindLazy(h: nat)
      requires Ample(At())
      requires m.Sizes() && m.WindowOk() && m.Positioned() && m.Hashed(m.strstart + 1) && Known(h) && lazy && Short(m.skipped, ends) && GoodTuning(Tune())
      requires m.lookahead >= MIN_MATCH ==> h == m.Newest(m.strstart)
      requires m.lookahead >= 1 && m.strstart + MIN_LOOKAHEAD <= m.window.Length && Pending()
      modifies this`matchLength, this`prevMatch, this`found, m`prevLength, m`matchStart
      ensures m.prevLength == old(matchLength) && 1 <= m.prevLength <= MAX_MATCH && 1 <= matchLength <= MAX_MATCH
      ensures m.prevLength >= MIN_MATCH ==> matchAvailable && Prior(prevMatch, m.prevLength)
      ensures matchLength >= MIN_MATCH && matchLength > m.prevLength ==> m.Found(m.matchStart, matchLength)
      ensures Current() && (matchAvailable ==> Held(m.prevLength, prevMatch))
    {
      hide Held, Prior, Known, Promised, Tried, Justified, GoodTuning, Short, Kept, Matcher.WindowOk, Matcher.Positioned, Matcher.Hashed, Matcher.Newest, Matcher.Found;
      SizesAre();
      m.prevLength, prevMatch := matchLength, m.matchStart;
      matchLength := MIN_MATCH - 1;
      ghost var raw := Improve(h);
      found := Recorded(raw, matchLength);
      JustifiedIs(h, found);
    }

    lemma SizesAre()
      requires m.Sizes()
      ensures m.window.Length <= 65536
    {
    }

    lemma PromisedFound(h: nat, raw: nat)
      requires m.Sizes() && Promised(h, raw)
      ensures raw >= MIN_MATCH && raw > m.prevLength ==> m.Found(m.matchStart, raw)
    {
    }

    /** The next string inside a match is inserted if it is complete. */
    method InsertNext(maxInsert: int, h0: nat) returns (h: nat)
      requires m.Sizes() && m.WindowOk() && m.Hashed(m.strstart + 1) && Known(h0)
      requires maxInsert == |m.input| - m.base - MIN_MATCH && m.strstart < m.window.Length
      modifies m`insH, m`ins, m`slots, m`skipped, m`strstart, m.head, m.prev
      ensures m.WindowOk() && m.Hashed(m.strstart + 1) && Known(h) && m.strstart == old(m.strstart) + 1
      ensures Entered(|m.input|, old(m.ins), old(m.skipped), m.ins, m.skipped, At(), At() + 1)
    {
      hide Shows, ChainsOk, HashAt, Rolled, Matcher.WindowOk, Matcher.Newest, Entered, Matcher.Passed, Recent, Covered;
      h := h0;
      m.strstart := m.strstart + 1;
      EnteredNone(|m.input|, m.ins, m.skipped, At());
      EnteredNext(|m.input|, m.ins, m.skipped, m.ins, m.skipped, At(), At());
      if m.strstart <= maxInsert {
        h := m.InsertString(m.strstart);
      } else {
        m.PassedOne(At());
        m.Skip(m.strstart, m.strstart + 1);
      }
    }

    /** Inserts the strings inside a match: all that are complete. count strings are passed over. */
    method InsertRest(maxInsert: int, count: nat, h0: nat) returns (h: nat)
      requires m.Sizes() && m.WindowOk() && m.Hashed(m.strstart + 1) && Known(h0) && count >= 1
      requires maxInsert == |m.input| - m.base - MIN_MATCH && m.strstart + count <= m.window.Length
      modifies m`insH, m`ins, m`slots, m`skipped, m`strstart, m`prevLength, m.head, m.prev
      ensures m.Sizes() && m.WindowOk() && m.Hashed(m.strstart + 1) && Known(h) && m.strstart == old(m.strstart) + count && m.prevLength == 0
      ensures Entered(|m.input|, old(m.ins), old(m.skipped), m.ins, m.skipped, old(At()) + 1, At() + 1)
    {
      hide Matcher.Sizes, Matcher.WindowOk, Matcher.Hashed, Known, Entered;
      h := h0;
      m.prevLength := count;
      EnteredNone(|m.input|, m.ins, m.skipped, At() + 1);
      while true
        invariant m.WindowOk() && m.Hashed(m.strstart + 1) && Known(h)
        invariant Entered(|m.input|, old(m.ins), old(m.skipped), m.ins, m.skipped, old(At()) + 1, At() + 1)
        invariant 1 <= m.prevLength && m.strstart + m.prevLength == old(m.strstart) + count
        decreases m.prevLength
      {
        ghost var inserted, passed := m.ins, m.skipped;
        h := InsertNext(maxInsert, h);
        EnteredBoth(|m.input|, old(m.ins), old(m.skipped), inserted, passed, m.ins, m.skipped, old(At()) + 1, At(), At() + 1);
        m.prevLength := m.prevLength - 1;
        if m.prevLength == 0 {
          break;
        }
      }
    }

    /** Moves past the previous match. */
    method PassMatch(h0: nat) returns (h: nat)
      requires m.Sizes() && m.WindowOk() && m.Positioned() && m.Hashed(m.strstart + 1) && Known(h0)
      requires MIN_MATCH <= m.prevLength <= m.lookahead + 1 && m.prevLength <= MAX_MATCH && m.strstart + m.prevLength <= m.window.Length
      modifies m`insH, m`ins, m`slots, m`skipped, m`strstart, m`lookahead, m`prevLength, m.head, m.prev
      ensures m.Valid() && Known(h) && m.strstart == old(m.strstart) + old(m.prevLength) - 1
      ensures m.lookahead == old(m.lookahead) - (old(m.prevLength) - 1)
      ensures Entered(|m.input|, old(m.ins), old(m.skipped), m.ins, m.skipped, old(At()) + 1, At())
      ensures Short(old(m.skipped), ends) && Ample(old(At())) ==> Short(m.skipped, ends)
    {
      hide Short, Ample, Shows, ChainsOk, HashAt, Rolled, Matcher.WindowOk, Entered;
      var maxInsert: int := m.strstart + m.lookahead - MIN_MATCH;
      m.lookahead := m.lookahead - (m.prevLength - 1);
      h := InsertRest(maxInsert, m.prevLength - 2, h0);
      m.strstart := m.strstart + 1;
      if Short(old(m.skipped), ends) && Ample(old(At())) {
        ShortEntered(old(m.ins), old(m.skipped), old(At()), old(At()) + 1, At());
      }
    }

    /** The same, with the tokens that have been tallied. */
    method PassKeeping(h0: nat, ghost full: bool, ghost end: int) returns (h: nat)
      requires m.Sizes() && m.WindowOk() && m.Positioned() && m.Hashed(m.strstart + 1) && Known(h0)
      requires MIN_MATCH <= m.prevLength <= m.lookahead + 1 && m.prevLength <= MAX_MATCH && m.strstart + m.prevLength <= m.window.Length
      requires Apart() && c.Valid() && Told(end) && Written() && (full <==> !Open())
      modifies m`insH, m`ins, m`slots, m`skipped, m`strstart, m`lookahead, m`prevLength, m.head, m.prev
      ensures m.Valid() && Known(h) && m.strstart == old(m.strstart) + old(m.prevLength) - 1
      ensures m.lookahead == old(m.lookahead) - (old(m.prevLength) - 1)
      ensures Apart() && c.Valid() && Told(end) && Written() && (full <==> !Open())
      ensures Entered(|m.input|, old(m.ins), old(m.skipped), m.ins, m.skipped, old(At()) + 1, At())
      ensures Short(old(m.skipped), ends) && Ample(old(At())) ==> Short(m.skipped, ends)
    {
      hide Ample, Short, Shows, ChainsOk, HashAt, Tells, Account, Wrote, Journal, Rolled, Matcher.WindowOk, Matcher.Valid, Matcher.Hashed, BitBuffer.Sent,
        TreeCoder.Valid, TreeCoder.Tallies, Told, Written, Entered;
      h := PassMatch(h0);
    }

    /** The search at the current string has not found more than the one before, so the previous match is taken. */
    ghost function Waited(): Pick
      reads `last, `found
    {
      Lazy(last, Some(found))
    }

    lemma WaitedFits()
      requires Held(m.prevLength, prevMatch) && Current() && lazy && At() >= 1 && At() <= |m.input|
      ensures if m.prevLength >= MIN_MATCH && matchLength <= m.prevLength
        then Fits(Tune(), m.input, Waited(), Match(m.prevLength, m.strstart - 1 - prevMatch))
        else Fits(Tune(), m.input, Waited(), Literal(m.input[At() - 1]))
      ensures Waited().found.at == At() - 1 && KnowsBoth(Tune(), Waited(), m.restart.at, ends)
    {
      hide Justified, Knows;
    }

    /** _tr_tally_dist for the previous match. */
    method TallyPrevious() returns (full: bool)
      requires m.Sizes() && MIN_MATCH <= m.prevLength <= MAX_MATCH && Prior(prevMatch, m.prevLength) && Open() && Told(At() - 1) && Written()
      requires lazy && Held(m.prevLength, prevMatch) && Current() && matchLength <= m.prevLength
      modifies `picks, c`lastLit, c`matches, c.dBuf, c.lBuf, c.lFc, c.dFc
      ensures Apart() && c.Valid() && Told(At() - 1 + m.prevLength) && Written() && (full <==> !Open())
    {
      hide KnowsBoth, Tells, Account, Wrote, Journal, Same, BitBuffer.Sent, TreeCoder.Valid, TreeCoder.Tallies, Told, Written, Matcher.Sizes, Justified, Held, Current, Fits;
      PriorAt(prevMatch, m.prevLength);
      WaitedFits();
      full := TallyMatch(m.strstart - 1 - prevMatch, m.prevLength, At() - 1, Waited());
    }

    lemma PriorAt(start: int, n: nat)
      requires Prior(start, n)
      ensures 1 <= At() <= |m.input| + 1 && (n >= 1 ==> At() <= |m.input|)
    {
    }

    /** Tallies the previous match and moves past it. */
    method PassPrevious(h0: nat) returns (h: nat, full: bool)
      requires Ripe() && Known(h0) && MIN_MATCH <= m.prevLength && matchLength <= m.prevLength && lazy
      requires Held(m.prevLength, prevMatch) && Prior(prevMatch, m.prevLength) && Open() && Told(At() - 1) && Written()
      modifies m`insH, m`ins, m`slots, m`skipped, m`strstart, m`lookahead, m`prevLength, m.head, m.prev, `picks, c`lastLit, c`matches, c.dBuf, c.lBuf, c.lFc, c.dFc
      ensures m.Valid() && Apart() && c.Valid() && Told(At()) && Written() && Known(h) && (full <==> !Open())
      ensures m.strstart == old(m.strstart) + old(m.prevLength) - 1 && m.lookahead == old(m.lookahead) - (old(m.prevLength) - 1)
      ensures Entered(|m.input|, old(m.ins), old(m.skipped), m.ins, m.skipped, old(At()) + 1, At())
      ensures Short(old(m.skipped), ends) && Ample(old(At())) ==> Short(m.skipped, ends)
    {
      hide Ample, Short, Shows, ChainsOk, HashAt, Tells, Account, Wrote, Journal, Same, Rolled, Matcher.WindowOk, Matcher.Valid, Matcher.Hashed,
        BitBuffer.Sent, TreeCoder.Valid, TreeCoder.Tallies, Told, Written, Held, Current, Entered;
      ghost var end := At() - 1 + m.prevLength;
      full := TallyPrevious();
      h := PassKeeping(h0, full, end);
    }

    /** Adopts the previous match. */
    method EmitPrevious(h0: nat) returns (h: nat, full: bool)
      requires Ripe() && Known(h0) && MIN_MATCH <= m.prevLength && matchLength <= m.prevLength && lazy
      requires Held(m.prevLength, prevMatch) && Prior(prevMatch, m.prevLength) && Open() && Told(At() - 1) && Written()
      modifies this`matchLength, this`matchAvailable, m`insH, m`ins, m`slots, m`skipped, m`strstart, m`lookahead, m`prevLength, m.head, m.prev,
        `picks, c`lastLit, c`matches, c.dBuf, c.lBuf, c.lFc, c.dFc
      ensures m.Valid() && Apart() && c.Valid() && Told(At()) && Written() && Known(h) && (full <==> !Open())
      ensures !matchAvailable && matchLength == MIN_MATCH - 1 && 1 <= m.strstart < m.window.Length
      ensures m.lookahead == old(m.lookahead) - (old(m.prevLength) - 1) && At() == old(At()) + old(m.prevLength) - 1
      ensures Entered(|m.input|, old(m.ins), old(m.skipped), m.ins, m.skipped, old(At()) + 1, At())
      ensures Short(old(m.skipped), ends) && Ample(old(At())) ==> Short(m.skipped, ends)
    {
      hide Ample, Short, Shows, ChainsOk, HashAt, Tells, Account, Wrote, Journal, Same, Rolled, Matcher.WindowOk, Matcher.Valid, Matcher.Hashed,
        BitBuffer.Sent, TreeCoder.Valid, TreeCoder.Tallies, Told, Written, Prior, Held, Current, Entered;
      h, full := PassPrevious(h0);
      matchAvailable := false;
      matchLength := MIN_MATCH - 1;
    }

    /** One byte forward. */
    method Step()
      requires m.Sizes() && m.WindowOk() && m.Positioned() && m.Hashed(m.strstart + 1) && m.lookahead >= 1
      modifies m`strstart, m`lookahead
      ensures m.Valid() && m.strstart == old(m.strstart) + 1 && m.lookahead == old(m.lookahead) - 1
    {
      hide Shows, ChainsOk, Rolled;
      m.strstart := m.strstart + 1;
      m.lookahead := m.lookahead - 1;
    }

    /** What deflate_slow keeps: the tallied tokens, and the byte before the current string if it is pending, stand
        for the input up to the current string. */
    ghost predicate SlowOk()
      reads `matchLength, `matchAvailable, `blocks, `done, `picks, `last, `ends, `ended, `availOut, `flushed, `span, m, m.window, m.head, m.prev, m.restart,
        c`lastLit, c`optLen, c`staticLen, c.b, c.Work(), c.Static()
    {
      && m.Valid() && Open() && Written() && Told(if matchAvailable then At() - 1 else At()) && Pending()
      && lazy && Short(m.skipped, ends)
    }

    /** Takes the pending byte as a literal. */
    method EmitLiteral()
      requires Ripe() && m.strstart >= 1 && Open() && Told(At() - 1) && Written() && !ended
      requires lazy && Held(m.prevLength, prevMatch) && !(m.prevLength >= MIN_MATCH && matchLength <= m.prevLength)
      modifies this`blocks, this`done, this`picks, this`ended, this`availOut, this`flushed, m`blockStart,
        c`lastLit, c`matches, c`optLen, c`staticLen, c`lastEobLen, c.b, c.Work()
      ensures Open() && Told(At()) && Written() && !ended
      ensures Divided(old(done), done, c.litBufsize - 1)
    {
      hide Ripe, Divided, Matcher.WindowOk, Matcher.Sizes, TreeCoder.Valid, Told, Written, Held;
      RipeFacts();
      RipeWindow();
      OpenSizes();
      var full := TallyWaited();
      DividedNone(done, c.litBufsize - 1);
      if full {
        FullPicks(At());
        ghost var ps := picks;
        FlushBlock(false);
        DividedOne(old(done), ps, c.litBufsize - 1);
      }
    }

    lemma RipeWindow()
      requires Ripe()
      ensures m.WindowOk()
    {
      hide Matcher.Hashed, Matcher.Found, Matcher.WindowOk, Current;
    }

    /** _tr_tally_lit for the pending byte. */
    method TallyWaited() returns (full: bool)
      requires Ripe() && m.strstart >= 1 && Open() && Told(At() - 1) && Written() && !ended
      requires lazy && Held(m.prevLength, prevMatch) && !(m.prevLength >= MIN_MATCH && matchLength <= m.prevLength)
      modifies `picks, c`lastLit, c`matches, c.dBuf, c.lBuf, c.lFc, c.dFc
      ensures Apart() && c.Valid() && Told(At()) && Written() && (full <==> !Open()) && m.WindowOk()
    {
      hide KnowsBoth, Matcher.WindowOk, Matcher.Sizes, Matcher.Hashed, Matcher.Found, TreeCoder.Valid, Fits, Told, Written, Current, Held;
      WaitedFits();
      m.WindowPart(m.strstart - 1, m.strstart);
      LastByte(m.input, m.window[m.strstart - 1], m.window[m.strstart - 1..m.strstart], At());
      full := TallyLiteral(m.window[m.strstart - 1], At() - 1, Waited());
    }

    /** The state after the search for a better match. */
    ghost predicate Searched()
      reads `matchLength, `prevMatch, `matchAvailable, `blocks, `done, `picks, `last, `found, `ends, `ended, `availOut, `flushed, `span,
        m, m.window, m.head, m.prev, m.restart, c`lastLit, c`optLen, c`staticLen, c.b, c.Work(), c.Static()
    {
      && Ripe() && Open() && Written() && Told(if matchAvailable then At() - 1 else At()) && 1 <= matchLength
      && (matchAvailable ==> m.strstart >= 1 && Held(m.prevLength, prevMatch))
      && (m.prevLength >= MIN_MATCH ==> matchAvailable && Prior(prevMatch, m.prevLength))
      && lazy && Short(m.skipped, ends)
    }

    /** The search does not touch what has been tallied and written. */
    method FindKeeping(h: nat, ghost end: int)
      requires Ample(At())
      requires m.Sizes() && m.WindowOk() && m.Positioned() && m.Hashed(m.strstart + 1) && Known(h) && lazy && Short(m.skipped, ends)
      requires m.lookahead >= MIN_MATCH ==> h == m.Newest(m.strstart)
      requires m.lookahead >= 1 && m.strstart + MIN_LOOKAHEAD <= m.window.Length && Pending()
      requires Open() && Told(end) && Written()
      modifies this`matchLength, this`prevMatch, this`found, m`prevLength, m`matchStart
      ensures m.WindowOk() && m.Positioned() && m.Hashed(m.strstart + 1) && Known(h) && Open() && Told(end) && Written()
      ensures 1 <= m.prevLength <= MAX_MATCH && 1 <= matchLength <= MAX_MATCH
      ensures m.prevLength >= MIN_MATCH ==> matchAvailable && Prior(prevMatch, m.prevLength)
      ensures matchLength >= MIN_MATCH && matchLength > m.prevLength ==> m.Found(m.matchStart, matchLength)
      ensures Current() && (matchAvailable ==> Held(m.prevLength, prevMatch))
    {
      hide Tells, Account, Wrote, Journal, Matcher.WindowOk, Matcher.Hashed, Matcher.Newest, TreeCoder.Valid, TreeCoder.Tallies, BitBuffer.Sent, Told, Written,
        Known, Matcher.Found, Pending, Repeated, Current, Held, Short;
      Tuned(end);
      FindLazy(h);
    }

    lemma Tuned(end: int)
      requires Told(end)
      ensures GoodTuning(Tune())
    {
      hide Account, Tells;
    }

    method Search(h0: nat) returns (h: nat)
      requires SlowOk() && Known(h0) && m.lookahead >= 1 && m.strstart + MIN_LOOKAHEAD <= m.window.Length
      requires Ample(At())
      modifies this`matchLength, this`prevMatch, this`found, m`insH, m`ins, m`slots, m`skipped, m`prevLength, m`matchStart, m.head, m.prev
      ensures Searched() && Known(h) && Entered(|m.input|, old(m.ins), old(m.skipped), m.ins, m.skipped, At(), At() + 1)
    {
      hide Shows, ChainsOk, HashAt, Tells, Account, Wrote, Journal, Same, Rolled, Repeated, Matcher.WindowOk, Matcher.Hashed, Matcher.Newest,
        BitBuffer.Sent, TreeCoder.Valid, TreeCoder.Tallies, Told, Written, Current, Held, Short, Entered;
      assert m.window.Length <= 65536;
      ghost var end := if matchAvailable then At() - 1 else At();
      h := InsertKeeping(h0, end);
      ShortEntered(old(m.ins), old(m.skipped), At(), At(), At() + 1);
      FindKeeping(h, end);
    }

    /** The input is known far enough ahead of a position, or ends at one of the places where a call has come to its end. */
    ghost predicate Ample(p: int)
      reads `ends, m`input
    {
      p + MIN_LOOKAHEAD <= |m.input| || |m.input| in ends
    }

    /** What is skipped is incomplete. */
    lemma ShortEntered(inserted: set<nat>, before: map<nat, nat>, p: nat, from: nat, to: nat)
      requires Short(before, ends) && Entered(|m.input|, inserted, before, m.ins, m.skipped, from, to)
      requires Ample(p) && p <= from <= to <= |m.input| && to <= p + MAX_MATCH
      ensures Short(m.skipped, ends)
    {
      if p + MIN_LOOKAHEAD <= |m.input| {
        EnterAll(from, to, |m.input|);
      }
    }

    /** The previous match is at least as good: it is adopted. */
    method AdoptPrevious(h0: nat) returns (h: nat, out: bool)
      requires Searched() && Known(h0) && !ended && m.prevLength >= MIN_MATCH && matchLength <= m.prevLength
      modifies this`matchLength, this`matchAvailable, this`blocks, this`done, this`picks, this`ended, this`availOut, this`flushed,
        m`insH, m`ins, m`slots, m`skipped, m`strstart, m`lookahead, m`prevLength, m`blockStart, m.head, m.prev,
        c`lastLit, c`matches, c`optLen, c`staticLen, c`lastEobLen, c.b, c.Work()
      ensures SlowOk() && !ended && Known(h) && m.lookahead < old(m.lookahead)
      ensures Entered(|m.input|, old(m.ins), old(m.skipped), m.ins, m.skipped, old(At()) + 1, At()) && old(At()) < At() <= old(At()) + MAX_MATCH - 1
      ensures Divided(old(done), done, c.litBufsize - 1)
    {
      hide Ample, Divided, Ripe, Deflater.Apart, Open, SlowOk, Matcher.Valid, Matcher.Sizes, TreeCoder.Valid, Told, Written, Held, Prior, Known, Short, Entered;
      OpenSizes();
      RipeFacts();
      h, out := EmitPrevious(h0);
      FlushPast(out);
    }

    /** FLUSH_BLOCK if the buffer of tokens is full, when nothing is pending. */
    method FlushPast(full: bool)
      requires Apart() && c.Valid() && c.level > 0 && c.litBufsize > 1 && (full <==> !Open())
      requires m.Valid() && m.strstart < m.window.Length && Told(At()) && Written() && !ended
      requires !matchAvailable && matchLength == MIN_MATCH - 1 && lazy && Short(m.skipped, ends)
      modifies this`blocks, this`done, this`picks, this`ended, this`availOut, this`flushed, m`blockStart, c`lastLit, c`matches, c`optLen, c`staticLen, c`lastEobLen, c.b, c.Work()
      ensures SlowOk() && !ended
      ensures Divided(old(done), done, c.litBufsize - 1)
    {
      hide Divided, Open, Matcher.Valid, Matcher.Sizes, TreeCoder.Valid, Told, Written, Held, Prior, Short;
      FlushIf(full);
    }

    /** There is no better previous match, but a pending byte: it is sent as a literal. */
    method AdoptLiteral()
      requires Searched() && !ended && !(m.prevLength >= MIN_MATCH && matchLength <= m.prevLength) && matchAvailable
      modifies this`last, this`blocks, this`done, this`picks, this`ended, this`availOut, this`flushed, m`strstart, m`lookahead, m`blockStart,
        c`lastLit, c`matches, c`optLen, c`staticLen, c`lastEobLen, c.b, c.Work()
      ensures SlowOk() && !ended && m.lookahead < old(m.lookahead) && At() == old(At()) + 1
      ensures Divided(old(done), done, c.litBufsize - 1)
    {
      hide Divided, Ripe, Open, Matcher.Valid, Matcher.Sizes, TreeCoder.Valid, Told, Written, Held, Prior, SlowOk, Short;
      OpenSizes();
      RipeFacts();
      EmitLiteral();
      StepOn();
    }

    lemma RipeFacts()
      requires Ripe()
      ensures m.Sizes() && At() + m.lookahead == |m.input| && GoodTuning(Tune()) && Ample(At())
      ensures m.lookahead >= 1 && m.strstart + MIN_LOOKAHEAD <= m.window.Length && 1 <= m.prevLength <= MAX_MATCH && matchLength <= MAX_MATCH
    {
      hide Matcher.WindowOk, Matcher.Hashed, Matcher.Found, Justified, GoodTuning;
    }

    /** One byte forward; the search at the current string becomes the one at the pending byte. */
    method StepHeld()
      requires Ripe() && matchAvailable && 1 <= matchLength && !(m.prevLength >= MIN_MATCH && matchLength <= m.prevLength)
      modifies this`last, m`strstart, m`lookahead
      ensures m.Valid() && Pending() && m.strstart == old(m.strstart) + 1 && m.lookahead == old(m.lookahead) - 1
    {
      hide Same, Matcher.WindowOk, Matcher.Hashed, Matcher.Sizes, Matcher.Valid, Current, Held, Justified, GoodTuning;
      HeldNext();
      last := found;
      Step();
      HeldNow();
    }

    /** One byte forward, with what the encoder keeps: the byte is pending now. */
    method StepOn()
      requires Ripe() && matchAvailable && 1 <= matchLength && !(m.prevLength >= MIN_MATCH && matchLength <= m.prevLength)
      requires Open() && Written() && Told(At()) && lazy && Short(m.skipped, ends)
      modifies this`last, m`strstart, m`lookahead
      ensures SlowOk() && m.strstart == old(m.strstart) + 1 && m.lookahead == old(m.lookahead) - 1
    {
      hide Ripe, Open, Matcher.Valid, Matcher.Sizes, TreeCoder.Valid, Told, Written, Pending, Short;
      OpenSizes();
      RipeFacts();
      ghost var end := At();
      StepHeld();
      assert Told(end);
    }

    lemma HeldNow()
      requires GoodTuning(Tune()) && Justified(Tune(), last) && last.x <= m.input && last.at == At() - 1 && last.length == matchLength && Knows(Tune(), last, m.restart.at, ends)
      requires if matchLength < MIN_MATCH then last.before < MIN_MATCH else last.before < matchLength && last.start == m.base + m.matchStart
      ensures Held(matchLength, m.matchStart)
    {
      hide Justified, Knows;
    }

    /** The search at the current string becomes the one before it. */
    lemma HeldNext()
      requires Current() && !(m.prevLength >= MIN_MATCH && matchLength <= m.prevLength)
      ensures GoodTuning(Tune()) && Justified(Tune(), found) && found.x <= m.input && found.at == At() && found.length == matchLength && Knows(Tune(), found, m.restart.at, ends)
      ensures if matchLength < MIN_MATCH then found.before < MIN_MATCH else found.before < matchLength && found.start == m.base + m.matchStart
    {
      hide Justified, Knows;
    }

    /** Nothing is pending: the current byte is, from now on. */
    method Wait()
      requires Searched() && !(m.prevLength >= MIN_MATCH && matchLength <= m.prevLength) && !matchAvailable
      modifies this`last, this`matchAvailable, m`strstart, m`lookahead
      ensures SlowOk() && m.lookahead < old(m.lookahead) && At() == old(At()) + 1
    {
      hide Ripe, Open, Matcher.Valid, Matcher.Sizes, TreeCoder.Valid, Told, Written, Held, Prior, SlowOk, Short;
      OpenSizes();
      RipeFacts();
      matchAvailable := true;
      StepOn();
    }

    /** One round of the loop of deflate_slow; out says whether the routine looks at the room for output. */
    method SlowStep(h0: nat) returns (h: nat, out: bool)
      requires SlowOk() && !ended && Known(h0) && m.lookahead >= 1 && m.strstart + MIN_LOOKAHEAD <= m.window.Length
      requires Ample(At())
      modifies this, m, m.head, m.prev, c`lastLit, c`matches, c`optLen, c`staticLen, c`lastEobLen, c.b, c.Work()
      ensures SlowOk() && !ended && Known(h) && m.input == old(m.input) && m.lookahead < old(m.lookahead) && span == old(span)
      ensures Entered(|m.input|, old(m.ins), old(m.skipped), m.ins, m.skipped, old(At()), At()) && old(At()) < At() <= old(At()) + MAX_MATCH - 1
      ensures Divided(old(done), done, c.litBufsize - 1)
      ensures ends == old(ends)
    {
      hide Divided, SlowOk, Searched, TreeCoder.Work, Entered;
      DividedNone(done, c.litBufsize - 1);
      h := Search(h0);
      ghost var inserted, passed := m.ins, m.skipped;
      if m.prevLength >= MIN_MATCH && matchLength <= m.prevLength {
        h, out := AdoptPrevious(h);
        EnteredBoth(|m.input|, old(m.ins), old(m.skipped), inserted, passed, m.ins, m.skipped, old(At()), old(At()) + 1, At());
      } else if matchAvailable {
        AdoptLiteral();
        out := true;
      } else {
        Wait();
        out := false;
      }
    }

    /** The end of the input: the pending byte becomes a literal, and the rest of the tokens a block. */
    method SlowEnd(eof: bool)
      requires SlowOk() && !ended && m.lookahead == 0 && m.strstart < m.window.Length
      modifies this`matchAvailable, this`blocks, this`done, this`picks, this`ended, this`availOut, this`flushed, m`blockStart,
        c`lastLit, c`matches, c`optLen, c`staticLen, c`lastEobLen, c.b, c.Work()
      ensures SlowOk() && ended == eof && BlockAt() == |m.input| && (availOut > 0 ==> flushed == |c.b.pending|) && c.lastLit == 0 && !matchAvailable
      ensures |done| == |old(done)| + 1 && done[..|old(done)|] == old(done)
    {
      hide Matcher.Valid, Matcher.Sizes, TreeCoder.Valid, Told, Written, Held, Short, Repeated;
      if matchAvailable {
        TallyLast();
        matchAvailable := false;
      }
      FlushLast(eof);
    }

    /** FLUSH_BLOCK at the end of the input. */
    method FlushLast(eof: bool)
      requires Apart() && c.Valid() && c.level > 0 && c.litBufsize > 1 && m.Valid() && m.strstart < m.window.Length
      requires Told(At()) && Written() && !ended && !matchAvailable && 1 <= matchLength < MIN_MATCH && lazy && Short(m.skipped, ends)
      modifies this`blocks, this`done, this`picks, this`ended, this`availOut, this`flushed, m`blockStart,
        c`lastLit, c`matches, c`optLen, c`staticLen, c`lastEobLen, c.b, c.Work()
      ensures SlowOk() && ended == eof && m.blockStart == m.strstart && (availOut > 0 ==> flushed == |c.b.pending|) && c.lastLit == 0
      ensures done == old(done) + [old(picks)]
    {
      hide Matcher.Valid, Matcher.WindowOk, Matcher.Sizes, TreeCoder.Valid, Told, Written, Held, Prior, Short, Open;
      FlushBlock(eof);
    }

    /** Takes the pending byte at the end of the input as a literal. */
    method TallyLast()
      requires m.Sizes() && m.WindowOk() && m.Positioned() && Open() && Written() && Told(At() - 1) && Pending() && lazy
      requires matchAvailable && m.lookahead == 0 && m.strstart < m.window.Length
      modifies `picks, c`lastLit, c`matches, c.dBuf, c.lBuf, c.lFc, c.dFc
      ensures Apart() && c.Valid() && Told(At()) && Written()
    {
      hide KnowsBoth, Shows, TreeCoder.Valid, Fits, Justified, Held, Told, Written;
      var from := m.strstart - 1;
      m.WindowPart(from, m.strstart);
      LastByte(m.input, m.window[from], m.window[from..m.strstart], At());
      LastFits();
      var full := TallyLiteral(m.window[from], At() - 1, Lazy(last, None));
    }

    /** At the end of the input the pending byte is not the start of a match. */
    lemma LastFits()
      requires lazy && Pending() && matchAvailable && m.lookahead == 0 && 1 <= At() <= |m.input|
      ensures GoodTuning(Tune()) && Fits(Tune(), m.input, Lazy(last, None), Literal(m.input[At() - 1])) && last.at == At() - 1
      ensures KnowsBoth(Tune(), Lazy(last, None), m.restart.at, ends)
    {
      hide Justified, Knows;
    }

    /** The loop invariant across fill_window. */
    method SlowFill(nextIn: seq<byte>) returns (rest: seq<byte>)
      requires SlowOk() && m.lookahead < MIN_LOOKAHEAD
      modifies m`strstart, m`lookahead, m`matchStart, m`blockStart, m`base, m`input, m`adler, m`insH, m.window, m.head, m.prev
      ensures SlowOk() && BlockAt() == old(BlockAt()) && old(m.lookahead) <= m.lookahead
      ensures Consumed(nextIn, rest, old(m.input), m.input) && (m.lookahead >= MIN_LOOKAHEAD || rest == [])
      ensures m.strstart + MIN_LOOKAHEAD < m.window.Length && |rest| + m.lookahead == |nextIn| + old(m.lookahead)
    {
      hide Tells, Account, Wrote, Journal, Matcher.Valid, TreeCoder.Valid, TreeCoder.Tallies, BitBuffer.Sent, Told, Written, Repeated, Open, Justified, Short;
      ghost var x, p, start, n := m.input, At(), m.base + m.matchStart, matchLength;
      rest := Fill(nextIn, if matchAvailable then At() - 1 else At());
      assert x <= m.input;
      if matchLength >= MIN_MATCH {
        RepeatedMore(x, m.input, p - 1, start, n, m.MaxDist());
      }
    }

    /** One round of the loop of deflate_slow, with fill_window before it if there is little lookahead. */
    method SlowRound(nextIn: seq<byte>, flush: Flush, h0: nat) returns (rest: seq<byte>, h: nat, v: Verdict)
      requires SlowOk() && !ended && Known(h0)
      modifies this, m, m.window, m.head, m.prev, c`lastLit, c`matches, c`optLen, c`staticLen, c`lastEobLen, c.b, c.Work()
      ensures SlowOk() && !ended && Known(h) && Consumed(nextIn, rest, old(m.input), m.input)
      ensures span == old(span)
      ensures ends == old(ends) || (flush != NoFlush && rest == [] && ends == old(ends) + {|m.input|})
      ensures v == Again ==> |rest| + m.lookahead < |nextIn| + old(m.lookahead)
      ensures v == AtEnd ==> rest == [] && m.lookahead == 0 && m.strstart < m.window.Length && flush != NoFlush
      ensures v == Returns ==> availOut == 0 || (flush == NoFlush && rest == [])
      ensures Divided(old(done), done, c.litBufsize - 1)
    {
      hide Divided, SlowOk, FastOk, Consumed, Matcher.Sizes, Entered;
      DividedNone(done, c.litBufsize - 1);
      rest, h := nextIn, h0;
      SlowSizes();
      ConsumedNone(nextIn, m.input);
      if m.lookahead < MIN_LOOKAHEAD {
        rest := SlowFill(nextIn);
        if m.lookahead < MIN_LOOKAHEAD && flush == NoFlush {
          return rest, h, Returns;
        }
        if m.lookahead == 0 {
          return rest, h, AtEnd;
        }
        if m.lookahead < MIN_LOOKAHEAD {
          SlowNote();
        }
      }
      SlowSizes();
      var out: bool;
      h, out := SlowStep(h);
      v := Again;
      if out && availOut == 0 {
        v := Returns;
      }
    }

    /** deflate_slow, from any state it can be left in. It returns early only when there is no room for output left, or no
        more input to wait for. */
    method DeflateSlow(nextIn: seq<byte>, flush: Flush) returns (rest: seq<byte>, state: BlockState)
      requires SlowOk() && !ended
      modifies this, m, m.window, m.head, m.prev, c`lastLit, c`matches, c`optLen, c`staticLen, c`lastEobLen, c.b, c.Work()
      ensures SlowOk() && Consumed(nextIn, rest, old(m.input), m.input)
      ensures ended <==> state.FinishStarted? || state.FinishDone?
      ensures ended ==> flush == Finish
      ensures flush == Finish ==> !state.BlockDone?
      ensures state != NeedMore ==> rest == [] && BlockAt() == |m.input| && m.lookahead == 0
      ensures state.NeedMore? || state.FinishStarted? ==> availOut == 0 || (flush == NoFlush && rest == [])
      ensures state.BlockDone? || state.FinishDone? ==> availOut > 0 && flushed == |c.b.pending| && flush != NoFlush
      ensures span == old(span)
      ensures ends == old(ends) || (flush != NoFlush && rest == [] && ends == old(ends) + {|m.input|})
      ensures state != NeedMore ==> c.lastLit == 0
      ensures DividedButLast(old(done), done, c.litBufsize - 1)
    {
      hide DividedButLast, Divided, SlowOk, FastOk, Consumed, BlockAt, Known, TreeCoder.Work;
      NoHead();
      var hashHead: nat := NIL;
      rest := nextIn;
      ConsumedNone(nextIn, m.input);
      DividedNone(done, c.litBufsize - 1);
      while true
        invariant span == old(span) && Divided(old(done), done, c.litBufsize - 1)
        invariant ends == old(ends) || (flush != NoFlush && rest == [] && ends == old(ends) + {|m.input|})
        invariant SlowOk() && !ended && Known(hashHead) && Consumed(nextIn, rest, old(m.input), m.input)
        decreases |rest| + m.lookahead
      {
        ghost var last, x := rest, m.input;
        ghost var parts := done;
        var v: Verdict;
        rest, hashHead, v := SlowRound(rest, flush, hashHead);
        DividedMore(old(done), parts, done, c.litBufsize - 1);
        DividedLast(old(done), done, [], c.litBufsize - 1);
        ConsumedMore(nextIn, last, rest, old(m.input), x, m.input);
        ConsumedAll(last, rest, x, m.input);
        if v == Returns {
          return rest, NeedMore;
        }
        if v == AtEnd {
          break;
        }
      }
      ghost var parts := done;
      SlowEnd(flush == Finish);
      assert done == parts + [done[|parts|]];
      DividedLast(old(done), parts, done[|parts|], c.litBufsize - 1);
      if availOut == 0 {
        return rest, if flush == Finish then FinishStarted else NeedMore;
      }
      state := if flush == Finish then FinishDone else BlockDone;
    }

    /** Notes that the input of a call has come to its end. */
    ghost method SlowNote()
      requires SlowOk()
      modifies `ends
      ensures SlowOk() && ends == old(ends) + {|m.input|}
    {
      hide Account, Journal, Tells, Wrote, Matcher.Valid, TreeCoder.Valid, Prior, Justified, Knows, TreeCoder.Tallies, BitBuffer.Sent;
      var more := ends + {|m.input|};
      NoteMore(if matchAvailable then At() - 1 else At(), more);
      if matchAvailable {
        KnowsMore(Tune(), last, m.restart.at, ends, more);
      }
      ends := more;
    }

    ghost method FastNote()
      requires FastOk()
      modifies `ends
      ensures FastOk() && ends == old(ends) + {|m.input|}
    {
      hide Account, Journal, Tells, Wrote, Matcher.Valid, TreeCoder.Valid, TreeCoder.Tallies, BitBuffer.Sent;
      var more := ends + {|m.input|};
      NoteMore(At(), more);
      ends := more;
    }

    lemma NoteMore(end: int, more: set<nat>)
      requires Told(end) && Written() && ends <= more
      ensures Account(Tune(), m.input, m.restart.at, more, BlockAt(), c.Tallies(), picks, end)
      ensures Journal(Tune(), c.b.Sent(), m.restart.at, more, m.restart.blocks, m.restart.bytes, blocks, done, m.input, BlockAt(), ended)
    {
      hide Account, Journal, Tells, Wrote;
      AccountEnds(Tune(), m.input, m.restart.at, ends, more, BlockAt(), c.Tallies(), picks, end);
      JournalEnds(Tune(), c.b.Sent(), m.restart.at, ends, more, m.restart.blocks, m.restart.bytes, blocks, done, m.input, BlockAt(), ended);
    }

    lemma SlowSizes()
      requires SlowOk()
      ensures m.Sizes() && m.window.Length <= 65536 && m.strstart + m.lookahead <= m.window.Length && At() + m.lookahead == |m.input|
    {
    }

    // ---- deflate_fast

    /** What deflate_fast keeps: the tallied tokens stand for the input up to the current string. */
    ghost predicate FastOk()
      reads `matchLength, `blocks, `done, `picks, `ends, `ended, `availOut, `flushed, `span, m, m.window, m.head, m.prev, m.restart,
        c`lastLit, c`optLen, c`staticLen, c.b, c.Work(), c.Static()
    {
      m.Valid() && Open() && Written() && Told(At()) && matchLength < MIN_MATCH && m.prevLength == MIN_MATCH - 1 && !lazy
    }

    method FindFast(h: nat)
      requires Ample(At())
      requires m.Sizes() && m.WindowOk() && m.Positioned() && m.Hashed(m.strstart + 1) && Known(h) && !lazy && GoodTuning(Tune())
      requires m.lookahead >= MIN_MATCH ==> h == m.Newest(m.strstart)
      requires m.lookahead >= 1 && m.strstart + MIN_LOOKAHEAD <= m.window.Length && matchLength < MIN_MATCH && m.prevLength == MIN_MATCH - 1
      modifies this`matchLength, this`found, m`matchStart
      ensures matchLength <= MAX_MATCH && (matchLength >= MIN_MATCH ==> m.Found(m.matchStart, matchLength)) && Current()
    {
      hide Known, Promised, Justified, GoodTuning, Short, Matcher.WindowOk, Matcher.Positioned, Matcher.Hashed, Matcher.Newest, Matcher.Found;
      SizesAre();
      if h != NIL && Minus(m.strstart, h) <= m.MaxDist() {
        matchLength := SearchFrom(h, matchLength);
      }
      if Tried(h) {
        PromisedFound(h, matchLength);
      }
      found := Recorded(matchLength, matchLength);
      JustifiedIs(h, found);
    }

    /** Inserts all strings of a match but the first and moves past it. */
    method InsertAll(h0: nat) returns (h: nat)
      requires m.Sizes() && m.WindowOk() && m.Hashed(m.strstart + 1) && Known(h0) && matchLength >= MIN_MATCH
      requires m.base + m.strstart + matchLength + 3 <= |m.input| && m.strstart + matchLength <= m.window.Length
      modifies this`matchLength, m`insH, m`ins, m`slots, m`strstart, m.head, m.prev
      ensures m.WindowOk() && m.Hashed(m.strstart) && Known(h) && m.strstart == old(m.strstart) + old(matchLength) && matchLength == 0
      ensures Entered(|m.input|, old(m.ins), old(m.skipped), m.ins, m.skipped, old(At()) + 1, At())
    {
      hide Shows, ChainsOk, HashAt, Rolled, Matcher.WindowOk, Matcher.Newest, Entered, Recent, Covered;
      h := h0;
      matchLength := matchLength - 1;
      EnteredNone(|m.input|, m.ins, m.skipped, At() + 1);
      while true
        invariant m.WindowOk() && m.Hashed(m.strstart + 1) && Known(h) && Entered(|m.input|, old(m.ins), old(m.skipped), m.ins, m.skipped, old(At()) + 1, At() + 1)
        invariant 1 <= matchLength && m.strstart + matchLength + 1 == old(m.strstart) + old(matchLength)
        decreases matchLength
      {
        m.strstart := m.strstart + 1;
        EnteredNext(|m.input|, old(m.ins), old(m.skipped), m.ins, m.skipped, old(At()) + 1, At());
        h := m.InsertString(m.strstart);
        matchLength := matchLength - 1;
        if matchLength == 0 {
          break;
        }
      }
      m.strstart := m.strstart + 1;
    }

    /** Moves past a match: short ones go into the hash table, for others the hash is started anew. */
    method PassFast(h0: nat) returns (h: nat)
      requires m.Sizes() && m.WindowOk() && m.Positioned() && m.Hashed(m.strstart + 1) && Known(h0)
      requires MIN_MATCH <= matchLength <= m.lookahead && m.strstart + matchLength + 1 < m.window.Length
      modifies this`matchLength, m`insH, m`ins, m`slots, m`skipped, m`strstart, m`lookahead, m.head, m.prev
      ensures m.Valid() && Known(h) && m.strstart == old(m.strstart) + old(matchLength) && matchLength == 0
      ensures m.lookahead == old(m.lookahead) - old(matchLength)
      ensures if old(matchLength) <= maxLazy && old(m.lookahead) >= old(matchLength) + MIN_MATCH
        then Entered(|m.input|, old(m.ins), old(m.skipped), m.ins, m.skipped, old(At()) + 1, At())
        else m.ins == old(m.ins) && m.skipped == old(m.skipped) + m.Passed(old(At()) + 1, At())
    {
      hide Shows, ChainsOk, HashAt, Rolled, Matcher.WindowOk, Matcher.Passed, Entered, Covered, Recent;
      h := h0;
      m.lookahead := m.lookahead - matchLength;
      if matchLength <= maxLazy && m.lookahead >= MIN_MATCH {
        h := InsertAll(h);
      } else {
        ghost var p := m.strstart + 1;
        m.strstart := m.strstart + matchLength;
        matchLength := 0;
        m.StartHash();
        m.Skip(p, m.strstart);
      }
    }

    /** What has been found is taken at once. */
    lemma EagerFits()
      requires Current() && !lazy && m.prevLength == MIN_MATCH - 1 && 0 <= At() < |m.input|
      ensures if matchLength >= MIN_MATCH
        then Fits(Tune(), m.input, Eager(found), Match(matchLength, m.strstart - m.matchStart))
        else Fits(Tune(), m.input, Eager(found), Literal(m.input[At()]))
      ensures found.at == At() && KnowsBoth(Tune(), Eager(found), m.restart.at, ends)
    {
      hide Justified, Knows;
    }

    /** _tr_tally_dist for the match that has been found. */
    method TallyFound() returns (full: bool)
      requires Ripe() && MIN_MATCH <= matchLength && Open() && Told(At()) && Written() && !lazy && m.prevLength == MIN_MATCH - 1
      modifies `picks, c`lastLit, c`matches, c.dBuf, c.lBuf, c.lFc, c.dFc
      ensures Apart() && c.Valid() && Told(At() + matchLength) && Written() && (full <==> !Open()) && Ripe()
    {
      hide KnowsBoth, Same, Matcher.WindowOk, Matcher.Valid, Matcher.Hashed, TreeCoder.Valid, Told, Written, Current, Fits;
      EagerFits();
      full := TallyMatch(m.strstart - m.matchStart, matchLength, At(), Eager(found));
    }

    /** Takes the match that has been found. */
    method EmitMatch(h0: nat) returns (h: nat, full: bool)
      requires Ripe() && Known(h0) && MIN_MATCH <= matchLength && Open() && Told(At()) && Written() && !lazy && m.prevLength == MIN_MATCH - 1
      modifies this`matchLength, m`insH, m`ins, m`slots, m`skipped, m`strstart, m`lookahead, m.head, m.prev,
        `picks, c`lastLit, c`matches, c.dBuf, c.lBuf, c.lFc, c.dFc
      ensures m.Valid() && Apart() && c.Valid() && Told(At()) && Written() && Known(h) && (full <==> !Open())
      ensures matchLength == 0 && m.strstart < m.window.Length && m.lookahead < old(m.lookahead)
    {
      hide Ripe, Matcher.Valid, TreeCoder.Valid, Told, Written, Open, Known;
      ghost var end := At() + matchLength;
      RipeBounds();
      full := TallyFound();
      h := PassFound(h0, full, end);
    }

    /** PassFast, with the tokens that have been tallied. */
    method PassFound(h0: nat, ghost full: bool, ghost end: int) returns (h: nat)
      requires Ripe() && Known(h0) && MIN_MATCH <= matchLength <= m.lookahead && m.strstart + matchLength + 1 < m.window.Length
      requires Apart() && c.Valid() && Told(end) && Written() && (full <==> !Open()) && end == At() + matchLength
      modifies this`matchLength, m`insH, m`ins, m`slots, m`skipped, m`strstart, m`lookahead, m.head, m.prev
      ensures m.Valid() && Known(h) && m.strstart == old(m.strstart) + old(matchLength) && matchLength == 0
      ensures m.lookahead == old(m.lookahead) - old(matchLength)
      ensures Apart() && c.Valid() && Told(At()) && Written() && (full <==> !Open())
    {
      hide Matcher.WindowOk, Matcher.Valid, Matcher.Hashed, Matcher.Passed, Matcher.Found, Entered, TreeCoder.Valid, Told, Written, Current;
      h := PassFast(h0);
      assert Told(end);
    }

    lemma RipeBounds()
      requires Ripe() && MIN_MATCH <= matchLength && m.prevLength == MIN_MATCH - 1
      ensures matchLength <= m.lookahead && matchLength <= MAX_MATCH && m.strstart + MIN_LOOKAHEAD <= m.window.Length
    {
      hide Matcher.WindowOk, Matcher.Hashed, Repeated, Current;
    }

    /** Takes the current byte as a literal. */
    method EmitByte() returns (full: bool)
      requires Ripe() && Open() && Told(At()) && Written() && !lazy && m.prevLength == MIN_MATCH - 1 && matchLength < MIN_MATCH
      modifies m`strstart, m`lookahead, `picks, c`lastLit, c`matches, c.dBuf, c.lBuf, c.lFc, c.dFc
      ensures m.Valid() && Apart() && c.Valid() && Told(At()) && Written() && (full <==> !Open())
      ensures m.strstart == old(m.strstart) + 1 && m.lookahead == old(m.lookahead) - 1
    {
      hide KnowsBoth, Shows, ChainsOk, HashAt, Tells, Account, Wrote, Journal, Same, Rolled, Candidate, Matcher.Hashed, BitBuffer.Sent, TreeCoder.Valid, TreeCoder.Tallies,
        Matcher.WindowOk, Told, Written, Current, Fits;
      m.WindowPart(m.strstart, m.strstart + 1);
      LastByte(m.input, m.window[m.strstart], m.window[m.strstart..m.strstart + 1], At() + 1);
      EagerFits();
      full := TallyLiteral(m.window[m.strstart], At(), Eager(found));
      Step();
    }

    /** The state after the search for a match. */
    ghost predicate Ready()
      reads `matchLength, `blocks, `done, `picks, `last, `found, `ends, `ended, `availOut, `flushed, `span, m, m.window, m.head, m.prev, m.restart, c`lastLit, c`optLen, c`staticLen, c.b, c.Work(), c.Static()
    {
      Ripe() && Open() && Written() && Told(At()) && m.prevLength == MIN_MATCH - 1 && !lazy
    }

    /** FLUSH_BLOCK if the buffer of tokens is full, after a token of deflate_fast. */
    method FlushFast(full: bool)
      requires Apart() && c.Valid() && c.level > 0 && c.litBufsize > 1 && (full <==> !Open())
      requires m.Valid() && m.strstart < m.window.Length && Told(At()) && Written() && !ended
      requires matchLength < MIN_MATCH && m.prevLength == MIN_MATCH - 1 && !lazy
      modifies this`blocks, this`done, this`picks, this`ended, this`availOut, this`flushed, m`blockStart, c`lastLit, c`matches, c`optLen, c`staticLen, c`lastEobLen, c.b, c.Work()
      ensures FastOk() && !ended && Divided(old(done), done, c.litBufsize - 1)
    {
      hide Open, Matcher.Valid, Matcher.Sizes, TreeCoder.Valid, Told, Written, Divided;
      FlushIf(full);
    }

    method FastSearch(h0: nat) returns (h: nat)
      requires FastOk() && Known(h0) && m.lookahead >= 1 && m.strstart + MIN_LOOKAHEAD <= m.window.Length
      requires Ample(At())
      modifies this`matchLength, this`found, m`insH, m`ins, m`slots, m`skipped, m`matchStart, m.head, m.prev
      ensures Ready() && Known(h) && Entered(|m.input|, old(m.ins), old(m.skipped), m.ins, m.skipped, At(), At() + 1)
    {
      hide Current, Matcher.Newest, Entered, Shows, ChainsOk, HashAt, Tells, Account, Wrote, Journal, Same, Rolled, Candidate, Repeated, Matcher.WindowOk, Matcher.Hashed,
        BitBuffer.Sent, TreeCoder.Valid, TreeCoder.Tallies, Told, Written;
      assert m.window.Length <= 65536;
      h := InsertKeeping(h0, At());
      Tuned(At());
      FindFast(h);
    }

    method FastMatch(h0: nat) returns (h: nat, out: bool)
      requires Ready() && Known(h0) && !ended && matchLength >= MIN_MATCH
      modifies this`matchLength, this`blocks, this`done, this`picks, this`ended, this`availOut, this`flushed,
        m`insH, m`ins, m`slots, m`skipped, m`strstart, m`lookahead, m`blockStart, m.head, m.prev,
        c`lastLit, c`matches, c`optLen, c`staticLen, c`lastEobLen, c.b, c.Work()
      ensures FastOk() && !ended && Known(h) && m.lookahead < old(m.lookahead)
      ensures Divided(old(done), done, c.litBufsize - 1)
    {
      hide Divided, Ripe, Deflater.Apart, FastOk, Open, Matcher.Valid, Matcher.Sizes, TreeCoder.Valid, Told, Written, Known;
      OpenSizes();
      h, out := EmitMatch(h0);
      FlushFast(out);
    }

    method FastLiteral() returns (out: bool)
      requires Ready() && !ended && matchLength < MIN_MATCH
      modifies this`blocks, this`done, this`picks, this`ended, this`availOut, this`flushed, m`strstart, m`lookahead, m`blockStart,
        c`lastLit, c`matches, c`optLen, c`staticLen, c`lastEobLen, c.b, c.Work()
      ensures FastOk() && !ended && m.lookahead < old(m.lookahead)
      ensures Divided(old(done), done, c.litBufsize - 1)
    {
      hide Divided, Ripe, Deflater.Apart, FastOk, Open, Matcher.Valid, Matcher.Sizes, TreeCoder.Valid, Told, Written, Known;
      OpenSizes();
      RipeFacts();
      out := EmitByte();
      FlushFast(out);
    }

    /** One round of the loop of deflate_fast. */
    method FastStep(h0: nat) returns (h: nat, out: bool)
      requires FastOk() && !ended && Known(h0) && m.lookahead >= 1 && m.strstart + MIN_LOOKAHEAD <= m.window.Length
      requires Ample(At())
      modifies this, m, m.head, m.prev, c`lastLit, c`matches, c`optLen, c`staticLen, c`lastEobLen, c.b, c.Work()
      ensures FastOk() && !ended && Known(h) && m.input == old(m.input) && m.lookahead < old(m.lookahead) && span == old(span)
      ensures Divided(old(done), done, c.litBufsize - 1)
      ensures ends == old(ends)
    {
      hide Divided, FastOk, Ready, TreeCoder.Work;
      DividedNone(done, c.litBufsize - 1);
      h := FastSearch(h0);
      if matchLength >= MIN_MATCH {
        h, out := FastMatch(h);
      } else {
        out := FastLiteral();
      }
    }

    method FastFill(nextIn: seq<byte>) returns (rest: seq<byte>)
      requires FastOk() && m.lookahead < MIN_LOOKAHEAD
      modifies m`strstart, m`lookahead, m`matchStart, m`blockStart, m`base, m`input, m`adler, m`insH, m.window, m.head, m.prev
      ensures FastOk() && BlockAt() == old(BlockAt()) && old(m.lookahead) <= m.lookahead
      ensures Consumed(nextIn, rest, old(m.input), m.input) && (m.lookahead >= MIN_LOOKAHEAD || rest == [])
      ensures m.strstart + MIN_LOOKAHEAD < m.window.Length && |rest| + m.lookahead == |nextIn| + old(m.lookahead)
    {
      hide Tells, Account, Wrote, Journal, Matcher.Valid, TreeCoder.Valid, TreeCoder.Tallies, BitBuffer.Sent, Told, Written, Open;
      rest := Fill(nextIn, At());
    }

    method FastEnd(eof: bool)
      requires FastOk() && !ended && m.lookahead == 0 && m.strstart < m.window.Length
      modifies this`blocks, this`done, this`picks, this`ended, this`availOut, this`flushed, m`blockStart, c`lastLit, c`matches, c`optLen, c`staticLen, c`lastEobLen, c.b, c.Work()
      ensures FastOk() && ended == eof && BlockAt() == |m.input| && (availOut > 0 ==> flushed == |c.b.pending|) && c.lastLit == 0
      ensures |done| == |old(done)| + 1 && done[..|old(done)|] == old(done)
    {
      hide Shows, ChainsOk, HashAt, Tells, Account, Wrote, Journal, Same, Rolled, Candidate, Repeated, Matcher.WindowOk, Matcher.Hashed, Matcher.Sizes,
        BitBuffer.Sent, TreeCoder.Valid, TreeCoder.Tallies;
      FlushBlock(eof);
    }

    /** One round of the loop of deflate_fast, with fill_window before it if there is little lookahead. */
    method FastRound(nextIn: seq<byte>, flush: Flush, h0: nat) returns (rest: seq<byte>, h: nat, v: Verdict)
      requires FastOk() && !ended && Known(h0)
      modifies this, m, m.window, m.head, m.prev, c`lastLit, c`matches, c`optLen, c`staticLen, c`lastEobLen, c.b, c.Work()
      ensures FastOk() && !ended && Known(h) && Consumed(nextIn, rest, old(m.input), m.input)
      ensures ends == old(ends) || (flush != NoFlush && rest == [] && ends == old(ends) + {|m.input|})
      ensures span == old(span)
      ensures v == Again ==> |rest| + m.lookahead < |nextIn| + old(m.lookahead)
      ensures v == AtEnd ==> rest == [] && m.lookahead == 0 && m.strstart < m.window.Length && flush != NoFlush
      ensures v == Returns ==> availOut == 0 || (flush == NoFlush && rest == [])
      ensures Divided(old(done), done, c.litBufsize - 1)
    {
      hide Divided, SlowOk, FastOk, Consumed, Matcher.Sizes;
      DividedNone(done, c.litBufsize - 1);
      rest, h := nextIn, h0;
      FastSizes();
      ConsumedNone(nextIn, m.input);
      if m.lookahead < MIN_LOOKAHEAD {
        rest := FastFill(nextIn);
        if m.lookahead < MIN_LOOKAHEAD && flush == NoFlush {
          return rest, h, Returns;
        }
        if m.lookahead == 0 {
          return rest, h, AtEnd;
        }
        if m.lookahead < MIN_LOOKAHEAD {
          FastNote();
        }
      }
      FastSizes();
      var out: bool;
      h, out := FastStep(h);
      v := Again;
      if out && availOut == 0 {
        v := Returns;
      }
    }

    /** deflate_fast, from any state it can be left in. It returns early only when there is no room for output left, or no
        more input to wait for. */
    method DeflateFast(nextIn: seq<byte>, flush: Flush) returns (rest: seq<byte>, state: BlockState)
      requires FastOk() && !ended
      modifies this, m, m.window, m.head, m.prev, c`lastLit, c`matches, c`optLen, c`staticLen, c`lastEobLen, c.b, c.Work()
      ensures FastOk() && Consumed(nextIn, rest, old(m.input), m.input)
      ensures ended <==> state.FinishStarted? || state.FinishDone?
      ensures ended ==> flush == Finish
      ensures flush == Finish ==> !state.BlockDone?
      ensures state != NeedMore ==> rest == [] && BlockAt() == |m.input| && m.lookahead == 0
      ensures state.NeedMore? || state.FinishStarted? ==> availOut == 0 || (flush == NoFlush && rest == [])
      ensures state.BlockDone? || state.FinishDone? ==> availOut > 0 && flushed == |c.b.pending| && flush != NoFlush
      ensures ends == old(ends) || (flush != NoFlush && rest == [] && ends == old(ends) + {|m.input|})
      ensures span == old(span)
      ensures state != NeedMore ==> c.lastLit == 0
      ensures DividedButLast(old(done), done, c.litBufsize - 1)
    {
      hide DividedButLast, Divided, SlowOk, FastOk, Consumed, BlockAt, Known, TreeCoder.Work;
      NoHead();
      var hashHead: nat := NIL;
      rest := nextIn;
      ConsumedNone(nextIn, m.input);
      DividedNone(done, c.litBufsize - 1);
      while true
        invariant span == old(span) && Divided(old(done), done, c.litBufsize - 1)
        invariant ends == old(ends) || (flush != NoFlush && rest == [] && ends == old(ends) + {|m.input|})
        invariant FastOk() && !ended && Known(hashHead) && Consumed(nextIn, rest, old(m.input), m.input)
        decreases |rest| + m.lookahead
      {
        ghost var last, x := rest, m.input;
        ghost var parts := done;
        var v: Verdict;
        rest, hashHead, v := FastRound(rest, flush, hashHead);
        DividedMore(old(done), parts, done, c.litBufsize - 1);
        DividedLast(old(done), done, [], c.litBufsize - 1);
        ConsumedMore(nextIn, last, rest, old(m.input), x, m.input);
        ConsumedAll(last, rest, x, m.input);
        if v == Returns {
          return rest, NeedMore;
        }
        if v == AtEnd {
          break;
        }
      }
      ghost var parts := done;
      FastEnd(flush == Finish);
      assert done == parts + [done[|parts|]];
      DividedLast(old(done), parts, done[|parts|], c.litBufsize - 1);
      if availOut == 0 {
        return rest, if flush == Finish then FinishStarted else NeedMore;
      }
      state := if flush == Finish then FinishDone else BlockDone;
    }

    lemma FastSizes()
      requires FastOk()
      ensures m.Sizes() && m.window.Length <= 65536 && m.strstart + m.lookahead <= m.window.Length && At() + m.lookahead == |m.input|
    {
    }

    // ---- empty blocks between flushes

    /** An empty block stands for no input. */
    ghost predicate Empty(blk: Block) { blk == FixedBlock([]) || blk == StoredBlock([]) }

    /** Records an empty block that has just been written. */
    ghost method Record(blk: Block, sent: seq<bool>)
      requires Wrote(sent, origin, blocks, m.input, BlockAt(), false, m.MaxDist()) && !ended && Empty(blk) && GoodBlock([], blk)
      requires GoodTuning(Tune()) && Logged(sent, blocks, done, BlockAt(), false)
      modifies `blocks, `done
      ensures Wrote(sent + BlockBits([], blk, false, |sent|), origin, blocks, m.input, BlockAt(), false, m.MaxDist())
      ensures Logged(sent + BlockBits([], blk, false, |sent|), blocks, done, BlockAt(), false)
      ensures blocks == old(blocks) + [blk]
    {
      hide GoodBlocks, BlocksBits, BlocksOut, Journal, Account;
      var h := m.input[..BlockAt()];
      EmptyBlock(h, blk, |sent|);
      WroteBlock(sent, origin, blocks, m.input, BlockAt(), blk, BlockAt(), false, m.MaxDist());
      JournalAt(Tune(), sent, m.restart.at, ends, m.restart.blocks, m.restart.bytes, blocks, done, m.input, BlockAt(), false);
      AccountNothing(Tune(), m.input, m.restart.at, ends, BlockAt());
      JournalBlock(Tune(), sent, origin, m.restart.at, ends, m.restart.blocks, m.restart.bytes, blocks, done, m.input, BlockAt(), [], [], BlockAt(), blk, false);
      blocks, done := blocks + [blk], done + [[]];
    }

    /** The marker of a partial flush. */
    method Align()
      requires Open() && Written() && !ended
      modifies `blocks, `done, c`lastEobLen, c.b
      ensures Open() && Written() && !ended
      ensures Marked(Markers(old(c.lastEobLen), |old(c.b.Sent())|), old(blocks), blocks)
    {
      hide GoodBlocks, GoodBlock, BlocksBits, BlocksOut, BlockBits, Wrote, Journal, TreeCoder.Valid, BitBuffer.Sent;
      ghost var sent := c.b.Sent();
      ghost var n := c.Align();
      EmptyBlock([], FixedBlock([]), |sent|);
      Record(FixedBlock([]), sent);
      if n == 2 {
        ghost var more := sent + BlockBits([], FixedBlock([]), false, 0);
        EmptyBlock([], FixedBlock([]), |more|);
        Record(FixedBlock([]), more);
      }
    }

    /** The marker of the other flushes. */
    method EmptyStored()
      requires Open() && Written() && !ended
      modifies `blocks, `done, c`lastEobLen, c.b
      ensures Open() && Written() && !ended && c.b.biValid == 0 && blocks == old(blocks) + [StoredBlock([])]
    {
      hide GoodBlocks, GoodBlock, BlocksBits, BlocksOut, BlockBits, Wrote, Journal, TreeCoder.Valid, BitBuffer.Sent;
      ghost var sent := c.b.Sent();
      c.EmptyStored();
      Record(StoredBlock([]), sent);
    }

    /** The marker after a flush: one or two empty static blocks, or, for none of them, an empty stored block. */
    ghost predicate Marked(n: nat, before: seq<Block>, after: seq<Block>) {
      after == before + if n == 0 then [StoredBlock([])] else if n == 1 then [FixedBlock([])] else [FixedBlock([]), FixedBlock([])]
    }

    /** What deflate writes after a flush; after a full flush the history is forgotten: the restart is here. */
    method Flushed(flush: Flush)
      requires (SlowOk() || FastOk()) && !ended && c.lastLit == 0 && BlockAt() == |m.input|
      modifies `blocks, `done, m`ins, m`slots, m`skipped, m.head, m.restart, c`lastEobLen, c.b
      ensures (old(SlowOk()) ==> SlowOk()) && (old(FastOk()) ==> FastOk()) && !ended
      ensures Marked(if flush == PartialFlush then Markers(old(c.lastEobLen), |old(c.b.Sent())|) else 0, old(blocks), blocks)
      ensures flush != PartialFlush ==> c.b.biValid == 0
      ensures if flush == FullFlush then AtRestart() && m.ins == {} && m.skipped == map[]
        else unchanged(m.restart) && m.ins == old(m.ins) && m.skipped == old(m.skipped)
    {
      hide SlowOk, FastOk;
      Mark(flush == PartialFlush);
      if flush == FullFlush {
        Forget();
      }
    }

    /** The restart is after all of the input and all that has been written. */
    ghost predicate AtRestart()
      reads `blocks, m`input, m.restart, c.b`pending
    {
      m.restart.at == |m.input| && m.restart.blocks == |blocks| && m.restart.bytes == |c.b.pending|
    }

    method Mark(partial: bool)
      requires (SlowOk() || FastOk()) && !ended
      modifies `blocks, `done, c`lastEobLen, c.b
      ensures (old(SlowOk()) ==> SlowOk()) && (old(FastOk()) ==> FastOk()) && !ended
      ensures Marked(if partial then Markers(old(c.lastEobLen), |old(c.b.Sent())|) else 0, old(blocks), blocks)
      ensures !partial ==> c.b.biValid == 0
    {
      hide Wrote, Tells, Prior, TreeCoder.Valid, TreeCoder.Tallies, BitBuffer.Sent, Matcher.Valid, Account, Journal, Held, Short;
      if partial {
        Align();
      } else {
        EmptyStored();
      }
    }

    /** Nothing is tallied, so the current string is at the end of the input. */
    lemma NothingTold()
      requires (SlowOk() || FastOk()) && c.lastLit == 0 && BlockAt() == |m.input|
      ensures c.Sizes() && c.Tallies() == [] && picks == [] && At() == |m.input| && Told(At()) && (SlowOk() ==> !matchAvailable)
      ensures m.Valid() && Open() && Written()
    {
      hide Wrote, Prior, TreeCoder.Valid, BitBuffer.Sent, Matcher.Hashed, Matcher.WindowOk, Journal, Held, Fits;
    }

    lemma ByteBits()
      requires c.b.biValid == 0
      ensures |c.b.Sent()| == 8 * |c.b.pending|
    {
    }

    method Forget()
      requires (SlowOk() || FastOk()) && !ended && c.lastLit == 0 && BlockAt() == |m.input| && c.b.biValid == 0
      modifies m`ins, m`slots, m`skipped, m.head, m.restart
      ensures (old(SlowOk()) ==> SlowOk()) && (old(FastOk()) ==> FastOk()) && AtRestart() && m.ins == {} && m.skipped == map[]
    {
      hide Told, Written, Open, Prior, Matcher.Valid, Held;
      NothingTold();
      StartAgain();
    }

    /** CLEAR_HASH between blocks, with what the encoder keeps. */
    method StartAgain()
      requires m.Valid() && Open() && Written() && Told(At()) && c.Sizes() && c.lastLit == 0 && c.Tallies() == [] && picks == []
      requires !ended && BlockAt() == At() == |m.input| && c.b.biValid == 0
      modifies m`ins, m`slots, m`skipped, m.head, m.restart
      ensures m.Valid() && Open() && Written() && Told(At()) && AtRestart() && m.ins == {} && m.skipped == map[]
    {
      hide Wrote, Tells, TreeCoder.Valid, TreeCoder.Tallies, BitBuffer.Sent, Matcher.Valid, Account, Journal;
      ghost var bits := c.b.Sent();
      ByteBits();
      JournalAt(Tune(), bits, m.restart.at, ends, m.restart.blocks, m.restart.bytes, blocks, done, m.input, BlockAt(), false);
      m.ClearHash();
      JournalCut(Tune(), bits, ends, |c.b.pending|, blocks, done, m.input, BlockAt());
      AccountNothing(Tune(), m.input, m.restart.at, ends, BlockAt());
      m.restart.blocks, m.restart.bytes := |blocks|, |c.b.pending|;
    }

    lemma Facts()
      requires SlowOk() || FastOk()
      ensures Written() && m.WindowOk() && Flow()
    {
    }
  }

  /** An empty block is the same wherever it stands. */
  lemma EmptyBlock(h: seq<byte>, blk: Block, p: nat)
    requires blk == FixedBlock([]) || blk == StoredBlock([])
    requires GoodBlock([], blk)
    ensures GoodBlock(h, blk) && BlockOut(h, blk) == h && BlockBits(h, blk, false, p) == BlockBits([], blk, false, p)
    ensures blk == FixedBlock([]) ==> BlockBits([], blk, false, p) == BlockBits([], blk, false, 0)
  {
    assert h + [] == h;
  }

  lemma ConsumedNone(all: seq<byte>, x: seq<byte>)
    ensures Consumed(all, all, x, x)
  {
  }

  lemma ConsumedAll(all: seq<byte>, rest: seq<byte>, x: seq<byte>, y: seq<byte>)
    requires Consumed(all, rest, x, y)
    ensures all == [] ==> rest == [] && y == x
  {
  }

  lemma ConsumedMore(all: seq<byte>, last: seq<byte>, rest: seq<byte>, x: seq<byte>, y: seq<byte>, z: seq<byte>)
    requires Consumed(all, last, x, y) && Consumed(last, rest, y, z)
    ensures Consumed(all, rest, x, z)
  {
    assert all[..|all| - |last|] + last[..|last| - |rest|] == all[..|all| - |rest|];
  }

  lemma LastByte(x: seq<byte>, b: byte, part: seq<byte>, end: int)
    requires 1 <= end <= |x| && part == [b] && x[..end - 1] + part == x[..end]
    ensures x[end - 1] == b
  {
    assert x[..end][end - 1] == b;
  }

  lemma StandsTokens(blk: Block, buf: Option<seq<byte>>, ts: seq<Token>, level: nat)
    requires Stands(blk, buf, ts, level)
    ensures blk.StoredBlock? || blk.tokens == ts
  {
  }

  lemma StandsNear(blk: Block, buf: Option<seq<byte>>, ts: seq<Token>, level: nat, far: int)
    requires Stands(blk, buf, ts, level) && Near(ts, far)
    ensures NearBlock(blk, far)
  {
  }

  lemma TellsFacts(x: seq<byte>, b: int, ts: seq<Token>, end: int, far: int)
    requires Tells(x, b, ts, end, far)
    ensures 0 <= b <= end <= |x| && ValidTokens(x[..b], ts) && Expand(x[..b], ts) == x[..end] && Near(ts, far)
  {
  }

  lemma WroteFacts(bits: seq<bool>, origin: seq<bool>, blocks: seq<Block>, x: seq<byte>, b: int, ended: bool, far: int)
    requires Wrote(bits, origin, blocks, x, b, ended, far)
    ensures 0 <= b <= |x|
  {
  }
}
