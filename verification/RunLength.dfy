/** The run-length code of the code lengths (section 3.2.7 of RFC 1951): scan_tree and send_tree of trees.c. */
module RunLength {
  import opened Bits
  import opened Canonical
  import opened BitWriter
  import opened Machine

  const GUARD: nat := 65535

  /** A code length symbol; count is the number of lengths that symbols 16, 17 and 18 stand for. */
  datatype RunSym = RunSym(sym: nat, count: nat)

  predicate ValidSym(r: RunSym) {
    r.sym <= 18 &&
    (r.sym == 16 ==> 3 <= r.count <= 6) && (r.sym == 17 ==> 3 <= r.count <= 10) && (r.sym == 18 ==> 11 <= r.count <= 138)
  }

  function Limit(prev: int, len: nat): nat { if len == 0 then 138 else if prev == len then 6 else 7 }
  function Least(prev: int, len: nat): nat { if len == 0 || prev == len then 3 else 4 }

  function Plain(len: nat, count: nat): (r: seq<RunSym>)
    ensures |r| == count
  {
    if count == 0 then [] else Plain(len, count - 1) + [RunSym(len, 1)]
  }

  /** The symbols for a finished run of count lengths after a run of prev. */
  function RunSyms(len: nat, count: nat, prev: int): seq<RunSym> {
    if count < Least(prev, len) then Plain(len, count)
    else if len != 0 then
      if len != prev then [RunSym(len, 1), RunSym(16, count - 1)] else [RunSym(16, count)]
    else if count <= 10 then [RunSym(17, count)]
    else [RunSym(18, count)]
  }

  /** The length after position n, or the guard. */
  function After(lens: seq<nat>, n: nat): nat
    requires n < |lens|
  {
    if n + 1 < |lens| then lens[n + 1] else GUARD
  }

  /** Whether the run that has count lengths with position n ends there. */
  predicate Ends(lens: seq<nat>, n: nat, count: nat, prev: int)
    requires n < |lens|
  {
    count >= Limit(prev, lens[n]) || lens[n] != After(lens, n)
  }

  /** The symbols sent for lens[n..] when count lengths before n belong to a run not sent yet. */
  function Syms(lens: seq<nat>, n: nat, count: nat, prev: int): seq<RunSym>
    decreases |lens| - n
  {
    if n >= |lens| then []
    else if Ends(lens, n, count + 1, prev) then RunSyms(lens[n], count + 1, prev) + Syms(lens, n + 1, 0, lens[n])
    else Syms(lens, n + 1, count + 1, prev)
  }

  function AllSyms(lens: seq<nat>): seq<RunSym> { Syms(lens, 0, 0, -1) }

  // ---- expansion gives the lengths back

  function ExpandSym(done: seq<nat>, r: RunSym): seq<nat> {
    if r.sym < 16 then done + [r.sym]
    else done + Repeat(if r.sym == 16 && |done| > 0 then done[|done| - 1] else 0, r.count)
  }

  function ExpandSyms(done: seq<nat>, rs: seq<RunSym>): seq<nat>
    decreases |rs|
  {
    if |rs| == 0 then done else ExpandSyms(ExpandSym(done, rs[0]), rs[1..])
  }

  /** Every repetition of symbol 16 has something to repeat. */
  predicate Repeats(done: seq<nat>, rs: seq<RunSym>)
    decreases |rs|
  {
    |rs| == 0 || (ValidSym(rs[0]) && (rs[0].sym == 16 ==> |done| > 0) && Repeats(ExpandSym(done, rs[0]), rs[1..]))
  }

  lemma {:induction false} ExpandConcat(done: seq<nat>, x: seq<RunSym>, y: seq<RunSym>)
    ensures ExpandSyms(done, x + y) == ExpandSyms(ExpandSyms(done, x), y)
    ensures Repeats(done, x + y) <==> Repeats(done, x) && Repeats(ExpandSyms(done, x), y)
    decreases |x|
  {
    if |x| == 0 {
      assert x + y == y;
    } else {
      assert (x + y)[1..] == x[1..] + y;
      ExpandConcat(ExpandSym(done, x[0]), x[1..], y);
    }
  }

  lemma {:induction false} PlainExpands(done: seq<nat>, len: nat, count: nat)
    requires len < 16
    ensures ExpandSyms(done, Plain(len, count)) == done + Repeat(len, count) && Repeats(done, Plain(len, count))
    decreases count
  {
    if count == 0 {
      assert done + Repeat(len, 0) == done;
    } else {
      PlainExpands(done, len, count - 1);
      ExpandConcat(done, Plain(len, count - 1), [RunSym(len, 1)]);
      var d := done + Repeat(len, count - 1);
      assert [RunSym(len, 1)][1..] == [];
      assert ExpandSyms(d, [RunSym(len, 1)]) == ExpandSyms(d + [len], []);
      assert d + [len] == done + Repeat(len, count);
    }
  }

  lemma ExpandNone(done: seq<nat>)
    ensures ExpandSyms(done, []) == done && Repeats(done, [])
  {
  }

  lemma ExpandOne(done: seq<nat>, r: RunSym)
    ensures ExpandSyms(done, [r]) == ExpandSym(done, r)
    ensures Repeats(done, [r]) <==> ValidSym(r) && (r.sym == 16 ==> |done| > 0)
  {
    assert [r][1..] == [];
    assert ExpandSyms(ExpandSym(done, r), []) == ExpandSym(done, r);
  }

  /** The symbols of one run expand to the run, after anything that ends in prev, if prev is a length. */
  lemma RunExpands(done: seq<nat>, len: nat, count: nat, prev: int)
    requires len < 16 && 1 <= count <= Limit(prev, len)
    requires prev == -1 || (|done| > 0 && prev == done[|done| - 1])
    ensures ExpandSyms(done, RunSyms(len, count, prev)) == done + Repeat(len, count)
    ensures Repeats(done, RunSyms(len, count, prev))
  {
    hide ExpandSyms, Repeats, Plain;
    var rs := RunSyms(len, count, prev);
    if count < Least(prev, len) {
      PlainExpands(done, len, count);
    } else if len != 0 && len != prev {
      var x, y := RunSym(len, 1), RunSym(16, count - 1);
      assert rs == [x] + [y];
      ExpandConcat(done, [x], [y]);
      ExpandOne(done, x);
      ExpandOne(done + [len], y);
      assert done + [len] + Repeat(len, count - 1) == done + Repeat(len, count);
    } else {
      ExpandOne(done, rs[0]);
      assert rs == [rs[0]];
    }
  }

  /** Positions n - count up to n hold one run, which started after a run of prev. */
  ghost predicate InRun(lens: seq<nat>, n: nat, count: nat, prev: int) {
    && count <= n <= |lens|
    && (n == |lens| ==> count == 0)
    && (n < |lens| ==> count < Limit(prev, lens[n]) && forall k | n - count <= k < n :: lens[k] == lens[n])
    && prev == if n == count then -1 else lens[n - count - 1]
  }

  lemma InRunNext(lens: seq<nat>, n: nat, count: nat, prev: int)
    requires ValidLens(lens) && n < |lens| && InRun(lens, n, count, prev)
    ensures if Ends(lens, n, count + 1, prev) then InRun(lens, n + 1, 0, lens[n]) else InRun(lens, n + 1, count + 1, prev)
    ensures lens[..n - count] + Repeat(lens[n], count + 1) == lens[..n + 1]
  {
  }

  lemma {:induction false} SymsExpand(base: seq<nat>, lens: seq<nat>, n: nat, count: nat, prev: int)
    requires ValidLens(lens) && InRun(lens, n, count, prev)
    ensures ExpandSyms(base + lens[..n - count], Syms(lens, n, count, prev)) == base + lens
    ensures Repeats(base + lens[..n - count], Syms(lens, n, count, prev))
    decreases |lens| - n
  {
    hide Repeat, RunSyms, Ends, ExpandSyms, Repeats;
    if n == |lens| {
      assert lens[..n] == lens;
      ExpandNone(base + lens);
    } else {
      InRunNext(lens, n, count, prev);
      if Ends(lens, n, count + 1, prev) {
        var done := base + lens[..n - count];
        RunExpands(done, lens[n], count + 1, prev);
        assert done + Repeat(lens[n], count + 1) == base + lens[..n + 1];
        SymsExpand(base, lens, n + 1, 0, lens[n]);
        ExpandConcat(done, RunSyms(lens[n], count + 1, prev), Syms(lens, n + 1, 0, lens[n]));
      } else {
        SymsExpand(base, lens, n + 1, count + 1, prev);
      }
    }
  }

  /** The round trip: the symbols of a tree, expanded after any other lengths, give the tree's lengths.
      The second tree never repeats the last length of the first. */
  lemma AllSymsExpand(base: seq<nat>, lens: seq<nat>)
    requires ValidLens(lens)
    ensures ExpandSyms(base, AllSyms(lens)) == base + lens && Repeats(base, AllSyms(lens))
  {
    assert base + lens[..0] == base;
    SymsExpand(base, lens, 0, 0, -1);
  }

  // ---- scan_tree

  /** How often a code length symbol is sent. */
  function Uses(rs: seq<RunSym>, sym: nat): (u: nat)
    ensures u <= |rs|
  {
    if |rs| == 0 then 0 else (if rs[0].sym == sym then 1 else 0) + Uses(rs[1..], sym)
  }

  lemma {:induction false} UsesAppend(x: seq<RunSym>, y: seq<RunSym>, sym: nat)
    ensures Uses(x + y, sym) == Uses(x, sym) + Uses(y, sym)
  {
    if |x| == 0 {
      assert x + y == y;
    } else {
      assert (x + y)[1..] == x[1..] + y;
      UsesAppend(x[1..], y, sym);
    }
  }

  lemma UsesOne(r: RunSym, sym: nat)
    ensures Uses([r], sym) == if r.sym == sym then 1 else 0
  {
    assert [r][1..] == [];
  }

  lemma {:induction false} UsesPlain(len: nat, count: nat, sym: nat)
    ensures Uses(Plain(len, count), sym) == if sym == len then count else 0
  {
    if count > 0 {
      UsesPlain(len, count - 1, sym);
      UsesAppend(Plain(len, count - 1), [RunSym(len, 1)], sym);
      UsesOne(RunSym(len, 1), sym);
    }
  }

  /** A symbol is used exactly when it occurs. */
  lemma {:induction false} UsesPositive(rs: seq<RunSym>, sym: nat)
    ensures Uses(rs, sym) > 0 <==> exists i :: 0 <= i < |rs| && rs[i].sym == sym
  {
    if |rs| > 0 {
      UsesPositive(rs[1..], sym);
      if Uses(rs[1..], sym) > 0 {
        var i :| 0 <= i < |rs[1..]| && rs[1..][i].sym == sym;
        assert rs[i + 1].sym == sym;
      }
      if i :| 0 <= i < |rs| && rs[i].sym == sym {
        if i > 0 {
          assert rs[1..][i - 1].sym == sym;
        }
      }
    }
  }

  lemma UsesRun(len: nat, count: nat, prev: int, sym: nat)
    requires count >= 1
    ensures Uses(RunSyms(len, count, prev), sym) ==
            if count < Least(prev, len) then (if sym == len then count else 0)
            else if len != 0 then (if len != prev && sym == len then 1 else 0) + (if sym == 16 then 1 else 0)
            else if sym == (if count <= 10 then 17 else 18) then 1 else 0
  {
    hide Uses, Plain;
    var rs := RunSyms(len, count, prev);
    if count < Least(prev, len) {
      UsesPlain(len, count, sym);
    } else if len != 0 && len != prev {
      assert rs == [rs[0]] + [rs[1]];
      UsesAppend([rs[0]], [rs[1]], sym);
      UsesOne(rs[0], sym);
      UsesOne(rs[1], sym);
    } else {
      UsesOne(rs[0], sym);
    }
  }

  /** Counts the symbols of one finished run. */
  method CountRun(blFreq: array<nat>, len: nat, count: nat, prev: int, minCount: nat)
    requires blFreq.Length >= 19 && len < 16 && count >= 1 && minCount == Least(prev, len)
    modifies blFreq
    ensures forall s: nat | s < blFreq.Length :: blFreq[s] == old(blFreq[s]) + Uses(RunSyms(len, count, prev), s)
  {
    hide Uses, Plain, RunSyms;
    forall s: nat {
      UsesRun(len, count, prev, s);
    }
    if count < minCount {
      blFreq[len] := blFreq[len] + count;
    } else if len != 0 {
      if len != prev {
        blFreq[len] := blFreq[len] + 1;
      }
      blFreq[16] := blFreq[16] + 1;
    } else if count <= 10 {
      blFreq[17] := blFreq[17] + 1;
    } else {
      blFreq[18] := blFreq[18] + 1;
    }
  }

  /** The limits of the next run, as both routines set them after a run. */
  lemma NextLimits(len: int, next: nat)
    ensures Limit(len, next) > 0
    ensures Limit(len, next) == if next == 0 then 138 else if len == next then 6 else 7
    ensures Least(len, next) == if next == 0 then 3 else if len == next then 3 else 4
  {
  }

  /** What is left of the symbols after position n, with the run that ends there sent or not. */
  lemma SymsStep(lens: seq<nat>, n: nat, count: nat, prev: int, done: seq<RunSym>)
    requires n < |lens| && AllSyms(lens) == done + Syms(lens, n, count, prev)
    ensures Ends(lens, n, count + 1, prev) ==>
            AllSyms(lens) == done + RunSyms(lens[n], count + 1, prev) + Syms(lens, n + 1, 0, lens[n])
    ensures !Ends(lens, n, count + 1, prev) ==> AllSyms(lens) == done + Syms(lens, n + 1, count + 1, prev)
  {
    hide RunSyms, Ends;
    if Ends(lens, n, count + 1, prev) {
      Associative(done, RunSyms(lens[n], count + 1, prev), Syms(lens, n + 1, 0, lens[n]));
    }
  }

  lemma SymsEnd(lens: seq<nat>, count: nat, prev: int, done: seq<RunSym>)
    requires AllSyms(lens) == done + Syms(lens, |lens|, count, prev)
    ensures AllSyms(lens) == done
  {
  }

  method ScanTree(dl: array<nat>, maxCode: nat, blFreq: array<nat>)
    requires dl != blFreq && maxCode + 1 < dl.Length && blFreq.Length >= 19 && ValidLens(dl[..maxCode + 1])
    modifies dl, blFreq
    ensures forall k | 0 <= k < dl.Length :: dl[k] == if k == maxCode + 1 then GUARD else old(dl[k])
    ensures forall s: nat | s < blFreq.Length ::
      blFreq[s] == old(blFreq[s]) + Uses(AllSyms(old(dl[..maxCode + 1])), s)
  {
    hide RunSyms, Syms;
    ghost var lens := dl[..maxCode + 1];
    ghost var done: seq<RunSym> := [];
    assert Uses([], 0) == 0;
    var prevlen: int := -1;
    var nextlen := dl[0];
    var count, maxCount, minCount := 0, 7, 4;
    if nextlen == 0 {
      maxCount, minCount := 138, 3;
    }
    dl[maxCode + 1] := GUARD;
    var n: nat := 0;
    while n <= maxCode
      invariant 0 <= n <= maxCode + 1
      invariant dl[..maxCode + 1] == lens && dl[maxCode + 1] == GUARD
      invariant forall k | 0 <= k < dl.Length && k != maxCode + 1 :: dl[k] == old(dl[k])
      invariant nextlen == dl[n] && maxCount == Limit(prevlen, nextlen) && minCount == Least(prevlen, nextlen)
      invariant AllSyms(lens) == done + Syms(lens, n, count, prevlen)
      invariant forall s: nat | s < blFreq.Length :: blFreq[s] == old(blFreq[s]) + Uses(done, s)
    {
      var curlen := nextlen;
      nextlen := dl[n + 1];
      count := count + 1;
      SymsStep(lens, n, count - 1, prevlen, done);
      n := n + 1;
      if count < maxCount && curlen == nextlen {
        continue;
      }
      CountRun(blFreq, curlen, count, prevlen, minCount);
      forall s: nat
        ensures Uses(done + RunSyms(curlen, count, prevlen), s) == Uses(done, s) + Uses(RunSyms(curlen, count, prevlen), s)
      {
        UsesAppend(done, RunSyms(curlen, count, prevlen), s);
      }
      done := done + RunSyms(curlen, count, prevlen);
      NextLimits(curlen, nextlen);
      count, prevlen := 0, curlen;
      if nextlen == 0 {
        maxCount, minCount := 138, 3;
      } else if curlen == nextlen {
        maxCount, minCount := 6, 3;
      } else {
        maxCount, minCount := 7, 4;
      }
    }
    SymsEnd(lens, count, prevlen, done);
  }

  // ---- send_tree

  /** The bits of a code length symbol: its code, then the count of a repetition. */
  function CountBits(r: RunSym): seq<bool> {
    if r.sym < 16 then [] else ToBits(if r.count >= RepeatBase(r.sym) then r.count - RepeatBase(r.sym) else 0, RepeatBits(r.sym))
  }

  function SymBits(bl: seq<nat>, r: RunSym): seq<bool> {
    SymbolBits(bl, r.sym) + CountBits(r)
  }

  function SymsBits(bl: seq<nat>, rs: seq<RunSym>): seq<bool> {
    if |rs| == 0 then [] else SymBits(bl, rs[0]) + SymsBits(bl, rs[1..])
  }

  lemma {:induction false} SymsBitsAppend(bl: seq<nat>, x: seq<RunSym>, y: seq<RunSym>)
    ensures SymsBits(bl, x + y) == SymsBits(bl, x) + SymsBits(bl, y)
  {
    hide SymBits;
    if |x| == 0 {
      assert x + y == y;
    } else {
      assert (x + y)[1..] == x[1..] + y;
      SymsBitsAppend(bl, x[1..], y);
      Associative(SymBits(bl, x[0]), SymsBits(bl, x[1..]), SymsBits(bl, y));
    }
  }

  lemma SymsBitsOne(bl: seq<nat>, r: RunSym)
    ensures SymsBits(bl, [r]) == SymBits(bl, r)
  {
    assert [r][1..] == [];
    assert SymsBits(bl, [r]) == SymBits(bl, r) + [];
  }

  /** Every symbol of rs has a code. */
  ghost predicate Coded(bl: seq<nat>, rs: seq<RunSym>) {
    forall i | 0 <= i < |rs| :: rs[i].sym < |bl| && 0 < bl[rs[i].sym] <= MAX_BITS
  }

  /** A tree after gen_codes: every symbol in use has its length and its code. */
  ghost predicate HasCodes(fc: seq<nat>, dl: seq<nat>, lens: seq<nat>) {
    |dl| <= |fc| && forall n: nat | n < |lens| && n < |dl| && lens[n] != 0 :: dl[n] == lens[n] && fc[n] == Canonical.Code(lens, n)
  }

  /** send_code: the code of one symbol. */
  method SendCode(b: BitBuffer, sym: nat, fc: array<nat>, dl: array<nat>, ghost lens: seq<nat>)
    requires b.Valid() && sym < |lens| && sym < dl.Length && HasCodes(fc[..], dl[..], lens) && 0 < lens[sym] <= MAX_BITS
    modifies b
    ensures |b.pending| >= old(|b.pending|)
    ensures b.Valid() && b.Sent() == old(b.Sent()) + SymbolBits(lens, sym)
  {
    hide Canonical.Code;
    b.SendBits(fc[sym], dl[sym]);
  }

  method SendSym(b: BitBuffer, r: RunSym, fc: array<nat>, dl: array<nat>, ghost bl: seq<nat>)
    requires b.Valid() && ValidSym(r) && dl.Length >= 19 && HasCodes(fc[..], dl[..], bl) && Coded(bl, [r])
    modifies b
    ensures |b.pending| >= old(|b.pending|)
    ensures b.Valid() && b.Sent() == old(b.Sent()) + SymBits(bl, r)
  {
    hide SymbolBits, HasCodes, ToBits;
    assert [r][0] == r;
    Pow2Values();
    ghost var sent := b.Sent();
    SendCode(b, r.sym, fc, dl, bl);
    if r.sym == 16 {
      b.SendBits(r.count - 3, 2);
    } else if r.sym == 17 {
      b.SendBits(r.count - 3, 3);
    } else if r.sym == 18 {
      b.SendBits(r.count - 11, 7);
    }
    Associative(sent, SymbolBits(bl, r.sym), CountBits(r));
  }

  method SendSymNext(b: BitBuffer, r: RunSym, fc: array<nat>, dl: array<nat>, ghost bl: seq<nat>, ghost sent: seq<bool>, ghost rs: seq<RunSym>)
    requires b.Valid() && ValidSym(r) && dl.Length >= 19 && HasCodes(fc[..], dl[..], bl) && Coded(bl, [r])
    requires b.Sent() == sent + SymsBits(bl, rs)
    modifies b
    ensures |b.pending| >= old(|b.pending|)
    ensures b.Valid() && b.Sent() == sent + SymsBits(bl, rs + [r])
  {
    hide SymsBits, SymBits, HasCodes, Coded, BitBuffer.Valid, BitBuffer.Sent;
    SendSym(b, r, fc, dl, bl);
    SymsBitsAppend(bl, rs, [r]);
    SymsBitsOne(bl, r);
    Associative(sent, SymsBits(bl, rs), SymBits(bl, r));
  }

  lemma SymsNone(bl: seq<nat>)
    ensures SymsBits(bl, []) == []
  {
  }

  /** Sends the symbols of one finished run. */
  method SendRun(b: BitBuffer, len: nat, total: nat, prev: int, minCount: nat, fc: array<nat>, dl: array<nat>, ghost bl: seq<nat>)
    requires b.Valid() && dl.Length >= 19 && HasCodes(fc[..], dl[..], bl)
    requires len < 16 && 1 <= total <= Limit(prev, len) && minCount == Least(prev, len)
    requires Coded(bl, RunSyms(len, total, prev))
    modifies b
    ensures |b.pending| >= old(|b.pending|)
    ensures b.Valid() && b.Sent() == old(b.Sent()) + SymsBits(bl, RunSyms(len, total, prev))
  {
    hide SymsBits, HasCodes, Plain;
    ghost var sent := b.Sent();
    SymsNone(bl);
    assert sent + [] == sent;
    ghost var rs := RunSyms(len, total, prev);
    var count := total;
    if count < minCount {
      ghost var k: nat := 0;
      PlainIs(len, 0);
      while count != 0
        invariant b.Valid() && count + k == total
        invariant |b.pending| >= old(|b.pending|)
        invariant b.Sent() == sent + SymsBits(bl, Plain(len, k))
        decreases count
      {
        PlainIs(len, k);
        PlainIs(len, total);
        assert rs[0] == RunSym(len, 1);
        SendSymNext(b, RunSym(len, 1), fc, dl, bl, sent, Plain(len, k));
        count := count - 1;
        k := k + 1;
      }
    } else if len != 0 {
      ghost var pre: seq<RunSym> := [];
      if len != prev {
        assert rs[0] == RunSym(len, 1);
        SendSymNext(b, RunSym(len, 1), fc, dl, bl, sent, []);
        count := count - 1;
        pre := [] + [RunSym(len, 1)];
      }
      assert rs[|rs| - 1] == RunSym(16, count);
      SendSymNext(b, RunSym(16, count), fc, dl, bl, sent, pre);
      assert rs == pre + [RunSym(16, count)];
    } else if count <= 10 {
      assert rs[0] == RunSym(17, count);
      SendSymNext(b, RunSym(17, count), fc, dl, bl, sent, []);
      assert rs == [] + [RunSym(17, count)];
    } else {
      assert rs[0] == RunSym(18, count);
      SendSymNext(b, RunSym(18, count), fc, dl, bl, sent, []);
      assert rs == [] + [RunSym(18, count)];
    }
  }

  lemma {:induction false} PlainIs(len: nat, k: nat)
    ensures Plain(len, 0) == [] && Plain(len, k + 1) == Plain(len, k) + [RunSym(len, 1)]
    ensures k > 0 ==> Plain(len, k)[0] == RunSym(len, 1)
  {
    if k > 0 {
      PlainIs(len, k - 1);
    }
  }

  /** Sends the code lengths dl[..maxCode + 1] with the code length code bl. */
  method SendTree(b: BitBuffer, dl: array<nat>, maxCode: nat, blFc: array<nat>, blDl: array<nat>, ghost bl: seq<nat>)
    requires b.Valid() && maxCode + 1 < dl.Length && ValidLens(dl[..maxCode + 1]) && dl[maxCode + 1] == GUARD
    requires blDl.Length >= 19 && HasCodes(blFc[..], blDl[..], bl) && Coded(bl, AllSyms(dl[..maxCode + 1]))
    modifies b
    ensures |b.pending| >= old(|b.pending|)
    ensures b.Valid() && b.Sent() == old(b.Sent()) + SymsBits(bl, AllSyms(dl[..maxCode + 1]))
  {
    hide RunSyms, Syms, HasCodes, SymsBits, AllSyms, Limit, Least, Coded, Ends, BitBuffer.Valid, BitBuffer.Sent;
    ghost var lens := dl[..maxCode + 1];
    ghost var done: seq<RunSym> := [];
    ghost var sent := b.Sent();
    SendStart(sent, bl, lens);
    NextLimits(-1, dl[0]);
    var prevlen: int := -1;
    var nextlen := dl[0];
    var count, maxCount, minCount := 0, 7, 4;
    if nextlen == 0 {
      maxCount, minCount := 138, 3;
    }
    var n: nat := 0;
    while n <= maxCode
      invariant 0 <= n <= maxCode + 1 && b.Valid() && count < maxCount
      invariant |b.pending| >= old(|b.pending|)
      invariant nextlen == dl[n] && maxCount == Limit(prevlen, nextlen) && minCount == Least(prevlen, nextlen)
      invariant AllSyms(lens) == done + Syms(lens, n, count, prevlen)
      invariant b.Sent() == sent + SymsBits(bl, done)
    {
      var curlen := nextlen;
      nextlen := dl[n + 1];
      count := count + 1;
      SymsStep(lens, n, count - 1, prevlen, done);
      RunEnds(lens, n, count, prevlen, nextlen);
      n := n + 1;
      if count < maxCount && curlen == nextlen {
        continue;
      }
      ghost var rs := RunSyms(curlen, count, prevlen);
      CodedPart(bl, done, rs, Syms(lens, n, 0, curlen));
      SendRun(b, curlen, count, prevlen, minCount, blFc, blDl, bl);
      SymsBitsAppend(bl, done, rs);
      Associative(sent, SymsBits(bl, done), SymsBits(bl, rs));
      done := done + rs;
      NextLimits(curlen, nextlen);
      count, prevlen := 0, curlen;
      if nextlen == 0 {
        maxCount, minCount := 138, 3;
      } else if curlen == nextlen {
        maxCount, minCount := 6, 3;
      } else {
        maxCount, minCount := 7, 4;
      }
    }
    SymsEnd(lens, count, prevlen, done);
  }

  lemma SendStart(sent: seq<bool>, bl: seq<nat>, lens: seq<nat>)
    ensures sent + SymsBits(bl, []) == sent && AllSyms(lens) == [] + Syms(lens, 0, 0, -1)
  {
  }

  lemma RunEnds(lens: seq<nat>, n: nat, count: nat, prev: int, next: nat)
    requires ValidLens(lens) && n < |lens| && next == (if n + 1 < |lens| then lens[n + 1] else GUARD)
    ensures Ends(lens, n, count, prev) <==> !(count < Limit(prev, lens[n]) && lens[n] == next)
    ensures count < Limit(prev, lens[n]) && lens[n] == next ==> n + 1 < |lens|
  {
  }

  lemma CodedPart(bl: seq<nat>, x: seq<RunSym>, y: seq<RunSym>, z: seq<RunSym>)
    requires Coded(bl, x + y + z)
    ensures Coded(bl, y)
  {
    forall i | 0 <= i < |y|
      ensures y[i].sym < |bl| && 0 < bl[y[i].sym] <= MAX_BITS
    {
      assert (x + y + z)[|x| + i] == y[i];
    }
  }
}
