/** build_bl_tree of trees.c: the code for the code lengths of a block. */
module BlTree {
  import opened Bits
  import opened Canonical
  import opened InfTrees
  import opened Machine
  import opened Huffman
  import opened GenBitlen
  import opened BuildTree
  import opened RunLength
  import opened DynamicTrees
  import opened Costs

  /** The symbols for the lengths of both trees. */
  function BothSyms(lit: seq<nat>, dist: seq<nat>): seq<RunSym> { AllSyms(lit) + AllSyms(dist) }

  lemma {:induction false} FreqSumUses(rs: seq<RunSym>)
    ensures FreqSum(UseTable(rs), BL_CODES) <= |rs|
  {
    if |rs| == 0 {
      assert forall n: nat :: Uses(rs, n) == 0;
      FreqSumZero(UseTable(rs), BL_CODES);
    } else {
      FreqSumUses(rs[1..]);
      UsesFirst(rs);
      FreqSumBump(UseTable(rs[1..]), UseTable(rs), rs[0].sym, BL_CODES);
    }
  }

  lemma {:induction false} FreqSumZero(f: seq<nat>, k: nat)
    requires k <= |f| && forall x: nat | x < k :: f[x] == 0
    ensures FreqSum(f, k) == 0
  {
    if k > 0 {
      FreqSumZero(f, k - 1);
    }
  }

  lemma {:induction false} FreqSumBump(f: seq<nat>, g: seq<nat>, n: nat, k: nat)
    requires k <= |f| && k <= |g| && forall x: nat | x < k :: g[x] == f[x] + (if x == n then 1 else 0)
    ensures FreqSum(g, k) == FreqSum(f, k) + (if n < k then 1 else 0)
  {
    if k > 0 {
      FreqSumBump(f, g, n, k - 1);
    }
  }

  lemma SymsCount(lens: seq<nat>)
    requires ValidLens(lens)
    ensures |AllSyms(lens)| <= |lens|
    ensures forall i | 0 <= i < |AllSyms(lens)| :: AllSyms(lens)[i].sym < 19
  {
    hide AllSyms;
    AllSymsExpand([], lens);
    ExpandGrows([], AllSyms(lens));
    RepeatsValid([], AllSyms(lens));
  }

  lemma {:induction false} RepeatsValid(done: seq<nat>, rs: seq<RunSym>)
    requires Repeats(done, rs)
    ensures forall i | 0 <= i < |rs| :: ValidSym(rs[i])
    decreases |rs|
  {
    hide ExpandSym;
    if |rs| > 0 {
      RepeatsValid(ExpandSym(done, rs[0]), rs[1..]);
      assert forall i | 1 <= i < |rs| :: rs[i] == rs[1..][i - 1];
    }
  }

  /** Every symbol that is sent has a code when all used symbols have one. */
  lemma CodedAll(bl: seq<nat>, rs: seq<RunSym>, all: seq<RunSym>)
    requires |bl| == 19 && (forall n: nat | n < 19 :: bl[n] <= MAX_BITS && (Uses(all, n) != 0 ==> bl[n] != 0))
    requires (forall i | 0 <= i < |rs| :: rs[i].sym < 19) && forall n: nat :: Uses(rs, n) <= Uses(all, n)
    ensures Coded(bl, rs)
  {
    hide Uses;
    forall i | 0 <= i < |rs|
      ensures rs[i].sym < |bl| && 0 < bl[rs[i].sym] <= MAX_BITS
    {
      UsesPositive(rs, rs[i].sym);
    }
  }

  /** What build_bl_tree makes for the lengths lit and dist. */
  ghost predicate GoodBl(bl: seq<nat>, lit: seq<nat>, dist: seq<nat>) {
    && |bl| == 19 && (forall n: nat | n < 19 :: bl[n] <= 7) && Kraft(bl) == FULL
    && Coded(bl, AllSyms(lit)) && Coded(bl, AllSyms(dist))
  }

  /** The lengths of build_tree, seen as lengths of all nineteen symbols. */
  lemma BlDone(lit: seq<nat>, dist: seq<nat>, f: seq<nat>, fc: seq<nat>, dl: seq<nat>, maxCode: nat)
    requires ValidLens(lit) && ValidLens(dist) && maxCode < 19 <= |dl| && |dl| <= |fc| && |f| >= 19
    requires forall n: nat | n < 19 :: f[n] == Uses(BothSyms(lit, dist), n)
    requires BuiltLengths(BlDesc(), f, dl[..maxCode + 1]) && forall n: nat | maxCode < n < 19 :: dl[n] == 0
    requires forall n: nat | n <= maxCode && dl[n] != 0 :: fc[n] == Canonical.Code(dl[..maxCode + 1], n)
    ensures GoodBl(dl[..19], lit, dist) && HasCodes(fc, dl, dl[..19])
    ensures TreeCost(BlDesc(), f, dl, maxCode + 1) == TreeCost(BlDesc(), UseTable(BothSyms(lit, dist)), dl[..19], BL_CODES)
  {
    hide Uses, AllSyms, Kraft, Canonical.Code, TreeCost, Coded;
    var bl, x, y := dl[..19], AllSyms(lit), AllSyms(dist);
    assert bl[..maxCode + 1] == dl[..maxCode + 1];
    CodePad(bl, maxCode + 1);
    SymsCount(lit);
    SymsCount(dist);
    forall n: nat {
      UsesAppend(x, y, n);
    }
    CodedAll(bl, x, BothSyms(lit, dist));
    CodedAll(bl, y, BothSyms(lit, dist));
    CostCut(BlDesc(), f, dl, bl, maxCode + 1, BL_CODES);
    CostSame(BlDesc(), f, UseTable(BothSyms(lit, dist)), bl, BL_CODES);
  }

  /** Symbols 0, 16, 17 and 18 alone give zeros. */
  lemma {:induction false} OnlyZeros(done: seq<nat>, rs: seq<RunSym>)
    requires forall i | 0 <= i < |done| :: done[i] == 0
    requires forall i | 0 <= i < |rs| :: rs[i].sym == 0 || rs[i].sym >= 16
    ensures forall i | 0 <= i < |ExpandSyms(done, rs)| :: ExpandSyms(done, rs)[i] == 0
    decreases |rs|
  {
    if |rs| > 0 {
      OnlyZeros(ExpandSym(done, rs[0]), rs[1..]);
    }
  }

  /** A tree with a code needs a symbol for its length, so at least four code lengths are sent. */
  lemma SomeLength(bl: seq<nat>, max: nat, lit: seq<nat>, dist: seq<nat>, n: nat)
    requires GoodBl(bl, lit, dist) && ValidLens(lit) && n < |lit| && lit[n] != 0 && 2 <= max < 19
    requires forall r: nat | max < r < 19 :: ORDER[r] < 19 && bl[ORDER[r]] == 0
    ensures max >= 3
  {
    hide AllSyms, ExpandSyms, Repeats, ORDER, Kraft;
    var rs := AllSyms(lit);
    AllSymsExpand([], lit);
    assert [] + lit == lit;
    OrderAt(0);
    forall k: nat | k < 16
      ensures max >= 3 || bl[k] == 0
    {
      assert ORDER[SentAt(k)] == k && SentAt(k) >= 3;
    }
    if max < 3 {
      OnlyZeros([], rs);
    }
  }

  /** The position of the last code length that has to be sent. */
  method LastIndex(blDl: array<nat>) returns (maxBlindex: nat)
    requires blDl.Length >= 19
    ensures 2 <= maxBlindex < 19 && forall r: nat | maxBlindex < r < 19 :: ORDER[r] < 19 && blDl[ORDER[r]] == 0
    ensures maxBlindex >= 3 ==> |ORDER| == 19 && ORDER[maxBlindex] < 19 && blDl[ORDER[maxBlindex]] != 0
  {
    assert |ORDER| == 19;
    maxBlindex := 18;
    while maxBlindex >= 3
      invariant 2 <= maxBlindex < 19
      invariant forall r: nat | maxBlindex < r < 19 :: ORDER[r] < 19 && blDl[ORDER[r]] == 0
    {
      OrderAt(maxBlindex);
      if blDl[ORDER[maxBlindex]] != 0 {
        break;
      }
      maxBlindex := maxBlindex - 1;
    }
  }

  method BuildBlTree(heap: array<nat>, depth: array<nat>, blCount: array<nat>, lDl: array<nat>, lMax: nat, dDl: array<nat>, dMax: nat,
                     blFc: array<nat>, blDl: array<nat>, optLen0: int)
    returns (maxBlindex: nat, optLen: int)
    requires heap != depth && heap != blFc && heap != blDl && heap != blCount && depth != blFc && depth != blDl && depth != blCount
    requires blFc != blDl && blFc != blCount && blDl != blCount && lDl != dDl
    requires lDl !in {heap, depth, blCount, blFc, blDl} && dDl !in {heap, depth, blCount, blFc, blDl}
    requires heap.Length == HEAP_SIZE && depth.Length == HEAP_SIZE && blCount.Length == MAX_BITS + 1
    requires blFc.Length == 39 && blDl.Length == 39 && forall n: nat | n < 19 :: blFc[n] == 0
    requires lMax < 286 && lMax + 1 < lDl.Length && dMax < 30 && dMax + 1 < dDl.Length
    requires ValidLens(lDl[..lMax + 1]) && ValidLens(dDl[..dMax + 1]) && 256 <= lMax && lDl[256] != 0
    modifies heap, depth, blCount, lDl, dDl, blFc, blDl
    ensures forall k | 0 <= k < lDl.Length :: lDl[k] == if k == lMax + 1 then GUARD else old(lDl[k])
    ensures forall k | 0 <= k < dDl.Length :: dDl[k] == if k == dMax + 1 then GUARD else old(dDl[k])
    ensures lDl[..lMax + 1] == old(lDl[..lMax + 1]) && dDl[..dMax + 1] == old(dDl[..dMax + 1])
    ensures GoodBl(blDl[..19], lDl[..lMax + 1], dDl[..dMax + 1]) && HasCodes(blFc[..], blDl[..], blDl[..19])
    ensures 3 <= maxBlindex < 19 && forall r: nat | maxBlindex < r < 19 :: ORDER[r] < 19 && blDl[ORDER[r]] == 0
    ensures |ORDER| == 19 && ORDER[maxBlindex] < 19 && blDl[ORDER[maxBlindex]] != 0
    ensures optLen == optLen0 + 14 + 3 * (maxBlindex + 1) +
            TreeCost(BlDesc(), UseTable(BothSyms(lDl[..lMax + 1], dDl[..dMax + 1])), blDl[..19], BL_CODES)
  {
    hide Uses, AllSyms, TreeCost, Best, GreedyTree, Clipped, Over, FreqSum, GoodDesc, BuiltLengths, GoodBl, HasCodes, ORDER, Canonical.Code;
    ghost var lit, dist := lDl[..lMax + 1], dDl[..dMax + 1];
    ScanTree(lDl, lMax, blFc);
    ScanTree(dDl, dMax, blFc);
    assert lDl[..lMax + 1] == lit && dDl[..dMax + 1] == dist;
    ghost var f := blFc[..];
    BlFreqs(f, lit, dist);
    GoodDescs();
    assert BlDesc().elems == 19;
    var maxCode: nat, staticLen: int;
    ghost var t, l;
    maxCode, optLen, staticLen, t, l := MakeTree(heap, depth, blFc, blDl, blCount, BlDesc(), optLen0, 0);
    BlDone(lit, dist, f, blFc[..], blDl[..], maxCode);
    maxBlindex := LastIndex(blDl);
    OrderAt(0);
    ghost var bl := blDl[..19];
    assert forall r: nat | maxBlindex < r < 19 :: ORDER[r] < 19 && bl[ORDER[r]] == 0;
    SomeLength(bl, maxBlindex, lit, dist, 256);
    optLen := optLen + 3 * (maxBlindex + 1) + 5 + 5 + 4;
  }

  lemma BlFreqs(f: seq<nat>, lit: seq<nat>, dist: seq<nat>)
    requires |f| >= 19 && forall n: nat | n < 19 :: f[n] == Uses(AllSyms(lit), n) + Uses(AllSyms(dist), n)
    requires ValidLens(lit) && ValidLens(dist) && |lit| <= 286 && |dist| <= 30
    ensures forall n: nat | n < 19 :: f[n] == Uses(BothSyms(lit, dist), n)
    ensures FreqSum(f, 19) <= 65535
  {
    hide Uses, AllSyms, FreqSum;
    forall n: nat {
      UsesAppend(AllSyms(lit), AllSyms(dist), n);
    }
    SymsCount(lit);
    SymsCount(dist);
    FreqSumUses(BothSyms(lit, dist));
    FreqSame(UseTable(BothSyms(lit, dist)), f[..19], 19);
    FreqSumPrefix(f, 19);
  }

  lemma {:induction false} FreqSumPrefix(f: seq<nat>, k: nat)
    requires k <= |f|
    ensures FreqSum(f[..k], k) == FreqSum(f, k)
  {
    FreqSumAgree(f[..k], f, k);
  }

  lemma {:induction false} FreqSumAgree(f: seq<nat>, g: seq<nat>, k: nat)
    requires k <= |f| && k <= |g| && forall x: nat | x < k :: f[x] == g[x]
    ensures FreqSum(f, k) == FreqSum(g, k)
  {
    if k > 0 {
      FreqSumAgree(f, g, k - 1);
    }
  }
}
