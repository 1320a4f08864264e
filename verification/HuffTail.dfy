/** The upper part of the heap array after build_tree's merges: all nodes, each father before its sons. */
module HuffTail {
  import opened Bits
  import opened Canonical
  import opened Sums
  import opened Huffman

  /** The nodes taken out by the first i merges, latest first. */
  function Out(ms: seq<Pair>, i: nat): (s: seq<nat>)
    requires i <= |ms|
    ensures |s| == 2 * i
  {
    if i == 0 then [] else [ms[i - 1].m, ms[i - 1].n] + Out(ms, i - 1)
  }

  function Tail(t: Trace): (s: seq<nat>)
    requires |t.ms| > 0
    ensures |s| == 2 * |t.ms| + 1 && s[0] == Size(t) - 1
  {
    [Size(t) - 1] + Out(t.ms, |t.ms|)
  }

  /** A trace whose merges have joined all leaves. */
  ghost predicate Finished(t: Trace)
    ensures Finished(t) ==> |t.ms| > 0
  {
    ValidTrace(t) && |t.ms| > 0 && Active(t, |t.ms|) == {Size(t) - 1}
  }

  ghost predicate HasDads(t: Trace, dl: seq<nat>) {
    forall i: nat | i < |t.ms| :: HasDad(t, dl, i)
  }

  ghost predicate HasDad(t: Trace, dl: seq<nat>, i: nat)
    requires i < |t.ms|
  {
    var p := t.ms[i];
    p.n < |dl| && p.m < |dl| && dl[p.n] == t.e + i && dl[p.m] == t.e + i
  }

  lemma OutGone(t: Trace, i: nat, s: seq<nat>, j: nat)
    requires ValidTrace(t) && i < |t.ms| && j < |s| && s[j] !in Active(t, i) && s[j] < t.e + i
    ensures s[j] !in Active(t, i + 1) && s[j] < t.e + i + 1 && s[j] != t.ms[i].n && s[j] != t.ms[i].m
  {
    assert MergeOk(t, i);
  }

  lemma {:induction false} OutDistinct(t: Trace, i: nat)
    requires ValidTrace(t) && i <= |t.ms|
    ensures Distinct(Out(t.ms, i))
    ensures forall j | 0 <= j < 2 * i :: Out(t.ms, i)[j] !in Active(t, i) && Out(t.ms, i)[j] < t.e + i
  {
    if i > 0 {
      OutDistinct(t, i - 1);
      ActiveBound(t, i - 1);
      assert MergeOk(t, i - 1);
      var s := Out(t.ms, i - 1);
      forall j | 0 <= j < 2 * (i - 1)
        ensures s[j] !in Active(t, i) && s[j] < t.e + i && s[j] != t.ms[i - 1].n && s[j] != t.ms[i - 1].m
      {
        OutGone(t, i - 1, s, j);
      }
      assert t.ms[i - 1].n != t.ms[i - 1].m && t.ms[i - 1].n in Active(t, i - 1) && t.ms[i - 1].m in Active(t, i - 1);
    }
  }

  lemma TailDistinct(t: Trace)
    requires Finished(t)
    ensures Distinct(Tail(t)) && forall j | 0 <= j < |Tail(t)| :: Tail(t)[j] < Size(t)
  {
    OutDistinct(t, |t.ms|);
    assert Size(t) - 1 in Active(t, |t.ms|);
  }

  lemma {:induction false} OutAt(ms: seq<Pair>, i: nat, j: nat)
    requires i <= |ms| && j < i
    ensures Out(ms, i)[2 * (i - 1 - j)] == ms[j].m && Out(ms, i)[2 * (i - 1 - j) + 1] == ms[j].n
  {
    if j < i - 1 {
      OutAt(ms, i - 1, j);
      assert Out(ms, i)[2..] == Out(ms, i - 1);
      assert Out(ms, i)[2 * (i - 1 - j)] == Out(ms, i - 1)[2 * (i - 2 - j)];
    }
  }

  /** Where the sons of merge j stand. */
  lemma TailAt(t: Trace, j: nat)
    requires j < |t.ms|
    ensures var k := 2 * (|t.ms| - 1 - j) + 1; Tail(t)[k] == t.ms[j].m && Tail(t)[k + 1] == t.ms[j].n
  {
    OutAt(t.ms, |t.ms|, j);
  }

  /** The roots after i merges stand before all nodes that those merges took out. */
  lemma {:induction false} ActiveInTail(t: Trace, i: nat)
    requires Finished(t) && i <= |t.ms|
    ensures forall x: nat | x in Active(t, i) :: x in Tail(t)[..2 * (|t.ms| - i) + 1]
    decreases |t.ms| - i
  {
    hide Tail, Out;
    if i == |t.ms| {
      assert Tail(t)[..1][0] == Size(t) - 1;
    } else {
      ActiveInTail(t, i + 1);
      TailAt(t, i);
      var k := 2 * (|t.ms| - 1 - i) + 1;
      forall x: nat | x in Active(t, i)
        ensures x in Tail(t)[..k + 2]
      {
        if x == t.ms[i].n {
          assert Tail(t)[..k + 2][k + 1] == x;
        } else if x == t.ms[i].m {
          assert Tail(t)[..k + 2][k] == x;
        } else {
          assert x in Active(t, i + 1);
          assert Tail(t)[..k + 2][..k] == Tail(t)[..k];
        }
      }
    }
  }

  /** The node at position k > 0 has its father before it. */
  lemma FatherBefore(t: Trace, dads: seq<nat>, k: nat) returns (i: nat, at: nat)
    requires Finished(t) && HasDads(t, dads) && 1 <= k < |Tail(t)|
    ensures i < |t.ms| && (Tail(t)[k] == t.ms[i].n || Tail(t)[k] == t.ms[i].m)
    ensures Tail(t)[k] < |dads| && dads[Tail(t)[k]] == t.e + i && at < k && Tail(t)[at] == t.e + i
  {
    hide Tail, Out, ValidTrace;
    i := |t.ms| - 1 - (k - 1) / 2;
    TailAt(t, i);
    var j := 2 * (|t.ms| - 1 - i) + 1;
    assert k == j || k == j + 1;
    ActiveInTail(t, i + 1);
    assert t.e + i in Active(t, i + 1);
    assert HasDad(t, dads, i);
    at :| 0 <= at < j && Tail(t)[..j][at] == t.e + i;
  }

  /** Summed over the list, a weight of leaves only gives its sum over the leaves. */
  lemma {:induction false} OutSum(t: Trace, i: nat, w: nat -> int)
    requires ValidTrace(t) && i <= |t.ms| && forall x: nat | x >= t.e :: w(x) == 0
    ensures SeqSum(Out(t.ms, i), w) + Sum(Active(t, i), w, Size(t)) == Sum(t.leaves, w, Size(t))
  {
    hide Sum, SeqSum, ValidTrace;
    if i == 0 {
      SeqSumOne(0, w);
    } else {
      OutSum(t, i - 1, w);
      MergeSum(t, i - 1, w);
      var p := t.ms[i - 1];
      SeqSumAppend([p.m, p.n], Out(t.ms, i - 1), w);
      SeqSumFirst([p.m, p.n], w);
      SeqSumOne(p.n, w);
      assert [p.m, p.n][1..] == [p.n];
    }
  }

  lemma TailSum(t: Trace, w: nat -> int)
    requires Finished(t) && forall x: nat | x >= t.e :: w(x) == 0
    ensures SeqSum(Tail(t)[1..], w) == Sum(t.leaves, w, Size(t))
    ensures SeqSum(Tail(t), w) == Sum(t.leaves, w, Size(t))
  {
    hide Sum, SeqSum, ValidTrace, Out;
    OutSum(t, |t.ms|, w);
    SumOne(Size(t) - 1, w, Size(t));
    assert Tail(t)[1..] == Out(t.ms, |t.ms|);
    SeqSumFirst(Tail(t), w);
  }

  function OverAt(dads: seq<nat>, l: seq<nat>, max: nat, x: nat): int {
    if x < |dads| && dads[x] < |l| && l[dads[x]] == max then 1 else 0
  }
  ghost function OverW(dads: seq<nat>, l: seq<nat>, max: nat): nat -> int { (x: nat) => OverAt(dads, l, max, x) }

  /** Every clipped pair is counted twice, once for each son. */
  lemma {:induction false} OverOut(t: Trace, dads: seq<nat>, l: seq<nat>, max: nat, i: nat)
    requires ValidTrace(t) && HasDads(t, dads) && |l| >= Size(t) && i <= |t.ms|
    ensures SeqSum(Out(t.ms, i), OverW(dads, l, max)) == 2 * (Over(t, l, max, 0) - Over(t, l, max, i))
  {
    hide SeqSum, ValidTrace;
    var w := OverW(dads, l, max);
    if i == 0 {
      SeqSumOne(0, w);
    } else {
      OverOut(t, dads, l, max, i - 1);
      var p := t.ms[i - 1];
      SeqSumAppend([p.m, p.n], Out(t.ms, i - 1), w);
      SeqSumFirst([p.m, p.n], w);
      SeqSumOne(p.n, w);
      assert [p.m, p.n][1..] == [p.n];
      assert HasDad(t, dads, i - 1);
    }
  }

  // ---- the clipped depths exist

  lemma {:induction false} MergedGone(t: Trace, i: nat, j: nat)
    requires ValidTrace(t) && i < j <= |t.ms|
    ensures t.ms[i].n !in Active(t, j) && t.ms[i].m !in Active(t, j)
    ensures t.ms[i].n < t.e + i && t.ms[i].m < t.e + i
  {
    ActiveBound(t, i);
    assert MergeOk(t, i);
    if i < j - 1 {
      MergedGone(t, i, j - 1);
    }
  }

  /** The depths that the first pass of gen_bitlen is about to compute. */
  lemma {:induction false} Depths(t: Trace, max: nat, i: nat) returns (l: seq<nat>)
    requires Finished(t) && i <= |t.ms|
    ensures |l| == Size(t) && l[Size(t) - 1] == 0
    ensures forall j: nat | i <= j < |t.ms| :: ClippedPair(t, l, max, j)
    decreases |t.ms| - i
  {
    hide Active;
    if i == |t.ms| {
      l := seq(Size(t), _ => 0);
    } else {
      var r := Depths(t, max, i + 1);
      var p, d := t.ms[i], Child(r[t.e + i], max);
      MergedGone(t, i, |t.ms|);
      l := r[p.n := d][p.m := d];
      forall j: nat | i <= j < |t.ms|
        ensures ClippedPair(t, l, max, j)
      {
        if i < j {
          assert ClippedPair(t, r, max, j);
          MergedGone(t, i, j);
          assert MergeOk(t, j);
        }
      }
    }
  }

  // ---- the order of frequencies

  /** What is left after merge i is at least as frequent as what it has joined. */
  lemma {:induction false} LeftOver(t: Trace, i: nat, k: nat)
    requires ValidTrace(t) && Greedy(t) && i < k <= |t.ms|
    ensures forall x: nat | x in Active(t, k) :: F(t, t.ms[i].m) <= F(t, x)
    decreases k
  {
    hide F;
    assert MergeOk(t, k - 1) && LeastTwo(t, i);
    if k > i + 1 {
      LeftOver(t, i, k - 1);
    }
  }

  /** Later merges join more frequent nodes. */
  lemma LaterMore(t: Trace, i: nat, j: nat)
    requires ValidTrace(t) && Greedy(t) && i < j < |t.ms|
    ensures F(t, t.ms[i].n) <= F(t, t.ms[i].m) <= F(t, t.ms[j].n) <= F(t, t.ms[j].m)
  {
    hide F;
    LeftOver(t, i, j);
    assert MergeOk(t, j) && LeastTwo(t, i) && LeastTwo(t, j);
  }

  /** Merge i takes out node x. */
  ghost predicate Joined(t: Trace, i: nat, x: nat) { i < |t.ms| && (x == t.ms[i].n || x == t.ms[i].m) }

  /** A root that is not the last one is joined later on. */
  lemma {:induction false} JoinedLater(t: Trace, x: nat, i: nat) returns (k: nat)
    requires Finished(t) && i <= |t.ms| && x in Active(t, i) && x != Size(t) - 1
    ensures i <= k && Joined(t, k, x)
    decreases |t.ms| - i
  {
    if Joined(t, i, x) {
      k := i;
    } else {
      assert i < |t.ms|;
      k := JoinedLater(t, x, i + 1);
    }
  }

  /** A node that is less frequent than another is joined no later. */
  lemma RarerFirst(t: Trace, x: nat, i: nat, y: nat, j: nat)
    requires ValidTrace(t) && Greedy(t) && Joined(t, i, x) && Joined(t, j, y) && F(t, x) < F(t, y)
    ensures i <= j && (i == j ==> x == t.ms[i].n && y == t.ms[i].m)
    ensures i < j ==> F(t, t.e + i) < F(t, t.e + j)
  {
    hide F;
    assert MergeOk(t, i) && MergeOk(t, j) && LeastTwo(t, i) && LeastTwo(t, j);
    if j < i {
      LaterMore(t, j, i);
    } else if i < j {
      LaterMore(t, i, j);
    }
  }

  /** A less frequent node is at least as deep, whether or not the depths are clipped. */
  lemma {:induction false} RarerDeeper(t: Trace, l: seq<nat>, max: nat, x: nat, i: nat, y: nat, j: nat)
    requires Finished(t) && Greedy(t) && Clipped(t, l, max) && Joined(t, i, x) && Joined(t, j, y) && F(t, x) < F(t, y)
    ensures x < |l| && y < |l| && l[x] >= l[y]
    decreases |t.ms| - i
  {
    hide F;
    RarerFirst(t, x, i, y, j);
    assert ClippedPair(t, l, max, i) && ClippedPair(t, l, max, j);
    if i < j < |t.ms| - 1 {
      assert t.e + i in Active(t, i + 1) && t.e + j in Active(t, j + 1);
      var i' := JoinedLater(t, t.e + i, i + 1);
      var j' := JoinedLater(t, t.e + j, j + 1);
      RarerDeeper(t, l, max, t.e + i, i', t.e + j, j');
    }
  }

  /** The lengths never get shorter along the list, as far as its leaves are concerned. */
  ghost predicate Descending(s: seq<nat>, dl: seq<nat>, maxCode: nat) {
    (forall k | 0 <= k < |s| :: s[k] < |dl|) && forall i, j | 0 <= i < j < |s| && s[i] <= maxCode && s[j] <= maxCode :: dl[s[i]] <= dl[s[j]]
  }

  /** Less frequent nodes stand later in the list. */
  lemma RarerLater(t: Trace, dl: seq<nat>, maxCode: nat, x: nat, y: nat)
    requires Finished(t) && Greedy(t) && Descending(Tail(t), dl, maxCode) && x in t.leaves && y in t.leaves && x <= maxCode && y <= maxCode
    requires F(t, x) < F(t, y)
    ensures x < |dl| && y < |dl| && dl[x] >= dl[y]
  {
    hide F, Tail;
    var i := JoinedLater(t, x, 0);
    var j := JoinedLater(t, y, 0);
    RarerFirst(t, x, i, y, j);
    TailAt(t, i);
    TailAt(t, j);
  }
}
