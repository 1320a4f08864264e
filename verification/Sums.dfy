/** Sums of a weight over the members of a set of numbers below k. */
module Sums {

  function Sum(a: set<nat>, w: nat -> int, k: nat): int {
    if k == 0 then 0 else Sum(a, w, k - 1) + (if k - 1 in a then w(k - 1) else 0)
  }

  lemma {:induction false} SumExt(a: set<nat>, w: nat -> int, v: nat -> int, k: nat)
    requires forall x: nat | x in a && x < k :: w(x) == v(x)
    ensures Sum(a, w, k) == Sum(a, v, k)
  {
    if k > 0 {
      SumExt(a, w, v, k - 1);
    }
  }

  /** Members from k on do not matter. */
  lemma {:induction false} SumSame(a: set<nat>, b: set<nat>, w: nat -> int, k: nat)
    requires forall x: nat | x < k :: x in a <==> x in b
    ensures Sum(a, w, k) == Sum(b, w, k)
  {
    if k > 0 {
      SumSame(a, b, w, k - 1);
    }
  }

  lemma {:induction false} SumAdd(a: set<nat>, x: nat, w: nat -> int, k: nat)
    requires x !in a && x < k
    ensures Sum(a + {x}, w, k) == Sum(a, w, k) + w(x)
  {
    if x == k - 1 {
      SumSame(a, a + {x}, w, k - 1);
    } else {
      SumAdd(a, x, w, k - 1);
    }
  }

  lemma SumRemove(a: set<nat>, x: nat, w: nat -> int, k: nat)
    requires x in a && x < k
    ensures Sum(a - {x}, w, k) == Sum(a, w, k) - w(x)
  {
    SumAdd(a - {x}, x, w, k);
    assert a - {x} + {x} == a;
  }

  lemma {:induction false} SumNone(w: nat -> int, k: nat)
    ensures Sum({}, w, k) == 0
  {
    if k > 0 {
      SumNone(w, k - 1);
    }
  }

  lemma SumOne(x: nat, w: nat -> int, k: nat)
    requires x < k
    ensures Sum({x}, w, k) == w(x)
  {
    SumNone(w, k);
    SumAdd({}, x, w, k);
    assert {} + {x} == {x};
  }

  /** Two members and the rest. */
  lemma SumTwo(a: set<nat>, x: nat, y: nat, w: nat -> int, k: nat)
    requires x in a && y in a && x != y && x < k && y < k
    ensures Sum(a, w, k) == Sum(a - {x} - {y}, w, k) + w(x) + w(y)
  {
    SumRemove(a, x, w, k);
    SumRemove(a - {x}, y, w, k);
  }

  lemma {:induction false} SumMono(a: set<nat>, w: nat -> int, v: nat -> int, k: nat)
    requires forall x: nat | x in a && x < k :: w(x) <= v(x)
    ensures Sum(a, w, k) <= Sum(a, v, k)
  {
    if k > 0 {
      SumMono(a, w, v, k - 1);
    }
  }

  lemma {:induction false} SumNonneg(a: set<nat>, w: nat -> int, k: nat)
    requires forall x: nat | x in a && x < k :: w(x) >= 0
    ensures Sum(a, w, k) >= 0
  {
    if k > 0 {
      SumNonneg(a, w, k - 1);
    }
  }

  /** A set in two parts. */
  lemma {:induction false} SumParts(a: set<nat>, b: set<nat>, w: nat -> int, k: nat)
    requires a !! b
    ensures Sum(a + b, w, k) == Sum(a, w, k) + Sum(b, w, k)
  {
    if k > 0 {
      SumParts(a, b, w, k - 1);
    }
  }

  lemma {:induction false} SumPlus(a: set<nat>, w: nat -> int, v: nat -> int, u: nat -> int, k: nat)
    requires forall x: nat | x in a && x < k :: u(x) == w(x) + v(x)
    ensures Sum(a, u, k) == Sum(a, w, k) + Sum(a, v, k)
  {
    if k > 0 {
      SumPlus(a, w, v, u, k - 1);
    }
  }

  lemma {:induction false} SumScale(a: set<nat>, w: nat -> int, c: int, u: nat -> int, k: nat)
    requires forall x: nat | x in a && x < k :: u(x) == c * w(x)
    ensures Sum(a, u, k) == c * Sum(a, w, k)
  {
    if k > 0 {
      SumScale(a, w, c, u, k - 1);
      if k - 1 in a {
        Distribute(c, Sum(a, w, k - 1), w(k - 1));
      }
    }
  }

  lemma Distribute(c: int, x: int, y: int)
    ensures c * (x + y) == c * x + c * y
  {
  }

  /** Changing the weight of one member. */
  lemma SumChange(a: set<nat>, x: nat, w: nat -> int, v: nat -> int, k: nat)
    requires x in a && x < k && forall y: nat | y in a && y != x && y < k :: w(y) == v(y)
    ensures Sum(a, v, k) == Sum(a, w, k) - w(x) + v(x)
  {
    SumRemove(a, x, w, k);
    SumRemove(a, x, v, k);
    SumExt(a - {x}, w, v, k);
  }

  // ---- sums over a list

  function SeqSum(s: seq<nat>, w: nat -> int): int {
    if |s| == 0 then 0 else SeqSum(s[..|s| - 1], w) + w(s[|s| - 1])
  }

  lemma {:induction false} SeqSumAppend(s: seq<nat>, r: seq<nat>, w: nat -> int)
    ensures SeqSum(s + r, w) == SeqSum(s, w) + SeqSum(r, w)
  {
    if |r| == 0 {
      assert s + r == s;
    } else {
      assert (s + r)[..|s + r| - 1] == s + r[..|r| - 1];
      SeqSumAppend(s, r[..|r| - 1], w);
    }
  }

  lemma SeqSumOne(x: nat, w: nat -> int)
    ensures SeqSum([], w) == 0 && SeqSum([x], w) == w(x)
  {
    assert [x][..0] == [];
  }

  lemma SeqSumFirst(s: seq<nat>, w: nat -> int)
    requires |s| > 0
    ensures SeqSum(s, w) == w(s[0]) + SeqSum(s[1..], w)
  {
    SeqSumAppend([s[0]], s[1..], w);
    SeqSumOne(s[0], w);
    assert s == [s[0]] + s[1..];
  }

  lemma SeqSumNext(s: seq<nat>, j: nat, w: nat -> int)
    requires j < |s|
    ensures SeqSum(s[..j + 1], w) == SeqSum(s[..j], w) + w(s[j])
  {
    assert s[..j + 1][..j] == s[..j];
  }

  lemma {:induction false} SeqSumExt(s: seq<nat>, w: nat -> int, v: nat -> int)
    requires forall i | 0 <= i < |s| :: w(s[i]) == v(s[i])
    ensures SeqSum(s, w) == SeqSum(s, v)
  {
    if |s| > 0 {
      SeqSumExt(s[..|s| - 1], w, v);
    }
  }

  ghost predicate Distinct(s: seq<nat>) { forall i, j | 0 <= i < j < |s| :: s[i] != s[j] }

  /** Changing the weight of one member of a list without repetitions. */
  lemma SeqSumChange(s: seq<nat>, j: nat, w: nat -> int, v: nat -> int)
    requires Distinct(s) && j < |s| && forall x: nat | x != s[j] :: w(x) == v(x)
    ensures SeqSum(s, v) == SeqSum(s, w) - w(s[j]) + v(s[j])
  {
    hide SeqSum;
    var a, b := s[..j], s[j + 1..];
    assert s == a + [s[j]] + b;
    SeqSumAppend(a + [s[j]], b, w);
    SeqSumAppend(a, [s[j]], w);
    SeqSumAppend(a + [s[j]], b, v);
    SeqSumAppend(a, [s[j]], v);
    SeqSumOne(s[j], w);
    SeqSumOne(s[j], v);
    SeqSumExt(a, w, v);
    SeqSumExt(b, w, v);
  }

  lemma {:induction false} SeqSumNonneg(s: seq<nat>, w: nat -> int)
    requires forall x: nat :: w(x) >= 0
    ensures SeqSum(s, w) >= 0
  {
    if |s| > 0 {
      SeqSumNonneg(s[..|s| - 1], w);
    }
  }
}
