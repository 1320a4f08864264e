/** Runs of any deterministic step function. */
module Traces {
  datatype Option<T> = None | Some(value: T)

  ghost predicate Steps<C(!new)>(next: C -> Option<C>, c: C, d: C, n: nat)
    decreases n
  {
    if n == 0 then c == d else next(c).Some? && Steps(next, next(c).value, d, n - 1)
  }

  lemma {:induction false} StepsTrans<C(!new)>(next: C -> Option<C>, c: C, d: C, e: C, m: nat, n: nat)
    requires Steps(next, c, d, m) && Steps(next, d, e, n)
    ensures Steps(next, c, e, m + n)
  {
    if m > 0 {
      StepsTrans(next, next(c).value, d, e, m - 1, n);
    }
  }

  /** Of two configurations on the run one is reached from the other. */
  lemma {:induction false} StepsLinear<C(!new)>(next: C -> Option<C>, c: C, d: C, e: C, m: nat, n: nat)
    requires Steps(next, c, d, m) && Steps(next, c, e, n) && m <= n
    ensures Steps(next, d, e, n - m)
  {
    if m > 0 {
      StepsLinear(next, next(c).value, d, e, m - 1, n - 1);
    }
  }
}
