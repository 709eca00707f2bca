// Spending against an allowance that refills over time, away from any program:
// the arithmetic behind a token bucket's rate bound.
module Accounts {
  // At time `at`, `spent` was taken out and `left` could still be.
  datatype Entry = Entry(at: real, spent: nat, left: real)

  type Account = seq<Entry>

  function Accrued(rate: real, d: real): real { rate * d }

  lemma AccruedAdds(rate: real, d0: real, d1: real)
    requires 0.0 <= rate && 0.0 <= d0 && 0.0 <= d1
    ensures Accrued(rate, d0 + d1) == Accrued(rate, d0) + Accrued(rate, d1)
    ensures 0.0 <= Accrued(rate, d0) <= Accrued(rate, d0 + d1)
  {
  }

  // Spent at times in [s, t].
  function SpentBetween(a: Account, s: real, t: real): nat {
    if a == [] then 0
    else
      var e := a[|a| - 1];
      SpentBetween(a[..|a| - 1], s, t) + (if s <= e.at <= t then e.spent else 0)
  }

  // Never overdrawn, never above `cap`, and refilled at no more than `rate`.
  ghost predicate Honest(a: Account, cap: real, rate: real) {
    && (forall i :: 0 <= i < |a| ==> 0.0 <= a[i].left && a[i].spent as real + a[i].left <= cap)
    && (forall i, j :: 0 <= i && j == i + 1 && j < |a| ==>
          && a[i].at <= a[j].at
          && a[j].spent as real + a[j].left <= a[i].left + Accrued(rate, a[j].at - a[i].at))
  }

  lemma {:induction false} SpentSoFar(a: Account, cap: real, rate: real, s: real, t: real)
    requires a != [] && Honest(a, cap, rate) && 0.0 <= rate && s <= t
    ensures a[|a| - 1].at < s ==> SpentBetween(a, s, t) == 0
    ensures s <= a[|a| - 1].at <= t ==>
      SpentBetween(a, s, t) as real + a[|a| - 1].left <= cap + Accrued(rate, a[|a| - 1].at - s)
  {
    var before, e := a[..|a| - 1], a[|a| - 1];
    if before != [] {
      SpentSoFar(before, cap, rate, s, t);
      var e0 := before[|before| - 1];
      if s <= e0.at && e.at <= t {
        AccruedAdds(rate, e0.at - s, e.at - e0.at);
      }
    }
    if s <= e.at {
      AccruedAdds(rate, e.at - s, 0.0);
    }
  }

  // Whatever the interval, an honest account spends at most its cap plus what
  // the interval refills.
  lemma {:induction false} SpendingBounded(a: Account, cap: real, rate: real, s: real, t: real)
    requires Honest(a, cap, rate) && 0.0 <= cap && 0.0 <= rate && s <= t
    ensures SpentBetween(a, s, t) as real <= cap + Accrued(rate, t - s)
  {
    AccruedAdds(rate, t - s, 0.0);
    if a != [] {
      var e := a[|a| - 1];
      if e.at > t {
        SpendingBounded(a[..|a| - 1], cap, rate, s, t);
      } else {
        SpentSoFar(a, cap, rate, s, t);
        if s <= e.at {
          AccruedAdds(rate, e.at - s, t - e.at);
        }
      }
    }
  }
}
