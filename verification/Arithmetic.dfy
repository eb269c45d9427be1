/** Multiples of naturals and sizes of sets. */
module Arithmetic {

  lemma OneMoreTime(n: nat, factor: nat)
    ensures (n + 1) * factor == n * factor + factor
  {}

  lemma {:induction false} MultiplesGrow(a: nat, b: nat, factor: nat)
    requires a <= b
    ensures a * factor <= b * factor
    decreases b
  {
    if a < b {
      MultiplesGrow(a, b - 1, factor);
      OneMoreTime(b - 1, factor);
    }
  }

  /** `k` times a number, added up. */
  function Times(k: nat, factor: nat): nat {
    if k == 0 then 0 else Times(k - 1, factor) + factor
  }

  lemma {:induction false} TimesIs(k: nat, factor: nat)
    ensures Times(k, factor) == k * factor
  {
    if k > 0 {
      TimesIs(k - 1, factor);
      OneMoreTime(k - 1, factor);
    }
  }

  function SumOf(parts: seq<nat>): nat {
    if parts == [] then 0 else SumOf(parts[..|parts| - 1]) + parts[|parts| - 1]
  }

  lemma {:induction false} SubsetIsSmaller<T>(a: set<T>, b: set<T>)
    requires a <= b
    ensures |a| <= |b|
  {
    assert b == a + (b - a);
  }
}
