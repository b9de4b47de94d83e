/** Sequences of distinct numbers, and the numbers they leave out. */
module Sequences {
  predicate Distinct(order: seq<nat>) {
    forall i, j :: 0 <= i < j < |order| ==> order[i] != order[j]
  }

  lemma DistinctMore(order: seq<nat>, i: nat)
    requires Distinct(order) && i !in order
    ensures Distinct(order + [i])
  {
  }

  ghost function Outside(order: seq<nat>, n: nat): set<nat> {
    set i: nat | i < n && i !in order
  }

  lemma {:induction false} BelowCount(n: nat)
    ensures |Outside([], n)| == n
  {
    if n > 0 {
      BelowCount(n - 1);
      assert Outside([], n) == Outside([], n - 1) + {n - 1};
    }
  }

  /** Distinct numbers below n leave n minus as many out. */
  lemma {:induction false} LeftOver(order: seq<nat>, n: nat)
    requires Distinct(order) && forall k :: 0 <= k < |order| ==> order[k] < n
    ensures |Outside(order, n)| == n - |order|
  {
    if order == [] {
      BelowCount(n);
    } else {
      var init, last := order[..|order| - 1], order[|order| - 1];
      assert order == init + [last];
      LeftOver(init, n);
      assert last in Outside(init, n) && Outside(order, n) == Outside(init, n) - {last};
    }
  }
}
