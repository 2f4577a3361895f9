/**
 * Sums of stored values over a set of names. The reconciliation loop
 * (testing.py:89-95) walks `uos.listdir` in an order the file system chooses;
 * `SumOf` is the order-free total it is proved to compute.
 */
module Sums {

  /** The sum of m's values over the keys ks, in no particular order. */
  ghost function SumOf<K>(m: map<K, real>, ks: set<K>): real
    requires ks <= m.Keys
    decreases ks
  {
    if ks == {} then 0.0 else var k :| k in ks; m[k] + SumOf(m, ks - {k})
  }

  /** Any key may be taken first: the sum does not depend on the order of the keys. */
  lemma {:induction false} SumOfRemove<K>(m: map<K, real>, ks: set<K>, k: K)
    requires ks <= m.Keys && k in ks
    ensures SumOf(m, ks) == m[k] + SumOf(m, ks - {k})
    decreases ks
  {
    var j :| j in ks && SumOf(m, ks) == m[j] + SumOf(m, ks - {j});
    if j != k {
      SumOfRemove(m, ks - {j}, k);
      SumOfRemove(m, ks - {k}, j);
      assert ks - {j} - {k} == ks - {k} - {j};
    }
  }

  /** Adding a fresh key to the map and to the set adds its value to the sum. */
  lemma SumOfInsert<K>(m: map<K, real>, ks: set<K>, k: K, v: real)
    requires ks <= m.Keys && k !in ks
    ensures SumOf(m[k := v], ks + {k}) == v + SumOf(m, ks)
  {
    SumOfRemove(m[k := v], ks + {k}, k);
    assert ks + {k} - {k} == ks;
    SumOfAgree(m[k := v], m, ks);
  }

  /** Two maps that agree on ks have the same sum over ks. */
  lemma {:induction false} SumOfAgree<K>(m1: map<K, real>, m2: map<K, real>, ks: set<K>)
    requires ks <= m1.Keys && ks <= m2.Keys
    requires forall k :: k in ks ==> m1[k] == m2[k]
    ensures SumOf(m1, ks) == SumOf(m2, ks)
    decreases ks
  {
    if ks != {} {
      var k :| k in ks;
      SumOfRemove(m1, ks, k);
      SumOfRemove(m2, ks, k);
      SumOfAgree(m1, m2, ks - {k});
    }
  }

  /** A sum of non-negative values is non-negative. */
  lemma {:induction false} SumOfNonNegative<K>(m: map<K, real>, ks: set<K>)
    requires ks <= m.Keys
    requires forall k :: k in ks ==> m[k] >= 0.0
    ensures SumOf(m, ks) >= 0.0
    decreases ks
  {
    if ks != {} {
      var k :| k in ks;
      SumOfRemove(m, ks, k);
      SumOfNonNegative(m, ks - {k});
    }
  }

  /** The running total a loop over one particular listing of the keys accumulates. */
  function SumInOrder<K>(m: map<K, real>, listing: seq<K>): real
    requires forall i :: 0 <= i < |listing| ==> listing[i] in m
  {
    if |listing| == 0 then 0.0 else m[listing[0]] + SumInOrder(m, listing[1..])
  }

  ghost predicate Distinct<K>(listing: seq<K>)
  {
    forall i, j :: 0 <= i < j < |listing| ==> listing[i] != listing[j]
  }

  /**
   * Whatever order a listing without repetitions presents the keys in, the
   * running total is the order-free sum over the listed keys.
   */
  lemma {:induction false} ListingOrderIrrelevant<K>(m: map<K, real>, listing: seq<K>)
    requires forall i :: 0 <= i < |listing| ==> listing[i] in m
    requires Distinct(listing)
    ensures SumInOrder(m, listing) == SumOf(m, set k | k in listing)
  {
    var ks := set k | k in listing;
    if |listing| > 0 {
      var rest := listing[1..];
      assert (set k | k in rest) == ks - {listing[0]} by {
        forall k | k in ks - {listing[0]} ensures k in rest {
          var i :| 0 <= i < |listing| && listing[i] == k;
          assert i != 0;
          assert rest[i - 1] == k;
        }
      }
      ListingOrderIrrelevant(m, rest);
      SumOfRemove(m, ks, listing[0]);
    }
  }

  /** The sum of a sequence of values. */
  function Total(xs: seq<real>): real
  {
    if |xs| == 0 then 0.0 else xs[0] + Total(xs[1..])
  }

  lemma {:induction false} TotalAppend(xs: seq<real>, ys: seq<real>)
    ensures Total(xs + ys) == Total(xs) + Total(ys)
  {
    if |xs| > 0 {
      assert (xs + ys)[1..] == xs[1..] + ys;
      TotalAppend(xs[1..], ys);
    } else {
      assert xs + ys == ys;
    }
  }
}
