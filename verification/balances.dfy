/**
 * Address-keyed real-valued tables (QFC balances, carbon credits, liquidity
 * shares): lookup with a default of zero, and the total over all entries.
 */
module Balances {

  /** `table.get(k, 0)`. */
  function Get<K>(m: map<K, real>, k: K): (r: real)
    ensures k in m ==> r == m[k]
    ensures k !in m ==> r == 0.0
  {
    if k in m then m[k] else 0.0
  }

  /** Some key of a non-empty table. */
  ghost function Pick<K>(m: map<K, real>): (k: K)
    requires |m| > 0
    ensures k in m
  {
    assert m.Keys != {} by { assert |m.Keys| == |m|; }
    var k :| k in m; k
  }

  /** The sum of all entries of a table. */
  ghost function Total<K>(m: map<K, real>): real
    decreases |m|
  {
    if |m| == 0 then 0.0
    else
      var k := Pick(m);
      RemoveSize(m, k);
      m[k] + Total(m - {k})
  }

  lemma RemoveSize<K>(m: map<K, real>, k: K)
    requires k in m
    ensures |m - {k}| == |m| - 1
  {
    assert (m - {k}).Keys == m.Keys - {k};
  }

  /** The total may be split at any key, whichever key `Total` happened to pick. */
  lemma {:induction false} TotalRemove<K>(m: map<K, real>, k: K)
    requires k in m
    ensures Total(m) == m[k] + Total(m - {k})
    decreases |m|
  {
    RemoveSize(m, k);
    var j := Pick(m);
    if j != k {
      RemoveSize(m, j);
      TotalRemove(m - {j}, k);
      TotalRemove(m - {k}, j);
      assert m - {j} - {k} == m - {k} - {j};
    }
  }

  /** Overwriting one entry changes the total by the difference. */
  lemma TotalUpdate<K>(m: map<K, real>, k: K, v: real)
    ensures Total(m[k := v]) == Total(m) - Get(m, k) + v
  {
    var m' := m[k := v];
    TotalRemove(m', k);
    assert m' - {k} == m - {k};
    if k in m {
      TotalRemove(m, k);
    } else {
      assert m - {k} == m;
    }
  }

  /** Adding `d` to one entry (created at zero if absent) adds `d` to the total. */
  lemma TotalCredit<K>(m: map<K, real>, k: K, d: real)
    ensures Total(m[k := Get(m, k) + d]) == Total(m) + d
  {
    TotalUpdate(m, k, Get(m, k) + d);
  }

  /** The same, for a table `r` known to be the result of the credit. */
  lemma TotalCreditAt<K>(m: map<K, real>, k: K, d: real, r: map<K, real>)
    requires r == m[k := Get(m, k) + d]
    ensures Total(r) == Total(m) + d
  {
    TotalCredit(m, k, d);
  }

  /** Two successive credits (to the same or different keys) add both amounts to the total. */
  lemma TotalCreditTwice<K>(m: map<K, real>, a: K, da: real, b: K, db: real)
    ensures var m1 := m[a := Get(m, a) + da];
      Total(m1[b := Get(m1, b) + db]) == Total(m) + da + db
  {
    var m1 := m[a := Get(m, a) + da];
    TotalCredit(m, a, da);
    TotalCredit(m1, b, db);
  }

  /** The same, for a table `r` known to be the result of the two credits. */
  lemma TotalCreditTwiceAt<K>(m: map<K, real>, a: K, da: real, b: K, db: real, r: map<K, real>)
    requires var m1 := m[a := Get(m, a) + da];
      r == m1[b := Get(m1, b) + db]
    ensures Total(r) == Total(m) + da + db
  {
    TotalCreditTwice(m, a, da, b, db);
  }

  /** Every entry is non-negative. */
  predicate NonNegative<K>(m: map<K, real>)
  {
    forall k :: k in m ==> m[k] >= 0.0
  }
}
