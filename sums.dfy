/** Sums over the values of an address-keyed table. JavaScript sums such a
    table by walking Object.keys in insertion order; a sum does not depend on
    the order, and SumValuesRemove is the fact that says so. */
module Sums {

  /** A fixed but unspecified element of a non-empty set. */
  ghost function Pick(s: set<string>): (x: string)
    requires s != {}
    ensures x in s
  {
    var x :| x in s; x
  }

  ghost function SumValues(m: map<string, nat>): nat
    decreases |m|
  {
    if m == map[] then 0
    else
      var k := Pick(m.Keys);
      assert |(m - {k}).Keys| == |m.Keys| - 1 by {
        assert (m - {k}).Keys == m.Keys - {k};
      }
      m[k] + SumValues(m - {k})
  }

  /** Taking any one key out of the sum: the sum is independent of key order. */
  lemma {:induction false} SumValuesRemove(m: map<string, nat>, k: string)
    requires k in m
    ensures SumValues(m) == m[k] + SumValues(m - {k})
    decreases |m|
  {
    var j := Pick(m.Keys);
    if j != k {
      var mj := m - {j};
      var mk := m - {k};
      assert (mj - {k}) == (mk - {j});
      assert |mj.Keys| == |m.Keys| - 1 by { assert mj.Keys == m.Keys - {j}; }
      assert |mk.Keys| == |m.Keys| - 1 by { assert mk.Keys == m.Keys - {k}; }
      SumValuesRemove(mj, k);
      SumValuesRemove(mk, j);
    }
  }
}
