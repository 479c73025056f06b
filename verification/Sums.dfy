/** The sum of a map's values, in whatever order they are taken. */
module Sums {

  ghost function Total(m: map<string, int>): int
    decreases |m|
  {
    if m == map[] then 0
    else
      var k :| k in m;
      m[k] + Total(m - {k})
  }

  lemma {:induction false} TotalRemove(m: map<string, int>, k: string)
    requires k in m
    ensures Total(m) == m[k] + Total(m - {k})
    decreases |m|
  {
    var first :| first in m && Total(m) == m[first] + Total(m - {first});
    if first != k {
      TotalRemove(m - {first}, k);
      TotalRemove(m - {k}, first);
      assert m - {first} - {k} == m - {k} - {first};
    }
  }

  lemma TotalUpdate(m: map<string, int>, k: string, v: int)
    requires k in m
    ensures Total(m[k := v]) == Total(m) - m[k] + v
  {
    TotalRemove(m, k);
    TotalRemove(m[k := v], k);
    assert m[k := v] - {k} == m - {k};
  }

  /** No value exceeds the sum of non-negative values. */
  lemma {:induction false} TotalCoversMember(m: map<string, int>, k: string)
    requires k in m && forall x | x in m :: m[x] >= 0
    ensures 0 <= m[k] <= Total(m)
  {
    TotalRemove(m, k);
    TotalIsNonNegative(m - {k});
  }

  lemma {:induction false} TotalIsNonNegative(m: map<string, int>)
    requires forall x | x in m :: m[x] >= 0
    ensures Total(m) >= 0
    decreases |m|
  {
    if m != map[] {
      var k :| k in m;
      TotalRemove(m, k);
      TotalIsNonNegative(m - {k});
    }
  }
}
