/** Sums over the values of a map, as counters kept in dictionaries need them. */
module Tallies {
  type Counts = map<string, int>

  /** dict.get(key, 0) */
  function Get(m: Counts, k: string): int {
    if k in m then m[k] else 0
  }

  function Increment(m: Counts, k: string): Counts {
    m[k := Get(m, k) + 1]
  }

  ghost function Sum(m: Counts): int {
    if m == map[] then 0 else
      var k :| k in m;
      m[k] + Sum(m - {k})
  }

  lemma {:induction false} SumSplit(m: Counts, k: string)
    requires k in m
    ensures Sum(m) == m[k] + Sum(m - {k})
    decreases |m|
  {
    var j :| j in m && Sum(m) == m[j] + Sum(m - {j});
    if j != k {
      SumSplit(m - {j}, k);
      SumSplit(m - {k}, j);
      assert m - {j} - {k} == m - {k} - {j};
    }
  }

  lemma SumSet(m: Counts, k: string, v: int)
    ensures Sum(m[k := v]) == Sum(m) - Get(m, k) + v
  {
    SumSplit(m[k := v], k);
    if k in m {
      SumSplit(m, k);
      assert m[k := v] - {k} == m - {k};
    } else {
      assert m[k := v] - {k} == m;
    }
  }

  lemma SumIncrement(m: Counts, k: string)
    ensures Sum(Increment(m, k)) == Sum(m) + 1
  {
    SumSet(m, k, Get(m, k) + 1);
  }
}
