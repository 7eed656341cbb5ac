/** Equality of maps and sets, and sums over maps. */
module Maps {

  lemma {:induction false} SameMap<K, V>(m: map<K, V>, m': map<K, V>)
    requires forall k :: k in m <==> k in m'
    requires forall k :: k in m ==> m[k] == m'[k]
    ensures m == m'
  {
  }

  lemma {:induction false} SameSet<T>(s: set<T>, s': set<T>)
    requires forall x :: x in s <==> x in s'
    ensures s == s'
  {
  }

  /** The sum of the values at the given keys. */
  ghost function Sum<K>(keys: set<K>, m: map<K, int>): int
    requires keys <= m.Keys
  {
    if keys == {} then 0 else
    var k :| k in keys;
    m[k] + Sum(keys - {k}, m)
  }

  /** The sum of the values of a map. */
  ghost function Total<K>(m: map<K, int>): int {
    Sum(m.Keys, m)
  }

  lemma {:induction false} SumAt<K>(keys: set<K>, m: map<K, int>, k: K)
    requires keys <= m.Keys && k in keys
    ensures Sum(keys, m) == m[k] + Sum(keys - {k}, m)
  {
    var j :| j in keys && Sum(keys, m) == m[j] + Sum(keys - {j}, m);
    if j != k {
      SumAt(keys - {j}, m, k);
      SumAt(keys - {k}, m, j);
      assert keys - {j} - {k} == keys - {k} - {j};
    }
  }

  lemma {:induction false} SumSame<K>(keys: set<K>, m: map<K, int>, m': map<K, int>)
    requires keys <= m.Keys && keys <= m'.Keys && forall k :: k in keys ==> m[k] == m'[k]
    ensures Sum(keys, m) == Sum(keys, m')
  {
    if keys != {} {
      var k :| k in keys;
      SumAt(keys, m, k);
      SumAt(keys, m', k);
      SumSame(keys - {k}, m, m');
    }
  }

  lemma {:induction false} TotalUpdate<K>(m: map<K, int>, k: K, v: int)
    requires k in m
    ensures Total(m[k := v]) == Total(m) - m[k] + v
  {
    var m' := m[k := v];
    assert m'.Keys == m.Keys;
    SumAt(m.Keys, m, k);
    SumAt(m.Keys, m', k);
    SumSame(m.Keys - {k}, m, m');
  }

  lemma {:induction false} TotalInsert<K>(m: map<K, int>, k: K, v: int)
    requires k !in m
    ensures Total(m[k := v]) == Total(m) + v
  {
    var m' := m[k := v];
    assert m'.Keys - {k} == m.Keys;
    SumAt(m'.Keys, m', k);
    SumSame(m.Keys, m, m');
  }

  lemma {:induction false} SumZero<K>(keys: set<K>, m: map<K, int>)
    requires keys <= m.Keys && forall k :: k in keys ==> m[k] == 0
    ensures Sum(keys, m) == 0
  {
    if keys != {} {
      var k :| k in keys;
      SumAt(keys, m, k);
      SumZero(keys - {k}, m);
    }
  }

  lemma {:induction false} TotalOne<K>(m: map<K, int>, k: K)
    requires m.Keys <= {k}
    ensures Total(m) == if k in m then m[k] else 0
  {
    if k in m {
      SumAt(m.Keys, m, k);
      SumZero(m.Keys - {k}, m);
    } else {
      SumZero(m.Keys, m);
    }
  }
}
