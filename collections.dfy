/**
 * Order-free views of a dictionary: the multiset of its values and the sum
 * of its values.  Both take the entries one at a time through Pick; the
 * lemmas show that the result does not depend on which entry is taken
 * first.
 */
module Collections {

  /** Some key of a non-empty map. */
  ghost function Pick<K, V>(m: map<K, V>): (k: K)
    requires m != map[]
    ensures k in m
  {
    var k :| k in m; k
  }

  /** The values of a map, with multiplicity. */
  ghost function Values<K, V>(m: map<K, V>): multiset<V>
    decreases |m|
  {
    if m == map[] then multiset{}
    else
      var k := Pick(m);
      multiset{m[k]} + Values(m - {k})
  }

  /** The sum of the values of a map of numbers. */
  ghost function Sum<K>(m: map<K, real>): real
    decreases |m|
  {
    if m == map[] then 0.0
    else
      var k := Pick(m);
      m[k] + Sum(m - {k})
  }

  lemma RemoveTwice<K, V>(m: map<K, V>, j: K, k: K)
    ensures m - {j} - {k} == m - {k} - {j}
  {
  }

  /** Any entry can be taken out first. */
  lemma {:induction false} ValuesRemove<K, V>(m: map<K, V>, k: K)
    requires k in m
    ensures Values(m) == multiset{m[k]} + Values(m - {k})
    decreases |m|
  {
    var j := Pick(m);
    if j != k {
      ValuesRemove(m - {j}, k);
      ValuesRemove(m - {k}, j);
      RemoveTwice(m, j, k);
    }
  }

  /** Any entry can be taken out of the sum first. */
  lemma {:induction false} SumRemove<K>(m: map<K, real>, k: K)
    requires k in m
    ensures Sum(m) == m[k] + Sum(m - {k})
    decreases |m|
  {
    var j := Pick(m);
    if j != k {
      SumRemove(m - {j}, k);
      SumRemove(m - {k}, j);
      RemoveTwice(m, j, k);
    }
  }

  /** Adding a new key adds its value to the sum. */
  lemma SumAdd<K>(m: map<K, real>, k: K, v: real)
    requires k !in m
    ensures Sum(m[k := v]) == Sum(m) + v
  {
    SumRemove(m[k := v], k);
    assert m[k := v] - {k} == m;
  }

  /** Adding a new key adds its value once. */
  lemma ValuesAdd<K, V>(m: map<K, V>, k: K, v: V)
    requires k !in m
    ensures Values(m[k := v]) == Values(m) + multiset{v}
  {
    ValuesRemove(m[k := v], k);
    assert m[k := v] - {k} == m;
  }

  /** Replacing the value of a present key swaps one value for the other. */
  lemma ValuesReplace<K, V>(m: map<K, V>, k: K, v: V)
    requires k in m
    ensures Values(m[k := v]) == Values(m) - multiset{m[k]} + multiset{v}
  {
    var m' := m[k := v];
    var rest := Values(m - {k});
    ValuesRemove(m', k);
    ValuesRemove(m, k);
    assert m' - {k} == m - {k};
    assert Values(m') == multiset{v} + rest;
    assert Values(m) == multiset{m[k]} + rest;
    Swap(rest, m[k], v);
  }

  lemma Swap<V>(rest: multiset<V>, x: V, y: V)
    ensures (multiset{x} + rest) - multiset{x} + multiset{y} == multiset{y} + rest
  {
  }

  /** The number of values is the number of keys. */
  lemma {:induction false} ValuesSize<K, V>(m: map<K, V>)
    ensures |Values(m)| == |m|
    decreases |m|
  {
    if m != map[] {
      ValuesSize(m - {Pick(m)});
    }
  }

  /** Every value of the map, and nothing else, is among its values. */
  lemma {:induction false} ValuesMembers<K, V>(m: map<K, V>, v: V)
    ensures v in Values(m) <==> exists k :: k in m && m[k] == v
    decreases |m|
  {
    if m != map[] {
      var k := Pick(m);
      ValuesMembers(m - {k}, v);
      if v in Values(m - {k}) {
        var k' :| k' in m - {k} && (m - {k})[k'] == v;
        assert k' in m && m[k'] == v;
      }
      if exists k' :: k' in m && m[k'] == v {
        var k' :| k' in m && m[k'] == v;
        if k' != k {
          assert k' in m - {k} && (m - {k})[k'] == v;
        }
      }
    }
  }

  /** The sum of a finite set of numbers. */
  ghost function SetSum(s: set<real>): real
    decreases |s|
  {
    if s == {} then 0.0
    else
      var x := PickElement(s);
      x + SetSum(s - {x})
  }

  /** Some element of a non-empty set. */
  ghost function PickElement<T>(s: set<T>): (x: T)
    requires s != {}
    ensures x in s
  {
    var x :| x in s; x
  }

  /** Any element can be taken out of the sum first. */
  lemma {:induction false} SetSumRemove(s: set<real>, x: real)
    requires x in s
    ensures SetSum(s) == x + SetSum(s - {x})
    decreases |s|
  {
    var y := PickElement(s);
    if y != x {
      SetSumRemove(s - {y}, x);
      SetSumRemove(s - {x}, y);
      assert s - {y} - {x} == s - {x} - {y};
    }
  }
}
