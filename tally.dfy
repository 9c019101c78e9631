/**
  Frequency tables as the tool builds them: a dictionary from key to count,
  updated by "get or default, then increment".
 */
module Tally {

  /** `m.get(k, 0)`. */
  function Get<K>(m: map<K, nat>, k: K): (n: nat)
    ensures k in m ==> n == m[k]
    ensures k !in m ==> n == 0
  {
    if k in m then m[k] else 0
  }

  /** `m[k] = m.get(k, 0) + 1`: the entry for `k` goes up by one and is
      created if it was missing; every other entry stays as it was. */
  function Bump<K(!new)>(m: map<K, nat>, k: K): (r: map<K, nat>)
    ensures r.Keys == m.Keys + {k}
    ensures Get(r, k) == Get(m, k) + 1
    ensures forall j :: j != k ==> Get(r, j) == Get(m, j)
  {
    m[k := Get(m, k) + 1]
  }

  /** `m` holds, for every key, how often it occurs in `occurrences`, and
      holds no other key. */
  ghost predicate Tallies<K(!new)>(m: map<K, nat>, occurrences: multiset<K>) {
    && (forall k :: k in m <==> k in occurrences)
    && (forall k :: k in m ==> m[k] == occurrences[k])
  }

  lemma BumpTallies<K(!new)>(m: map<K, nat>, occurrences: multiset<K>, k: K)
    requires Tallies(m, occurrences)
    ensures Tallies(Bump(m, k), occurrences + multiset{k})
  {
  }

  /** `sum(m.values())`. */
  ghost function Sum<K>(m: map<K, nat>): nat
    decreases |m|
  {
    if m == map[] then 0
    else
      var k :| k in m;
      m[k] + Sum(m - {k})
  }

  lemma {:induction false} SumRemove<K>(m: map<K, nat>, k: K)
    requires k in m
    ensures Sum(m) == m[k] + Sum(m - {k})
    decreases |m|
  {
    var j :| j in m && Sum(m) == m[j] + Sum(m - {j});
    if j != k {
      SumRemove(m - {j}, k);
      SumRemove(m - {k}, j);
      assert m - {j} - {k} == m - {k} - {j};
    }
  }

  /** One increment adds exactly one to the total of a table. */
  lemma SumBump<K(!new)>(m: map<K, nat>, k: K)
    ensures Sum(Bump(m, k)) == Sum(m) + 1
  {
    var r := Bump(m, k);
    SumRemove(r, k);
    if k in m {
      SumRemove(m, k);
      assert r - {k} == m - {k};
    } else {
      assert r - {k} == m;
    }
  }
}
