/** Sequence and map helpers shared by the pipeline stages. */
module Seqs {

  /** `a` is `b` with some elements left out and the rest kept in their order. */
  ghost predicate IsSubseq<T>(a: seq<T>, b: seq<T>)
    decreases |b|
  {
    if a == [] then true
    else if b == [] then false
    else if a[0] == b[0] then IsSubseq(a[1..], b[1..])
    else IsSubseq(a, b[1..])
  }

  /** The elements of `s` that satisfy `p`, in order (a DataFrame `filter`). */
  function Filter<T>(s: seq<T>, p: T -> bool): (r: seq<T>)
    ensures |r| <= |s|
    ensures forall x | x in r :: p(x)
    ensures forall x | x in r :: x in s
    ensures forall x | x in s :: x in r <==> p(x)
    ensures IsSubseq(r, s)
  {
    if s == [] then []
    else if p(s[0]) then
      var rest := Filter(s[1..], p);
      assert s == [s[0]] + s[1..];
      [s[0]] + rest
    else
      var rest := Filter(s[1..], p);
      assert s == [s[0]] + s[1..];
      assert rest != [] ==> rest[0] != s[0];
      rest
  }

  /** A filter keeps every occurrence of the elements it keeps and none of the others. */
  lemma {:induction false} FilterMultiset<T>(s: seq<T>, p: T -> bool)
    ensures forall x | x in s :: multiset(Filter(s, p))[x] == if p(x) then multiset(s)[x] else 0
  {
    if s != [] {
      FilterMultiset(s[1..], p);
      assert s == [s[0]] + s[1..];
    }
  }

  /** A filter whose predicate holds everywhere keeps the whole sequence. */
  lemma {:induction false} FilterKeepsAll<T>(s: seq<T>, p: T -> bool)
    requires forall x | x in s :: p(x)
    ensures Filter(s, p) == s
  {
    if s != [] {
      FilterKeepsAll(s[1..], p);
    }
  }

  /** A filter that keeps as many elements as it is given keeps all of them. */
  lemma {:induction false} FilterAllKept<T>(s: seq<T>, p: T -> bool)
    requires |Filter(s, p)| == |s|
    ensures forall x | x in s :: p(x)
  {
    if s != [] {
      assert s == [s[0]] + s[1..];
      FilterAllKept(s[1..], p);
    }
  }

  /** Filtering twice with the same predicate is filtering once. */
  lemma FilterIdempotent<T>(s: seq<T>, p: T -> bool)
    ensures Filter(Filter(s, p), p) == Filter(s, p)
  {
    FilterKeepsAll(Filter(s, p), p);
  }

  /** `f` applied to every element (a column projection `select`). */
  function Project<T, K>(s: seq<T>, f: T -> K): (r: seq<K>)
    ensures |r| == |s|
    ensures forall i | 0 <= i < |s| :: r[i] == f(s[i])
  {
    if s == [] then [] else [f(s[0])] + Project(s[1..], f)
  }

  /** Some key of a non-empty map. */
  ghost function Pick<K>(m: map<K, nat>): (k: K)
    requires |m| > 0
    ensures k in m
  {
    var k :| k in m; k
  }

  /** The sum of the values of a map. */
  ghost function SumValues<K>(m: map<K, nat>): nat
    decreases |m|
  {
    if |m| == 0 then 0
    else
      var k := Pick(m);
      assert m.Keys - {k} == (m - {k}).Keys;
      assert |(m - {k}).Keys| == |m.Keys| - 1;
      m[k] + SumValues(m - {k})
  }

  /** The sum can be taken by removing any key first, not only the one `Pick` chooses. */
  lemma {:induction false} SumValuesRemove<K>(m: map<K, nat>, k: K)
    requires k in m
    ensures SumValues(m) == m[k] + SumValues(m - {k})
    decreases |m|
  {
    var j := Pick(m);
    if j != k {
      assert (m - {j}).Keys == m.Keys - {j};
      assert (m - {k}).Keys == m.Keys - {k};
      SumValuesRemove(m - {j}, k);
      SumValuesRemove(m - {k}, j);
      assert (m - {j}) - {k} == (m - {k}) - {j};
    }
  }

  /** The distinct keys of `keys` with the number of times each occurs
    * (a DataFrame `groupBy(...).count()`). */
  function GroupCounts<K>(keys: seq<K>): map<K, nat> {
    if keys == [] then map[]
    else
      var m := GroupCounts(keys[1..]);
      var k := keys[0];
      m[k := if k in m then m[k] + 1 else 1]
  }

  /** The groups are exactly the keys that occur, each counted as often as it
    * occurs. */
  lemma {:induction false} GroupCountsSpec<K>(keys: seq<K>)
    ensures forall k | k in GroupCounts(keys) :: k in keys
    ensures forall k | k in keys :: k in GroupCounts(keys)
    ensures forall k | k in GroupCounts(keys) :: GroupCounts(keys)[k] == multiset(keys)[k]
  {
    if keys != [] {
      GroupCountsSpec(keys[1..]);
      assert keys == [keys[0]] + keys[1..];
    }
  }

  /** Setting one key of a map replaces its share of the sum. */
  lemma SumValuesUpdate<K>(m: map<K, nat>, k: K, v: nat)
    ensures SumValues(m[k := v]) == v + SumValues(m - {k})
  {
    SumValuesRemove(m[k := v], k);
    assert m[k := v] - {k} == m - {k};
  }

  /** Grouping one more key in front adds one to its count. */
  lemma GroupCountsCons<K>(keys: seq<K>)
    requires keys != []
    ensures var rest := GroupCounts(keys[1..]);
      GroupCounts(keys) == rest[keys[0] := if keys[0] in rest then rest[keys[0]] + 1 else 1]
  {
  }

  /** Counting one more occurrence of a key adds one to the sum. */
  lemma SumValuesIncrement<K>(m: map<K, nat>, k: K)
    ensures SumValues(m[k := if k in m then m[k] + 1 else 1]) == SumValues(m) + 1
  {
    var v := if k in m then m[k] + 1 else 1;
    SumValuesUpdate(m, k, v);
    if k in m {
      SumValuesRemove(m, k);
    } else {
      assert m - {k} == m;
    }
  }

  /** The group counts add up to the number of keys grouped. */
  lemma {:induction false} GroupCountsTotal<K>(keys: seq<K>)
    ensures SumValues(GroupCounts(keys)) == |keys|
  {
    if keys != [] {
      GroupCountsTotal(keys[1..]);
      GroupCountsCons(keys);
      SumValuesIncrement(GroupCounts(keys[1..]), keys[0]);
    }
  }
}
