/** Totals over finite maps and sequences, used by every byte counter in the model. */
module Sums {

  /** Sum of the weights of all values of `m`. */
  ghost function Sum<K, V>(m: map<K, V>, weight: V -> nat): nat
    decreases |m|
  {
    if m == map[] then 0
    else
      var k := AnyKey(m);
      SmallerWithout(m, k);
      weight(m[k]) + Sum(m - {k}, weight)
  }

  ghost function AnyKey<K, V>(m: map<K, V>): (k: K)
    requires m != map[]
    ensures k in m
  {
    assert m.Keys != {};
    var k :| k in m.Keys; k
  }

  lemma SmallerWithout<K, V>(m: map<K, V>, k: K)
    requires k in m
    ensures |m - {k}| == |m| - 1
  {
    assert (m - {k}).Keys == m.Keys - {k};
  }

  /** Which key is taken out first does not matter. */
  lemma {:induction false} SumRemove<K, V>(m: map<K, V>, weight: V -> nat, k: K)
    requires k in m
    ensures Sum(m, weight) == weight(m[k]) + Sum(m - {k}, weight)
    decreases |m|
  {
    var j := AnyKey(m);
    if j != k {
      SmallerWithout(m, j);
      SmallerWithout(m, k);
      SumRemove(m - {j}, weight, k);
      SumRemove(m - {k}, weight, j);
      assert (m - {j}) - {k} == (m - {k}) - {j};
    }
  }

  /** Inserting or replacing one value changes the total by the difference. */
  lemma SumUpdate<K, V>(m: map<K, V>, weight: V -> nat, k: K, v: V)
    ensures Sum(m[k := v], weight) == Sum(m - {k}, weight) + weight(v)
    ensures k !in m ==> Sum(m[k := v], weight) == Sum(m, weight) + weight(v)
    ensures k in m ==> Sum(m[k := v], weight) + weight(m[k]) == Sum(m, weight) + weight(v)
  {
    SumRemove(m[k := v], weight, k);
    assert m[k := v] - {k} == m - {k};
    if k in m {
      SumRemove(m, weight, k);
    } else {
      assert m - {k} == m;
    }
  }

  lemma {:induction false} SumOfNothing<K, V>(m: map<K, V>, weight: V -> nat)
    requires forall k :: k in m ==> weight(m[k]) == 0
    ensures Sum(m, weight) == 0
    decreases |m|
  {
    if m != map[] {
      var k := AnyKey(m);
      SmallerWithout(m, k);
      SumRemove(m, weight, k);
      SumOfNothing(m - {k}, weight);
    }
  }

  /** Total of the weights of a sequence. */
  ghost function SumSeq<V>(s: seq<V>, weight: V -> nat): nat {
    if s == [] then 0 else weight(s[0]) + SumSeq(s[1..], weight)
  }

  ghost predicate NoDuplicates<K(!new)>(s: seq<K>) {
    forall i, j :: 0 <= i < j < |s| ==> s[i] != s[j]
  }

  /** The values of `m` at the listed keys. */
  function Values<K, V>(m: map<K, V>, keys: seq<K>): (vs: seq<V>)
    requires forall k :: k in keys ==> k in m
    ensures |vs| == |keys|
    ensures forall i :: 0 <= i < |keys| ==> vs[i] == m[keys[i]]
  {
    seq(|keys|, i requires 0 <= i < |keys| => m[keys[i]])
  }

  ghost function KeySet<K(!new)>(s: seq<K>): set<K> {
    set k | k in s
  }

  /** Taking distinct keys out of a map moves exactly their weights out of the total. */
  lemma {:induction false} SumSplit<K(!new), V>(m: map<K, V>, keys: seq<K>, weight: V -> nat)
    requires NoDuplicates(keys)
    requires forall k :: k in keys ==> k in m
    ensures Sum(m, weight) == SumSeq(Values(m, keys), weight) + Sum(m - KeySet(keys), weight)
  {
    if keys == [] {
      assert m - KeySet(keys) == m;
    } else {
      var k, rest := keys[0], keys[1..];
      SumRemove(m, weight, k);
      forall x | x in rest ensures x in m - {k} {
        var i :| 0 <= i < |rest| && rest[i] == x;
        assert keys[i + 1] == x;
      }
      SumSplit(m - {k}, rest, weight);
      assert Values(m, keys)[1..] == Values(m - {k}, rest);
      assert (m - {k}) - KeySet(rest) == m - KeySet(keys);
    }
  }

  /** Visiting one more of the elements still to do. */
  lemma TakeOne<K>(todo: set<K>, all: set<K>, x: K)
    requires x in todo && todo <= all
    ensures |todo - {x}| < |todo| && todo - {x} <= all
    ensures all - (todo - {x}) == (all - todo) + {x}
  {
  }
}
