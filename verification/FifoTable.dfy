/** Bounded tables that evict their oldest entry: a map together with a queue of its keys. */
module FifoTable {
  import Sums

  datatype Table<K(==), V> = Table(entries: map<K, V>, order: seq<K>)

  /** The queue without some keys. */
  function Without<K(==)>(order: seq<K>, dead: set<K>): seq<K> {
    if order == [] then []
    else if order[0] in dead then Without(order[1..], dead)
    else [order[0]] + Without(order[1..], dead)
  }

  /** A full table drops the front of its queue. */
  function MakeRoom<K, V>(t: Table<K, V>, cap: nat): Table<K, V> {
    if |t.entries| >= cap && t.order != [] then Table(t.entries - {t.order[0]}, t.order[1..]) else t
  }

  /** A new entry goes to the back. */
  function Insert<K, V>(t: Table<K, V>, cap: nat, k: K, v: V): Table<K, V> {
    var room := MakeRoom(t, cap);
    Table(room.entries[k := v], room.order + [k])
  }

  function RemoveAll<K, V>(t: Table<K, V>, dead: set<K>): Table<K, V> {
    Table(t.entries - dead, Without(t.order, dead))
  }

  ghost predicate Distinct<K>(order: seq<K>) {
    order == [] || (order[0] !in order[1..] && Distinct(order[1..]))
  }

  /** The queue lists exactly the map's keys, once each, and there are at most `cap` of them. */
  ghost predicate Mirror<K(!new), V>(t: Table<K, V>, cap: nat) {
    && Distinct(t.order)
    && (forall k :: k in t.order <==> k in t.entries)
    && |t.entries| <= cap
  }

  lemma {:induction false} WithoutMembers<K(!new)>(order: seq<K>, dead: set<K>)
    ensures forall k :: k in Without(order, dead) <==> k in order && k !in dead
    ensures Distinct(order) ==> Distinct(Without(order, dead))
  {
    if order != [] {
      WithoutMembers(order[1..], dead);
      if order[0] !in dead {
        assert Without(order, dead)[1..] == Without(order[1..], dead);
      }
    }
  }

  lemma {:induction false} WithoutTwice<K>(order: seq<K>, a: set<K>, b: set<K>)
    ensures Without(Without(order, a), b) == Without(order, a + b)
  {
    if order != [] {
      WithoutTwice(order[1..], a, b);
      if order[0] !in a {
        assert Without(order, a)[1..] == Without(order[1..], a);
      }
    }
  }

  lemma {:induction false} WithoutNothing<K>(order: seq<K>, dead: set<K>)
    requires forall k :: k in order ==> k !in dead
    ensures Without(order, dead) == order
  {
    if order != [] {
      WithoutNothing(order[1..], dead);
    }
  }

  /** Removing in two rounds is removing once. */
  lemma RemoveTwice<K, V>(t: Table<K, V>, a: set<K>, b: set<K>)
    ensures RemoveAll(RemoveAll(t, a), b) == RemoveAll(t, a + b)
  {
    WithoutTwice(t.order, a, b);
    assert (t.entries - a) - b == t.entries - (a + b);
  }

  /** The removal loop: keys are taken out one by one, in no particular order. */
  method RemoveEach<K, V>(t: Table<K, V>, dead: set<K>) returns (left: Table<K, V>)
    ensures left == RemoveAll(t, dead)
  {
    left := t;
    var todo := dead;
    WithoutNothing(t.order, dead - todo);
    assert t.entries - (dead - todo) == t.entries;
    while todo != {}
      invariant todo <= dead && left == RemoveAll(t, dead - todo)
      decreases |todo|
    {
      var k :| k in todo;
      RemoveTwice(t, dead - todo, {k});
      Sums.TakeOne(todo, dead, k);
      left := Table(left.entries - {k}, Without(left.order, {k}));
      todo := todo - {k};
    }
    assert dead - todo == dead;
  }

  lemma RemoveKeeps<K(!new), V>(t: Table<K, V>, dead: set<K>, cap: nat)
    requires Mirror(t, cap)
    ensures Mirror(RemoveAll(t, dead), cap)
  {
    WithoutMembers(t.order, dead);
    Cardinality((t.entries - dead).Keys, t.entries.Keys);
  }

  lemma Cardinality<K>(a: set<K>, b: set<K>)
    requires a <= b
    ensures |a| <= |b|
  {
    assert b == a + (b - a);
  }

  lemma {:induction false} DistinctAppend<K>(order: seq<K>, k: K)
    requires Distinct(order) && k !in order
    ensures Distinct(order + [k])
  {
    if order == [] {
      assert (order + [k])[1..] == [];
    } else {
      DistinctAppend(order[1..], k);
      assert (order + [k])[1..] == order[1..] + [k];
    }
  }

  lemma RoomKeeps<K(!new), V>(t: Table<K, V>, cap: nat)
    requires Mirror(t, cap) && cap > 0
    ensures Mirror(MakeRoom(t, cap), cap - 1)
  {
    if |t.entries| >= cap {
      assert |t.entries.Keys| > 0;
      var some :| some in t.entries.Keys;
      assert some in t.order;
      Sums.SmallerWithout(t.entries, t.order[0]);
      assert t.order == [t.order[0]] + t.order[1..];
    }
  }

  lemma InsertKeeps<K(!new), V>(t: Table<K, V>, cap: nat, k: K, v: V)
    requires Mirror(t, cap) && cap > 0 && k !in t.entries
    ensures Mirror(Insert(t, cap, k, v), cap)
  {
    RoomKeeps(t, cap);
    var room := MakeRoom(t, cap);
    DistinctAppend(room.order, k);
    assert room.entries[k := v].Keys == room.entries.Keys + {k};
  }

  lemma UpdateKeeps<K(!new), V>(t: Table<K, V>, cap: nat, k: K, v: V)
    requires Mirror(t, cap) && k in t.entries
    ensures Mirror(t.(entries := t.entries[k := v]), cap)
  {
    assert t.entries[k := v].Keys == t.entries.Keys;
  }

  /** Moving a key to the back of the queue. */
  lemma MoveKeeps<K(!new), V>(t: Table<K, V>, cap: nat, k: K)
    requires Mirror(t, cap) && k in t.entries
    ensures Mirror(t.(order := Without(t.order, {k}) + [k]), cap)
  {
    WithoutMembers(t.order, {k});
    DistinctAppend(Without(t.order, {k}), k);
  }

  /** Keys of the queue in order of an age. */
  ghost predicate Sorted<K(!new)>(order: seq<K>, age: map<K, nat>) {
    order != [] ==>
      && order[0] in age
      && (forall k :: k in order[1..] ==> k in age && age[order[0]] <= age[k])
      && Sorted(order[1..], age)
  }

  lemma {:induction false} WithoutSorted<K(!new)>(order: seq<K>, dead: set<K>, age: map<K, nat>)
    requires Sorted(order, age)
    ensures Sorted(Without(order, dead), age)
  {
    if order != [] {
      WithoutSorted(order[1..], dead, age);
      if order[0] !in dead {
        WithoutMembers(order[1..], dead);
        assert Without(order, dead)[1..] == Without(order[1..], dead);
      }
    }
  }

  lemma {:induction false} SortedAppend<K(!new)>(order: seq<K>, k: K, age: map<K, nat>)
    requires Sorted(order, age) && k in age
    requires forall x :: x in order ==> x in age && age[x] <= age[k]
    ensures Sorted(order + [k], age)
  {
    if order == [] {
      assert (order + [k])[1..] == [];
    } else {
      SortedAppend(order[1..], k, age);
      assert (order + [k])[1..] == order[1..] + [k];
    }
  }

  lemma {:induction false} SortedSame<K(!new)>(order: seq<K>, age: map<K, nat>, other: map<K, nat>)
    requires Sorted(order, age)
    requires forall k :: k in order && k in age ==> k in other && other[k] == age[k]
    ensures Sorted(order, other)
  {
    if order != [] {
      SortedSame(order[1..], age, other);
    }
  }

  // ---------------------------------------------------------------- how long a key stays

  lemma {:induction false} DistinctCount<K(!new)>(order: seq<K>)
    requires Distinct(order)
    ensures |Sums.KeySet(order)| == |order|
  {
    if order == [] {
      assert Sums.KeySet(order) == {};
    } else {
      DistinctCount(order[1..]);
      assert Sums.KeySet(order) == {order[0]} + Sums.KeySet(order[1..]);
    }
  }

  lemma MirrorCount<K(!new), V>(t: Table<K, V>, cap: nat)
    requires Mirror(t, cap)
    ensures |t.order| == |t.entries|
  {
    DistinctCount(t.order);
    assert Sums.KeySet(t.order) == t.entries.Keys;
  }

  /** How many keys stand behind `k` in the queue. */
  function Behind<K(==)>(order: seq<K>, k: K): nat {
    if order == [] then 0 else if order[0] == k then |order| - 1 else Behind(order[1..], k)
  }

  lemma {:induction false} BehindAppend<K>(order: seq<K>, k: K, last: K)
    requires k in order
    ensures Behind(order + [last], k) == Behind(order, k) + 1
  {
    if order[0] != k {
      assert (order + [last])[1..] == order[1..] + [last];
      BehindAppend(order[1..], k, last);
    }
  }

  lemma {:induction false} BehindLast<K>(order: seq<K>, k: K)
    requires k !in order
    ensures Behind(order + [k], k) == 0
  {
    if order != [] {
      assert (order + [k])[1..] == order[1..] + [k];
      BehindLast(order[1..], k);
    }
  }

  /** A key with fewer than `cap - 1` others behind it is not the one a new entry pushes out. */
  lemma InsertSpares<K(!new), V>(t: Table<K, V>, cap: nat, k: K, other: K, v: V)
    requires Mirror(t, cap) && cap > 0 && k in t.entries && other !in t.entries && Behind(t.order, k) + 1 < cap
    ensures k in Insert(t, cap, other, v).entries
    ensures Behind(Insert(t, cap, other, v).order, k) == Behind(t.order, k) + 1
  {
    MirrorCount(t, cap);
    var room := MakeRoom(t, cap);
    if |t.entries| >= cap {
      assert t.order[0] != k;
      assert t.order == [t.order[0]] + t.order[1..];
    }
    BehindAppend(room.order, k, other);
  }

  lemma {:induction false} BehindBound<K>(order: seq<K>, k: K)
    requires order != [] && order[0] != k
    ensures Behind(order, k) + 1 < |order| || k !in order
  {
    if |order| > 1 && order[1] != k {
      BehindBound(order[1..], k);
    }
  }

  /** A key with `cap - 1` others behind it is the one a new entry pushes out. */
  lemma InsertDrops<K(!new), V>(t: Table<K, V>, cap: nat, k: K, other: K, v: V)
    requires Mirror(t, cap) && k in t.entries && other !in t.entries && Behind(t.order, k) + 1 == cap
    ensures k !in Insert(t, cap, other, v).entries
  {
    MirrorCount(t, cap);
    if t.order[0] != k {
      BehindBound(t.order, k);
    }
  }
}
