/** The buffer of a node's own recently bartered chunks, oldest out first. */
module HostBuffer {
  import opened Bytes
  import opened FifoTable

  type ChunkId = Bytes32

  datatype Item = Item(id: ChunkId, data: seq<byte>, createdAt: nat)

  // ---------------------------------------------------------------- the simple list

  function Weight(items: seq<Item>): nat {
    if items == [] then 0 else |items[0].data| + Weight(items[1..])
  }

  function Drop(items: seq<Item>, id: ChunkId): seq<Item> {
    if items == [] then []
    else if items[0].id == id then Drop(items[1..], id)
    else [items[0]] + Drop(items[1..], id)
  }

  /** The longest suffix within the budget. */
  function LongestFitting(items: seq<Item>, budget: nat): seq<Item> {
    if Weight(items) <= budget || items == [] then items else LongestFitting(items[1..], budget)
  }

  function Inserted(items: seq<Item>, maxSize: nat, item: Item): seq<Item> {
    if |item.data| > maxSize then items
    else LongestFitting(Drop(items, item.id), maxSize - |item.data|) + [item]
  }

  lemma {:induction false} WeightAppend(items: seq<Item>, item: Item)
    ensures Weight(items + [item]) == Weight(items) + |item.data|
  {
    if items == [] {
      assert items + [item] == [item];
      assert Weight([item]) == |item.data| + Weight([]);
    } else {
      WeightAppend(items[1..], item);
      assert (items + [item])[1..] == items[1..] + [item];
    }
  }

  /** What remains is a suffix, it fits, and no longer suffix fits. */
  lemma {:induction false} LongestFittingIsLongest(items: seq<Item>, budget: nat) returns (k: nat)
    ensures k <= |items| && LongestFitting(items, budget) == items[k..]
    ensures Weight(items[k..]) <= budget
    ensures forall j :: 0 <= j < k ==> Weight(items[j..]) > budget
  {
    if Weight(items) <= budget {
      k := 0;
      assert items[0..] == items;
    } else if items != [] {
      var rest := LongestFittingIsLongest(items[1..], budget);
      k := rest + 1;
      assert items[1..][rest..] == items[k..];
      forall j | 0 <= j < k ensures Weight(items[j..]) > budget {
        if j == 0 {
          assert items[0..] == items;
        } else {
          assert items[1..][j - 1..] == items[j..];
        }
      }
    }
  }

  lemma {:induction false} DropRemoves(items: seq<Item>, id: ChunkId)
    ensures forall x :: x in Drop(items, id) <==> x in items && x.id != id
    ensures Weight(Drop(items, id)) <= Weight(items)
  {
    if items != [] {
      DropRemoves(items[1..], id);
      assert items == [items[0]] + items[1..];
      if items[0].id != id {
        assert Drop(items, id)[1..] == Drop(items[1..], id);
      }
    }
  }

  lemma FitsBeside(others: seq<Item>, maxSize: nat, item: Item) returns (k: nat)
    requires |item.data| <= maxSize
    ensures k <= |others| && LongestFitting(others, maxSize - |item.data|) == others[k..]
    ensures Weight(others[k..] + [item]) <= maxSize
    ensures forall j :: 0 <= j < k ==> Weight(others[j..] + [item]) > maxSize
  {
    k := LongestFittingIsLongest(others, maxSize - |item.data|);
    WeightAppend(others[k..], item);
    forall j | 0 <= j < k ensures Weight(others[j..] + [item]) > maxSize {
      WeightAppend(others[j..], item);
    }
  }

  /** After an insert that is not refused, the total is within the limit, the new item is last, and
      the rest is the longest suffix of the old order without that id that fits beside it. */
  lemma InsertedFits(items: seq<Item>, maxSize: nat, item: Item) returns (others: seq<Item>, k: nat)
    requires |item.data| <= maxSize
    ensures forall x :: x in others <==> x in items && x.id != item.id
    ensures others == Drop(items, item.id) && k <= |others|
    ensures Inserted(items, maxSize, item) == others[k..] + [item]
    ensures Weight(Inserted(items, maxSize, item)) <= maxSize
    ensures forall j :: 0 <= j < k ==> Weight(others[j..] + [item]) > maxSize
  {
    others := Drop(items, item.id);
    DropRemoves(items, item.id);
    k := FitsBeside(others, maxSize, item);
  }

  /** An item is in the buffer after its insert, as the newest, if and only if it is within the limit by itself; a
      larger one changes nothing. */
  lemma KeptIff(items: seq<Item>, maxSize: nat, item: Item)
    ensures var after := Inserted(items, maxSize, item);
            if |item.data| <= maxSize then after != [] && after[|after| - 1] == item else after == items
  {
  }

  // ---------------------------------------------------------------- the real structure

  datatype Held = Held(data: seq<byte>, createdAt: nat)

  /** The list that a queue and a map stand for. */
  function Items(order: seq<ChunkId>, buffer: map<ChunkId, Held>): (items: seq<Item>)
    requires forall id :: id in order ==> id in buffer
    ensures |items| == |order|
  {
    if order == [] then []
    else [Item(order[0], buffer[order[0]].data, buffer[order[0]].createdAt)] + Items(order[1..], buffer)
  }

  lemma {:induction false} ItemsSame(order: seq<ChunkId>, a: map<ChunkId, Held>, b: map<ChunkId, Held>)
    requires forall id :: id in order ==> id in a && id in b && a[id] == b[id]
    ensures Items(order, a) == Items(order, b)
  {
    if order != [] {
      ItemsSame(order[1..], a, b);
    }
  }

  lemma {:induction false} ItemsWithout(order: seq<ChunkId>, buffer: map<ChunkId, Held>, id: ChunkId)
    requires forall x :: x in order ==> x in buffer
    ensures forall x :: x in Without(order, {id}) ==> x in buffer
    ensures Items(Without(order, {id}), buffer) == Drop(Items(order, buffer), id)
  {
    WithoutMembers(order, {id});
    if order != [] {
      ItemsWithout(order[1..], buffer, id);
      assert Items(order, buffer)[1..] == Items(order[1..], buffer);
      if order[0] != id {
        assert Without(order, {id})[1..] == Without(order[1..], {id});
      }
    }
  }

  /** Taking one listed key out takes its weight out. */
  lemma {:induction false} WeightWithout(order: seq<ChunkId>, buffer: map<ChunkId, Held>, id: ChunkId)
    requires Distinct(order) && forall x :: x in order ==> x in buffer
    ensures Weight(Items(order, buffer))
         == Weight(Drop(Items(order, buffer), id)) + if id in order then |buffer[id].data| else 0
  {
    if order != [] {
      WeightWithout(order[1..], buffer, id);
      assert Items(order, buffer)[1..] == Items(order[1..], buffer);
      if order[0] != id {
        assert Drop(Items(order, buffer), id)[1..] == Drop(Items(order[1..], buffer), id);
      }
    }
  }

  lemma {:induction false} ItemsAppend(order: seq<ChunkId>, buffer: map<ChunkId, Held>, id: ChunkId)
    requires id in buffer && forall x :: x in order ==> x in buffer
    ensures Items(order + [id], buffer) == Items(order, buffer) + [Item(id, buffer[id].data, buffer[id].createdAt)]
  {
    if order == [] {
      assert order + [id] == [id];
      assert Items([id], buffer) == [Item(id, buffer[id].data, buffer[id].createdAt)] + Items([], buffer);
    } else {
      assert (order + [id])[1..] == order[1..] + [id];
      ItemsAppend(order[1..], buffer, id);
    }
  }

  class HostBuffer {
    var buffer: map<ChunkId, Held>
    var order: seq<ChunkId>
    const maxSize: nat
    var currentSize: nat

    /** The queue lists the keys once each and the tracked size is the real one, within the limit. */
    ghost predicate Valid()
      reads this
    {
      && Distinct(order)
      && (forall id :: id in order <==> id in buffer)
      && currentSize == Weight(Items(order, buffer)) <= maxSize
    }

    ghost function Contents(): seq<Item>
      requires Valid()
      reads this
    {
      Items(order, buffer)
    }

    constructor (max: nat)
      ensures Valid() && Contents() == [] && maxSize == max
    {
      buffer, order, maxSize, currentSize := map[], [], max, 0;
    }

    method Remove(id: ChunkId)
      requires Valid()
      modifies this
      ensures Valid() && Contents() == Drop(old(Contents()), id) && id !in order
    {
      ItemsWithout(order, buffer, id);
      WeightWithout(order, buffer, id);
      WithoutMembers(order, {id});
      if id in buffer {
        currentSize := SatSub(currentSize, |buffer[id].data|);
        buffer := buffer - {id};
        order := Without(order, {id});
        ItemsSame(order, old(buffer), buffer);
      } else {
        WithoutNothing(order, {id});
      }
    }

    /** Takes the oldest out. */
    method PopFront()
      requires Valid() && order != []
      modifies this
      ensures Valid() && Contents() == old(Contents())[1..] && order == old(order)[1..]
    {
      var oldId := order[0];
      assert Items(order, buffer)[1..] == Items(order[1..], buffer);
      assert order == [oldId] + order[1..];
      order := order[1..];
      currentSize := SatSub(currentSize, |buffer[oldId].data|);
      buffer := buffer - {oldId};
      ItemsSame(order, old(buffer), buffer);
    }

    method PushBack(id: ChunkId, data: seq<byte>, createdAt: nat)
      requires Valid() && id !in order && currentSize + |data| <= maxSize
      modifies this
      ensures Valid() && Contents() == old(Contents()) + [Item(id, data, createdAt)]
    {
      ghost var rest, was, before := Contents(), buffer, order;
      DistinctAppend(order, id);
      order := order + [id];
      currentSize := currentSize + |data|;
      buffer := buffer[id := Held(data, createdAt)];
      ItemsSame(before, was, buffer);
      ItemsAppend(before, buffer, id);
      WeightAppend(rest, Item(id, data, createdAt));
    }

    /** The eviction loop: the queue shrinks at every turn, and is never found empty too early. */
    method EvictUntil(len: nat)
      requires Valid() && len <= maxSize
      modifies this
      ensures Valid() && currentSize + len <= maxSize
      ensures Contents() == LongestFitting(old(Contents()), maxSize - len)
      ensures forall id :: id in order ==> id in old(order)
    {
      while currentSize + len > maxSize
        invariant Valid()
        invariant LongestFitting(Contents(), maxSize - len) == LongestFitting(old(Contents()), maxSize - len)
        invariant forall id :: id in order ==> id in old(order)
        decreases |order|
      {
        if order == [] {
          break;
        }
        PopFront();
      }
    }

    method Insert(id: ChunkId, data: seq<byte>, createdAt: nat)
      requires Valid()
      modifies this
      ensures Valid() && Contents() == Inserted(old(Contents()), maxSize, Item(id, data, createdAt))
    {
      if |data| > maxSize {
        return;
      }
      Remove(id);
      EvictUntil(|data|);
      PushBack(id, data, createdAt);
    }
  }
}
