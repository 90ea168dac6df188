/** Every path that stores or drops a chunk, and the byte counter that must follow the holder. */
module Storage {
  import opened Bytes
  import opened Swap
  import Sums
  import SwapNode

  const GRACE_PERIOD_SECS: nat := 7200

  /** The holder with its counter, the leases and the cache records (chunk and time cached). */
  datatype Store = Store(chunks: map<ChunkId, seq<byte>>, capacity: Capacity, leases: map<ChunkId, Lease>,
      cached: map<ChunkId, nat>)

  ghost predicate Agrees(st: Store) {
    st.capacity.currentBytes == HeldBytes(st.chunks)
  }

  // ---------------------------------------------------------------- operations

  function Add(st: Store, id: ChunkId, data: seq<byte>): Store {
    st.(chunks := st.chunks[id := data], capacity := st.capacity.RecordAccept(|data|))
  }

  function SizeOf(chunks: map<ChunkId, seq<byte>>, id: ChunkId): nat {
    if id in chunks then |chunks[id]| else 0
  }

  function Remove(st: Store, id: ChunkId): Store {
    st.(chunks := st.chunks - {id}, capacity := st.capacity.RecordRemove(SizeOf(st.chunks, id)))
  }

  /** A repaired chunk is stored if it fits after snapping the counter to the holder. */
  ghost function Repair(st: Store, id: ChunkId, data: seq<byte>): (Store, bool) {
    var snapped := st.(capacity := st.capacity.Reconcile(HeldBytes(st.chunks)));
    if !snapped.capacity.CanAccept(|data|, 0) then (snapped, false)
    else (if id in st.chunks then snapped else Add(snapped, id, data), true)
  }

  /** One of the cache records with the earliest time. */
  predicate Lru(cached: map<ChunkId, nat>, lru: Option<ChunkId>) {
    match lru
    case None => cached == map[]
    case Some(id) => id in cached && forall k :: k in cached ==> cached[id] <= cached[k]
  }

  function Evict(st: Store, id: ChunkId): Store {
    Remove(st, id).(cached := st.cached - {id})
  }

  function AddCached(st: Store, id: ChunkId, data: seq<byte>, now: nat): Store {
    var added := Add(st, id, data);
    added.(cached := added.cached[id := now])
  }

  /** A retrieved chunk is kept if it fits, at most one cached chunk making room for it. */
  function CacheRetrieved(st: Store, wanted: bool, id: ChunkId, data: seq<byte>, now: nat, maxCached: nat,
        lru: Option<ChunkId>): Store {
    if !wanted || id in st.chunks then st
    else if st.capacity.CanAccept(|data|, 0) then AddCached(st, id, data, now)
    else if maxCached == 0 || lru.None? then st
    else
      var freed := Evict(st, lru.value);
      if freed.capacity.CanAccept(|data|, 0) then AddCached(freed, id, data, now) else freed
  }

  predicate LeaseExpired(lease: Lease, now: nat) {
    lease.expiresAt < SatSub(now, GRACE_PERIOD_SECS)
  }

  function ExpiredLeases(leases: map<ChunkId, Lease>, now: nat): set<ChunkId> {
    set id | id in leases && LeaseExpired(leases[id], now)
  }

  /** The sweep drops each expired chunk with its lease. */
  function Sweep(st: Store, order: seq<ChunkId>): Store
    decreases |order|
  {
    if order == [] then st
    else
      var dropped := Remove(st, order[0]);
      Sweep(dropped.(leases := dropped.leases - {order[0]}), order[1..])
  }

  /** The trim drops cache records one after another. */
  function EvictAll(st: Store, picks: seq<ChunkId>): Store {
    if picks == [] then st else Evict(EvictAll(st, picks[..|picks| - 1]), picks[|picks| - 1])
  }

  /** Each pick is an oldest record of what the picks before it have left. */
  predicate OldestFirst(st: Store, picks: seq<ChunkId>) {
    picks == [] ||
    (&& OldestFirst(st, picks[..|picks| - 1])
     && Lru(EvictAll(st, picks[..|picks| - 1]).cached, Some(picks[|picks| - 1])))
  }

  // ---------------------------------------------------------------- the counter follows

  lemma AddAgrees(st: Store, id: ChunkId, data: seq<byte>)
    requires Agrees(st) && id !in st.chunks
    ensures Agrees(Add(st, id, data))
  {
    Sums.SumUpdate(st.chunks, LengthOf, id, data);
  }

  lemma RemoveAgrees(st: Store, id: ChunkId)
    requires Agrees(st)
    ensures Agrees(Remove(st, id))
  {
    if id in st.chunks {
      Sums.SumRemove(st.chunks, LengthOf, id);
    } else {
      assert st.chunks - {id} == st.chunks;
    }
  }

  lemma RepairAgrees(st: Store, id: ChunkId, data: seq<byte>)
    ensures Agrees(Repair(st, id, data).0)
  {
    var snapped := st.(capacity := st.capacity.Reconcile(HeldBytes(st.chunks)));
    if id !in st.chunks {
      AddAgrees(snapped, id, data);
    }
  }

  lemma CacheAgrees(st: Store, wanted: bool, id: ChunkId, data: seq<byte>, now: nat, maxCached: nat,
        lru: Option<ChunkId>)
    requires Agrees(st)
    ensures Agrees(CacheRetrieved(st, wanted, id, data, now, maxCached, lru))
  {
    if id !in st.chunks {
      AddAgrees(st, id, data);
      if lru.Some? {
        RemoveAgrees(st, lru.value);
        AddAgrees(Evict(st, lru.value), id, data);
      }
    }
  }

  lemma {:induction false} SweepAgrees(st: Store, order: seq<ChunkId>)
    requires Agrees(st)
    ensures Agrees(Sweep(st, order))
    decreases |order|
  {
    if order != [] {
      RemoveAgrees(st, order[0]);
      var dropped := Remove(st, order[0]);
      SweepAgrees(dropped.(leases := dropped.leases - {order[0]}), order[1..]);
    }
  }

  lemma {:induction false} EvictAllAgrees(st: Store, picks: seq<ChunkId>)
    requires Agrees(st)
    ensures Agrees(EvictAll(st, picks))
  {
    if picks != [] {
      EvictAllAgrees(st, picks[..|picks| - 1]);
      RemoveAgrees(EvictAll(st, picks[..|picks| - 1]), picks[|picks| - 1]);
    }
  }

  // ---------------------------------------------------------------- the operations in plain terms

  /** A sweep over any order drops exactly the chunks and leases it visits and leaves the rest alone. */
  lemma {:induction false} SweepDrops(st: Store, order: seq<ChunkId>)
    ensures var after, gone := Sweep(st, order), Sums.KeySet(order);
            && after.chunks == st.chunks - gone && after.leases == st.leases - gone && after.cached == st.cached
            && after.capacity.reservedBytes == st.capacity.reservedBytes
    decreases |order|
  {
    if order == [] {
      assert Sums.KeySet(order) == {} && st.chunks - {} == st.chunks && st.leases - {} == st.leases;
    } else {
      var dropped := Remove(st, order[0]);
      SweepDrops(dropped.(leases := dropped.leases - {order[0]}), order[1..]);
      assert Sums.KeySet(order) == {order[0]} + Sums.KeySet(order[1..]);
    }
  }

  /** The lease sweep, exactly: a lease and its chunk go if and only if the lease ended more than two hours ago;
      a chunk without a lease stays. */
  lemma SweepIsExact(st: Store, now: nat, order: seq<ChunkId>, id: ChunkId)
    requires Visits(order, {}, ExpiredLeases(st.leases, now))
    ensures var after := Sweep(st, order);
            && (id in after.leases <==> id in st.leases && now <= st.leases[id].expiresAt + 7200)
            && (id in after.chunks <==> id in st.chunks && (id in st.leases ==> now <= st.leases[id].expiresAt + 7200))
            && (id in after.leases ==> after.leases[id] == st.leases[id])
            && (id in after.chunks ==> after.chunks[id] == st.chunks[id])
  {
    SweepDrops(st, order);
  }

  /** Repair, exactly: the answer says whether the data fits beside what is really held and reserved; a chunk not
      yet held is stored then, a held one is left as it is, and nothing else is touched. */
  lemma RepairIsExact(st: Store, id: ChunkId, data: seq<byte>)
    ensures var (after, ok) := Repair(st, id, data);
            && (ok <==> && HeldBytes(st.chunks) + st.capacity.reservedBytes + |data| <= st.capacity.maxBytes
                        && 0 < st.capacity.maxChunksPerPeer)
            && after.chunks == (if ok && id !in st.chunks then st.chunks[id := data] else st.chunks)
            && after.leases == st.leases && after.cached == st.cached
            && after.capacity.reservedBytes == st.capacity.reservedBytes
  {
  }

  predicate Fits(st: Store, size: nat) {
    && st.capacity.currentBytes + st.capacity.reservedBytes + size <= st.capacity.maxBytes
    && 0 < st.capacity.maxChunksPerPeer
  }

  /** The cache, exactly: a chunk that is wanted and not held is kept with its time if it fits; else, if caching is
      on and there is a cache record, an oldest cached chunk goes, and the new one is kept if it fits then. */
  lemma CacheIsExact(st: Store, wanted: bool, id: ChunkId, data: seq<byte>, now: nat, maxCached: nat,
        lru: Option<ChunkId>)
    requires Lru(st.cached, lru)
    ensures var after := CacheRetrieved(st, wanted, id, data, now, maxCached, lru);
            var drops := wanted && id !in st.chunks && !Fits(st, |data|) && maxCached > 0 && st.cached != map[];
            var freed := if drops && lru.value in st.chunks then |st.chunks[lru.value]| else 0;
            var left := SatSub(st.capacity.currentBytes, freed) + st.capacity.reservedBytes;
            var fitsThen := left + |data| <= st.capacity.maxBytes && 0 < st.capacity.maxChunksPerPeer;
            var keeps := wanted && id !in st.chunks && (Fits(st, |data|) || (drops && fitsThen));
            var chunks := if drops then st.chunks - {lru.value} else st.chunks;
            var cached := if drops then st.cached - {lru.value} else st.cached;
            && after.chunks == (if keeps then chunks[id := data] else chunks)
            && after.cached == (if keeps then cached[id := now] else cached)
            && after.leases == st.leases && after.capacity.reservedBytes == st.capacity.reservedBytes
  {
  }

  // ---------------------------------------------------------------- the node's methods

  class StorageNode {
    var chunks: map<ChunkId, seq<byte>>
    var capacity: Capacity
    var leases: map<ChunkId, Lease>
    var cached: map<ChunkId, nat>

    function State(): Store
      reads this
    {
      Store(chunks, capacity, leases, cached)
    }

    constructor (maxBytes: nat)
      ensures State() == Store(map[], Capacity(maxBytes, 0, 0, 100), map[], map[])
    {
      chunks, capacity, leases, cached := map[], Capacity(maxBytes, 0, 0, 100), map[], map[];
    }

    method StoreRepairedChunk(id: ChunkId, data: seq<byte>) returns (stored: bool)
      modifies this
      ensures (State(), stored) == Repair(old(State()), id, data)
    {
      var actual := SwapNode.TotalBytes(chunks);
      capacity := capacity.Reconcile(actual);
      if !capacity.CanAccept(|data|, 0) {
        return false;
      }
      if id !in chunks {
        chunks := chunks[id := data];
        capacity := capacity.RecordAccept(|data|);
      }
      stored := true;
    }

    method LruCachedChunk() returns (lru: Option<ChunkId>)
      ensures Lru(cached, lru)
    {
      var table := cached;
      var todo := table.Keys;
      lru := None;
      while todo != {}
        invariant todo <= table.Keys
        invariant lru.None? ==> todo == table.Keys
        invariant lru.Some? ==>
                    lru.value in table && forall k :: k in table.Keys - todo ==> table[lru.value] <= table[k]
        decreases |todo|
      {
        var id :| id in todo;
        todo := todo - {id};
        if lru.None? || table[id] < table[lru.value] {
          lru := Some(id);
        }
      }
    }

    method CacheRetrievedChunk(wanted: bool, id: ChunkId, data: seq<byte>, now: nat, maxCached: nat)
          returns (ghost lru: Option<ChunkId>)
      modifies this
      ensures Lru(old(cached), lru)
      ensures State() == CacheRetrieved(old(State()), wanted, id, data, now, maxCached, lru)
    {
      var oldest := LruCachedChunk();
      lru := oldest;
      if !wanted || id in chunks {
        return;
      }
      if capacity.CanAccept(|data|, 0) {
        chunks := chunks[id := data];
        capacity := capacity.RecordAccept(|data|);
        cached := cached[id := now];
        return;
      }
      if maxCached > 0 && oldest.Some? {
        var evicted := SizeOf(chunks, oldest.value);
        chunks := chunks - {oldest.value};
        cached := cached - {oldest.value};
        capacity := capacity.RecordRemove(evicted);
        if capacity.CanAccept(|data|, 0) {
          chunks := chunks[id := data];
          capacity := capacity.RecordAccept(|data|);
          cached := cached[id := now];
        }
      }
    }

    /** The expired leases are visited in no particular order. */
    method ExpireChunksOnce(now: nat) returns (n: nat, ghost order: seq<ChunkId>)
      modifies this
      ensures Visits(order, {}, ExpiredLeases(old(leases), now))
      ensures State() == Sweep(old(State()), order) && n == |order|
    {
      var todo := ExpiredLeases(leases, now);
      ghost var all, before := todo, State();
      n, order := 0, [];
      while todo != {}
        invariant Visits(order, todo, all) && n == |order|
        invariant State() == Sweep(before, order)
        decreases |todo|
      {
        var id :| id in todo;
        SweepMore(before, order, id);
        VisitMore(order, todo, all, id);
        DropExpired(id);
        todo := todo - {id};
        order := order + [id];
        n := n + 1;
      }
    }

    method DropExpired(id: ChunkId)
      modifies this
      ensures State() == Remove(old(State()), id).(leases := old(leases) - {id})
    {
      var size := SizeOf(chunks, id);
      chunks := chunks - {id};
      leases := leases - {id};
      capacity := capacity.RecordRemove(size);
    }

    /** The trim loop: each turn drops an oldest cache record, until the cache is within its limit. */
    method EvictExcessCache(maxCached: nat) returns (ghost picks: seq<ChunkId>)
      modifies this
      ensures OldestFirst(old(State()), picks) && State() == EvictAll(old(State()), picks)
      ensures |picks| == if maxCached == 0 then 0 else SatSub(|old(cached)|, maxCached)
      ensures maxCached > 0 ==> |cached| <= maxCached
    {
      ghost var before := State();
      picks := [];
      if maxCached == 0 {
        return;
      }
      while |cached| > maxCached
        invariant OldestFirst(before, picks) && State() == EvictAll(before, picks)
        invariant |picks| + |cached| == |before.cached|
        invariant picks != [] ==> |cached| >= maxCached
        decreases |cached|
      {
        var lru := LruCachedChunk();
        if lru.None? {
          break;
        }
        Sums.SmallerWithout(cached, lru.value);
        PickMore(before, picks, lru.value);
        EvictCached(lru.value);
        picks := picks + [lru.value];
      }
    }

    method EvictCached(id: ChunkId)
      modifies this
      ensures State() == Evict(old(State()), id)
    {
      var size := SizeOf(chunks, id);
      chunks := chunks - {id};
      cached := cached - {id};
      capacity := capacity.RecordRemove(size);
    }
  }

  /** `order` has listed everything but `todo`, once each. */
  ghost predicate Visits(order: seq<ChunkId>, todo: set<ChunkId>, all: set<ChunkId>) {
    && Sums.NoDuplicates(order)
    && todo <= all
    && forall id :: id in order <==> id in all - todo
  }

  lemma VisitMore(order: seq<ChunkId>, todo: set<ChunkId>, all: set<ChunkId>, id: ChunkId)
    requires Visits(order, todo, all) && id in todo
    ensures Visits(order + [id], todo - {id}, all)
  {
    forall i, j | 0 <= i < j < |order + [id]| ensures (order + [id])[i] != (order + [id])[j] {
      assert order[i] in order;
    }
  }

  lemma PickMore(st: Store, picks: seq<ChunkId>, id: ChunkId)
    requires OldestFirst(st, picks) && Lru(EvictAll(st, picks).cached, Some(id))
    ensures OldestFirst(st, picks + [id]) && EvictAll(st, picks + [id]) == Evict(EvictAll(st, picks), id)
  {
    assert (picks + [id])[..|picks|] == picks;
  }

  /** What a trim does as a whole: as many records as picks go, each with its chunk and none twice,
      every record that goes is no younger than any that stays, and leases and reservations are left
      alone. */
  lemma {:induction false} TrimTakesOldest(st: Store, picks: seq<ChunkId>)
    requires OldestFirst(st, picks)
    ensures var after, gone := EvictAll(st, picks), Sums.KeySet(picks);
            && gone <= st.cached.Keys && |gone| == |picks|
            && after.cached == st.cached - gone && after.chunks == st.chunks - gone
            && after.leases == st.leases
            && after.capacity == st.capacity.(currentBytes := after.capacity.currentBytes)
            && forall e, k :: e in gone && k in after.cached ==> st.cached[e] <= after.cached[k]
  {
    if picks == [] {
      assert st.cached - {} == st.cached && st.chunks - {} == st.chunks;
      assert Sums.KeySet(picks) == {};
    } else {
      var n := |picks| - 1;
      TrimTakesOldest(st, picks[..n]);
      assert Sums.KeySet(picks) == Sums.KeySet(picks[..n]) + {picks[n]};
      TrimStep(st, EvictAll(st, picks[..n]), Sums.KeySet(picks[..n]), picks[n]);
    }
  }

  lemma TrimStep(st: Store, mid: Store, gone: set<ChunkId>, id: ChunkId)
    requires gone <= st.cached.Keys && mid.cached == st.cached - gone && mid.chunks == st.chunks - gone
    requires Lru(mid.cached, Some(id))
    requires forall e, k :: e in gone && k in mid.cached ==> st.cached[e] <= mid.cached[k]
    ensures var after := Evict(mid, id);
            && id !in gone && gone + {id} <= st.cached.Keys
            && after.cached == st.cached - (gone + {id}) && after.chunks == st.chunks - (gone + {id})
            && forall e, k :: e in gone + {id} && k in after.cached ==> st.cached[e] <= after.cached[k]
  {
    assert st.cached - (gone + {id}) == mid.cached - {id};
    assert st.chunks - (gone + {id}) == mid.chunks - {id};
  }

  lemma {:induction false} SweepMore(st: Store, order: seq<ChunkId>, id: ChunkId)
    ensures var s := Sweep(st, order);
            Sweep(st, order + [id]) == Remove(s, id).(leases := s.leases - {id})
    decreases |order|
  {
    if order == [] {
      assert order + [id] == [id];
      assert Sweep(st, [id]) == Sweep(Remove(st, id).(leases := st.leases - {id}), []);
    } else {
      var dropped := Remove(st, order[0]);
      SweepMore(dropped.(leases := dropped.leases - {order[0]}), order[1..], id);
      assert (order + [id])[1..] == order[1..] + [id];
    }
  }
}
