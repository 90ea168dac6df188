/** Runs of a node in which swaps and all other storage work take turns: the byte counter stays the
    number of bytes held. */
module StorageRuns {
  import opened Bytes
  import opened Merkle
  import opened Swap
  import opened Storage
  import Sums
  import SwapEvents

  datatype Node = Node(s: NodeState, cached: map<ChunkId, nat>)

  function Shelf(n: Node): Store {
    Store(n.s.chunks, n.s.capacity, n.s.leases, n.cached)
  }

  function WithShelf(n: Node, st: Store): Node {
    Node(n.s.(chunks := st.chunks, capacity := st.capacity, leases := st.leases), st.cached)
  }

  datatype Event =
    | SwapWork(ev: SwapEvents.Event)
    | Repaired(id: ChunkId, data: seq<byte>)
    | Retrieved(wanted: bool, chunk: ChunkId, bytes: seq<byte>, now: nat, maxCached: nat, lru: Option<ChunkId>)
    | Swept(order: seq<ChunkId>)
    | Trim(picks: seq<ChunkId>)
    | Snapped

  /** An event that cannot happen in this state leaves it alone. */
  ghost function Step(h: Hash, n: Node, e: Event): Node {
    match e
    case SwapWork(ev) => n.(s := SwapEvents.Handle(h, n.s, ev))
    case Repaired(id, data) => WithShelf(n, Repair(Shelf(n), id, data).0)
    case Retrieved(wanted, id, data, now, maxCached, lru) =>
      if Lru(n.cached, lru) then WithShelf(n, CacheRetrieved(Shelf(n), wanted, id, data, now, maxCached, lru)) else n
    case Swept(order) => WithShelf(n, Sweep(Shelf(n), order))
    case Trim(picks) => if OldestFirst(Shelf(n), picks) then WithShelf(n, EvictAll(Shelf(n), picks)) else n
    case Snapped => n.(s := n.s.(capacity := n.s.capacity.Reconcile(HeldBytes(n.s.chunks))))
  }

  ghost function Run(h: Hash, n: Node, es: seq<Event>): Node
    decreases |es|
  {
    if es == [] then n else Run(h, Step(h, n, es[0]), es[1..])
  }

  // ---------------------------------------------------------------- swaps keep it

  ghost predicate Even(s: NodeState) {
    s.capacity.currentBytes == HeldBytes(s.chunks)
  }

  /** A swap that names its chunk has reserved a full chunk; one that has buffered data has a full one. */
  predicate BackedSwap(swap: PendingSwap) {
    && (swap.theirChunk != ZERO32 ==> swap.reservedBytes == CHUNK_LEN)
    && (swap.receivedChunk ==> swap.reservedBytes == CHUNK_LEN == |swap.theirData|)
  }

  ghost predicate Backed(s: NodeState) {
    forall pid :: pid in s.pending ==> BackedSwap(s.pending[pid])
  }

  /** Storing a finished swap of a new chunk keeps counter and holder together exactly when the
      reservation was as long as the data. */
  lemma StoreSwapEven(s: NodeState, swap: PendingSwap)
    requires Even(s)
    ensures Even(StoreSwap(s, swap)) <==> (swap.theirChunk in s.chunks || swap.reservedBytes == |swap.theirData|)
  {
    if swap.theirChunk !in s.chunks {
      Sums.SumUpdate(s.chunks, LengthOf, swap.theirChunk, swap.theirData);
    }
  }

  lemma FinalizeKeeps(s: NodeState, pid: ProposalId)
    requires Even(s) && Backed(s)
    ensures Even(FinalizeIfReady(s, pid)) && Backed(FinalizeIfReady(s, pid))
  {
    if pid in s.pending && s.pending[pid].Ready() {
      StoreSwapEven(CompleteSwap(s, pid), s.pending[pid]);
    }
  }

  lemma AbortKeeps(s: NodeState, pid: ProposalId)
    requires Even(s) && Backed(s)
    ensures Even(AbortAndRelease(s, pid)) && Backed(AbortAndRelease(s, pid))
  {
  }

  lemma CommitKeeps(s: NodeState, sender: NodeId, pid: ProposalId)
    requires Even(s) && Backed(s)
    ensures Even(HandleCommit(s, sender, pid)) && Backed(HandleCommit(s, sender, pid))
  {
    if IsPendingWith(s, pid, sender) {
      FinalizeKeeps(s.(pending := s.pending[pid := s.pending[pid].(receivedCommit := true)]), pid);
    }
  }

  lemma RetrievalKeeps(h: Hash, s: NodeState, chunk: ChunkId, data: seq<byte>, waiting: Option<ProposalId>)
    requires Even(s) && Backed(s) && WaitingPick(s, chunk, waiting) && chunk != ZERO32
    ensures Even(HandleRetrieval(h, s, chunk, data, waiting).0) && Backed(HandleRetrieval(h, s, chunk, data, waiting).0)
  {
    if |data| == CHUNK_LEN && waiting.Some? {
      AbortKeeps(s, waiting.value);
      FinalizeKeeps(Buffered(s, waiting.value, data), waiting.value);
    }
  }

  lemma ProposalKeeps(h: Hash, s: NodeState, p: Proposal, now: nat, pick: Option<ChunkId>, token: Bytes32)
    requires Even(s) && Backed(s)
    ensures Even(HandleProposal(h, s, p, now, pick, token).0) && Backed(HandleProposal(h, s, p, now, pick, token).0)
  {
  }

  lemma AcceptKeeps(s: NodeState, a: Accept)
    requires Even(s) && Backed(s)
    ensures Even(HandleAccept(s, a).0) && Backed(HandleAccept(s, a).0)
  {
    AbortKeeps(s, a.proposalId);
  }

  lemma {:induction false} ReleaseAllCurrent(c: Capacity, swaps: seq<PendingSwap>)
    ensures ReleaseAll(c, swaps).currentBytes == c.currentBytes
    decreases |swaps|
  {
    if swaps != [] {
      ReleaseAllCurrent(c.ReleaseReserved(swaps[0].reservedBytes, false), swaps[1..]);
    }
  }

  /** No chunk is retrieved under the all-zero id. */
  predicate Named(ev: SwapEvents.Event) {
    ev.Retrieved? ==> ev.chunk != ZERO32
  }

  lemma SwapKeeps(h: Hash, s: NodeState, ev: SwapEvents.Event)
    requires Even(s) && Backed(s) && Named(ev)
    ensures Even(SwapEvents.Handle(h, s, ev)) && Backed(SwapEvents.Handle(h, s, ev))
  {
    if SwapEvents.Possible(s, ev) {
      match ev
      case Begin(peer, own, now) =>
      case Proposed(p, now, ret, token) => ProposalKeeps(h, s, p, now, ret, token);
      case AcceptIn(a) => AcceptKeeps(s, a);
      case CommitIn(sender, pid) => CommitKeeps(s, sender, pid);
      case AbortIn(sender, pid) => AbortKeeps(s, pid);
      case Retrieved(chunk, data, waiting) => RetrievalKeeps(h, s, chunk, data, waiting);
      case Expiry(_, _, order) => ReleaseAllCurrent(s.capacity, Sums.Values(s.pending, order));
    }
  }

  // ---------------------------------------------------------------- whole runs

  lemma StepKeeps(h: Hash, n: Node, e: Event)
    requires Even(n.s) && Backed(n.s) && (e.SwapWork? ==> Named(e.ev))
    ensures Even(Step(h, n, e).s) && Backed(Step(h, n, e).s)
  {
    assert Agrees(Shelf(n));
    match e
    case SwapWork(ev) => SwapKeeps(h, n.s, ev);
    case Repaired(id, data) => RepairAgrees(Shelf(n), id, data);
    case Retrieved(wanted, id, data, now, maxCached, lru) =>
      CacheAgrees(Shelf(n), wanted, id, data, now, maxCached, lru);
    case Swept(order) => SweepAgrees(Shelf(n), order);
    case Trim(picks) => EvictAllAgrees(Shelf(n), picks);
    case Snapped =>
  }

  /** Over every run of swap handlers, repairs, cache inserts with eviction, lease sweeps, cache trims
      and snaps, in any order, the counter equals the sum of the lengths of the chunks held. */
  lemma {:induction false} CounterAgreesWithHolder(h: Hash, n: Node, es: seq<Event>)
    requires Even(n.s) && Backed(n.s)
    requires forall i :: 0 <= i < |es| && es[i].SwapWork? ==> Named(es[i].ev)
    ensures Run(h, n, es).s.capacity.currentBytes == HeldBytes(Run(h, n, es).s.chunks)
    decreases |es|
  {
    if es != [] {
      StepKeeps(h, n, es[0]);
      CounterAgreesWithHolder(h, Step(h, n, es[0]), es[1..]);
    }
  }
}
