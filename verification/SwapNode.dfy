/** The swap handlers as they run: one object whose fields the handlers update in place. */
module SwapNode {
  import opened Bytes
  import opened Merkle
  import opened Swap
  import Sums

  /** Total length of the held chunks, adding one chunk at a time. */
  method TotalBytes(chunks: map<ChunkId, seq<byte>>) returns (total: nat)
    ensures total == HeldBytes(chunks)
  {
    total := 0;
    var rest := chunks;
    while rest != map[]
      invariant total + HeldBytes(rest) == HeldBytes(chunks)
      decreases |rest|
    {
      assert rest.Keys != {};
      var id :| id in rest.Keys;
      Sums.SumRemove(rest, LengthOf, id);
      Sums.SmallerWithout(rest, id);
      total := total + |rest[id]|;
      rest := rest - {id};
    }
  }

  class TransportNode {
    const me: NodeId
    var pending: map<ProposalId, PendingSwap>
    var active: map<ChunkId, NodeId>
    var completed: seq<ProposalId>
    var aborted: seq<ProposalId>
    var capacity: Capacity
    var chunks: map<ChunkId, seq<byte>>
    var peerCounts: map<NodeId, nat>
    var leases: map<ChunkId, Lease>

    function State(): NodeState
      reads this
    {
      NodeState(me, pending, active, completed, aborted, capacity, chunks, peerCounts, leases)
    }

    constructor (me: NodeId, maxBytes: nat)
      ensures State() == NodeState(me, map[], map[], [], [], Capacity(maxBytes, 0, 0, 100), map[], map[], map[])
    {
      this.me := me;
      pending, active, completed, aborted := map[], map[], [], [];
      capacity := Capacity(maxBytes, 0, 0, 100);
      chunks, peerCounts, leases := map[], map[], map[];
    }

    method BeginSwapProposal(h: Hash, peer: NodeId, p: Proposal, now: nat) returns (pid: ProposalId)
      modifies this
      ensures pid == ProposalIdOf(h, p)
      ensures State() == BeginProposal(h, old(State()), peer, p, now)
    {
      pid := ProposalIdOf(h, p);
      pending := pending[pid := ProposerSwap(pid, peer, p.chunkId, now)];
    }

    method FindReturnChunk(p: Proposal) returns (pick: Option<ChunkId>)
      ensures ReturnPick(State(), p, pick)
    {
      if id :| id in chunks.Keys && id != p.chunkId {
        pick := Some(id);
      } else {
        pick := None;
      }
    }

    method HandleMaintenanceProposal(h: Hash, p: Proposal, now: nat, token: Bytes32)
      returns (out: seq<Message>, pick: Option<ChunkId>)
      modifies this
      ensures ReturnPick(old(State()), p, pick)
      ensures (State(), out) == HandleProposal(h, old(State()), p, now, pick, token)
    {
      var pid := ProposalIdOf(h, p);
      var actual := TotalBytes(chunks);
      capacity := capacity.Reconcile(actual);
      var peerChunks := if p.fromNode in peerCounts then peerCounts[p.fromNode] else 0;
      var ok := Acceptable(capacity, p, peerChunks, now);
      pick := FindReturnChunk(p);
      if !ok || pick.None? || |pending| >= MAX_PENDING_SWAPS || !capacity.CanAccept(CHUNK_LEN, peerChunks) {
        return [RejectMsg(me, pid)], pick;
      }
      capacity := capacity.Reserve(CHUNK_LEN);
      pending := pending[pid := AccepterSwap(pid, p, pick.value, now)];
      var lease := Lease(pick.value, now + RETURN_LEASE_SECS, token, ZERO32);
      out := [AcceptMsg(Accept(me, pick.value, lease, pid, ZERO32, MerkleProof(0, [])))];
    }

    /** `abort_swap` and the release of what it reserved. */
    method Abort(pid: ProposalId)
      modifies this
      ensures State() == AbortAndRelease(old(State()), pid)
    {
      if pid in pending {
        var swap := pending[pid];
        pending := pending - {pid};
        aborted := LogId(aborted, pid);
        capacity := capacity.ReleaseReserved(swap.reservedBytes, false);
      }
    }

    method HandleMaintenanceAccept(a: Accept) returns (out: seq<Message>)
      modifies this
      ensures (State(), out) == HandleAccept(old(State()), a)
    {
      var pid := a.proposalId;
      if pid !in pending || pending[pid].peer != a.fromNode {
        return [];
      }
      var fits := capacity.CanAccept(CHUNK_LEN, 0);
      if !fits {
        Abort(pid);
        return [AbortMsg(me, pid)];
      }
      capacity := capacity.Reserve(CHUNK_LEN);
      pending := pending[pid := Accepted(pending[pid], a)];
      out := [];
    }

    method HandleMaintenanceCommit(sender: NodeId, pid: ProposalId)
      modifies this
      ensures State() == HandleCommit(old(State()), sender, pid)
    {
      if pid in pending && pending[pid].peer == sender {
        pending := pending[pid := pending[pid].(receivedCommit := true)];
        var done := FinalizeSwapIfReady(pid);
      }
    }

    method HandleMaintenanceAbort(sender: NodeId, pid: ProposalId)
      modifies this
      ensures State() == HandleAbort(old(State()), sender, pid)
    {
      if pid in pending && pending[pid].peer == sender {
        Abort(pid);
      }
    }

    method FindWaiting(chunk: ChunkId) returns (pick: Option<ProposalId>)
      ensures WaitingPick(State(), chunk, pick)
    {
      if pid :| pid in pending.Keys && !pending[pid].receivedChunk && pending[pid].theirChunk == chunk {
        pick := Some(pid);
      } else {
        pick := None;
      }
    }

    /** Feeds a retrieved chunk into the pending swap waiting for it, if any. */
    method HandleSwapChunkRetrieval(h: Hash, chunk: ChunkId, data: seq<byte>)
      returns (consumed: bool, out: seq<Message>, pick: Option<ProposalId>)
      modifies this
      ensures WaitingPick(old(State()), chunk, pick)
      ensures consumed == (|data| == CHUNK_LEN && pick.Some?)
      ensures (State(), out) == HandleRetrieval(h, old(State()), chunk, data, pick)
    {
      pick := FindWaiting(chunk);
      if |data| != CHUNK_LEN || pick.None? {
        return false, [], pick;
      }
      var pid := pick.value;
      var root, proof := pending[pid].contentRoot, pending[pid].merkleProof;
      if root != ZERO32 {
        var verified := VerifyChunk(h, data, proof, root);
        if !verified {
          Abort(pid);
          return true, [AbortMsg(me, pid)], pick;
        }
      }
      pending := pending[pid := pending[pid].(theirData := data, receivedChunk := true)];
      var already := pending[pid].sentCommit;
      out := [];
      if !already {
        pending := pending[pid := pending[pid].(sentCommit := true)];
        out := [CommitMsg(me, pid)];
      }
      assert State() == Buffered(old(State()), pid, data);
      var done := FinalizeSwapIfReady(pid);
      consumed := true;
    }

    method FinalizeSwapIfReady(pid: ProposalId) returns (finalized: bool)
      modifies this
      ensures finalized == (pid in old(pending) && old(pending)[pid].Ready())
      ensures State() == FinalizeIfReady(old(State()), pid)
    {
      if pid !in pending || !pending[pid].Ready() {
        return false;
      }
      var swap := pending[pid];
      pending := pending - {pid};
      active := active[swap.theirChunk := swap.peer];
      completed := LogId(completed, pid);
      StoreFinished(swap);
      finalized := true;
    }

    method StoreFinished(swap: PendingSwap)
      modifies this`chunks, this`capacity, this`peerCounts, this`leases
      ensures State() == StoreSwap(old(State()), swap)
    {
      var storedNew := swap.theirChunk !in chunks;
      if storedNew {
        chunks := chunks[swap.theirChunk := swap.theirData];
      }
      capacity := capacity.ReleaseReserved(swap.reservedBytes, storedNew);
      if storedNew {
        var count := if swap.peer in peerCounts then peerCounts[swap.peer] else 0;
        peerCounts := peerCounts[swap.peer := count + 1];
        leases := leases[swap.theirChunk := LeaseOf(swap)];
      }
    }

    method ListExpired(now: nat, timeout: nat) returns (order: seq<ProposalId>)
      ensures ExpiryOrder(State(), now, timeout, order)
    {
      order := [];
      var left := pending.Keys;
      while left != {}
        invariant left <= pending.Keys
        invariant Sums.NoDuplicates(order)
        invariant forall pid :: pid in order <==> pid in pending.Keys - left && Expired(pending[pid], now, timeout)
        decreases left
      {
        var pid :| pid in left;
        left := left - {pid};
        if Expired(pending[pid], now, timeout) {
          order := order + [pid];
        }
      }
    }

    /** Takes the listed swaps out of the table and logs them as aborted. */
    method RemoveExpired(order: seq<ProposalId>)
      modifies this`pending, this`aborted
      ensures pending == old(pending) - Sums.KeySet(order)
      ensures aborted == LogAll(old(aborted), order)
    {
      var i := 0;
      while i < |order|
        invariant 0 <= i <= |order|
        invariant pending == old(pending) - Sums.KeySet(order[..i])
        invariant LogAll(aborted, order[i..]) == LogAll(old(aborted), order)
      {
        RemoveMore(old(pending), order, i);
        assert order[i..][1..] == order[i + 1..];
        aborted := LogId(aborted, order[i]);
        pending := pending - {order[i]};
        i := i + 1;
      }
      assert order[..i] == order;
    }

    /** Gives the reservations of removed swaps back, one swap at a time. */
    method ReleaseEach(swaps: seq<PendingSwap>)
      modifies this`capacity
      ensures capacity == ReleaseAll(old(capacity), swaps)
    {
      var i := 0;
      while i < |swaps|
        invariant 0 <= i <= |swaps|
        invariant ReleaseAll(capacity, swaps[i..]) == ReleaseAll(old(capacity), swaps)
      {
        capacity := capacity.ReleaseReserved(swaps[i].reservedBytes, false);
        assert swaps[i..][1..] == swaps[i + 1..];
        i := i + 1;
      }
    }

    /** Removes every swap past the timeout, releases it, and tells its peer. */
    method ExpirePendingSwaps(now: nat, timeout: nat) returns (order: seq<ProposalId>, out: seq<Message>)
      modifies this
      ensures ExpiryOrder(old(State()), now, timeout, order)
      ensures State() == ExpirePending(old(State()), order)
      ensures out == seq(|order|, i requires 0 <= i < |order| => AbortMsg(me, order[i]))
    {
      order := ListExpired(now, timeout);
      var swaps := Sums.Values(pending, order);
      RemoveExpired(order);
      ReleaseEach(swaps);
      out := seq(|order|, i requires 0 <= i < |order| => AbortMsg(me, order[i]));
    }
  }

  lemma RemoveMore(table: map<ProposalId, PendingSwap>, order: seq<ProposalId>, i: nat)
    requires i < |order|
    ensures table - Sums.KeySet(order[..i + 1]) == (table - Sums.KeySet(order[..i])) - {order[i]}
  {
    assert Sums.KeySet(order[..i + 1]) == Sums.KeySet(order[..i]) + {order[i]};
  }
}
