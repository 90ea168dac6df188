/** How swaps come into the table of a node and how they leave it, in plain terms. */
module SwapDepartures {
  import opened Bytes
  import opened Merkle
  import opened Swap
  import opened SwapEvents
  import opened SwapNetwork
  import opened SwapNetworkBinding

  /** The call opens a swap for the proposal: our own proposal, or an agreeable one from outside. */
  ghost predicate Arrives(h: Hash, s: NodeState, ev: Event, pid: ProposalId) {
    match ev
    case Begin(_, own, _) => ProposalIdOf(h, own) == pid
    case Proposed(p, now, ret, _) => ProposalIdOf(h, p) == pid && Agreeable(s, p, now, ret)
    case _ => false
  }

  /** The call brings the last of the three: the peer's commit, or full data that passes the gate, when the other
      two are in. */
  predicate Finishes(h: Hash, s: NodeState, ev: Event, pid: ProposalId)
    requires pid in s.pending
  {
    var swap := s.pending[pid];
    match ev
    case CommitIn(sender, id) => id == pid && sender == swap.peer && swap.sentCommit && swap.receivedChunk
    case Retrieved(_, data, waiting) => waiting == Some(pid) && GoodData(h, swap, data) && swap.receivedCommit
    case _ => false
  }

  predicate GoodData(h: Hash, swap: PendingSwap, data: seq<byte>) {
    |data| == CHUNK_LEN && (swap.contentRoot != ZERO32 ==> Verifies(h, data, swap.merkleProof, swap.contentRoot))
  }

  /** The call ends the swap without success: the peer aborts it or accepts it when there is no room, a full chunk
      comes that does not verify, or the sweep finds it older than the timeout. */
  predicate Fails(h: Hash, s: NodeState, ev: Event, pid: ProposalId)
    requires pid in s.pending
  {
    var swap := s.pending[pid];
    match ev
    case AbortIn(sender, id) => id == pid && sender == swap.peer
    case AcceptIn(a) => a.proposalId == pid && a.fromNode == swap.peer && !HasRoom(s)
    case Retrieved(_, data, waiting) => waiting == Some(pid) && |data| == CHUNK_LEN && !GoodData(h, swap, data)
    case Expiry(now, timeout, _) => now > swap.startedAt + timeout
    case _ => false
  }

  /** A proposal is in the table after a call if and only if the call opens it, or it was there and neither
      finishes nor fails. */
  lemma InTableIff(h: Hash, s: NodeState, ev: Event, pid: ProposalId)
    requires Keyed(s) && Possible(s, ev)
    ensures pid in Handle(h, s, ev).pending <==>
            Arrives(h, s, ev, pid) || (pid in s.pending && !Finishes(h, s, ev, pid) && !Fails(h, s, ev, pid))
  {
    match ev
    case Begin(_, _, _) => ArrivesIff(h, s, ev, pid);
    case Proposed(_, _, _, _) => ArrivesIff(h, s, ev, pid);
    case Retrieved(chunk, data, waiting) => RetrievalLeavesIff(h, s, chunk, data, waiting, pid);
    case AcceptIn(a) => AcceptLeavesIff(s, a, pid);
    case CommitIn(sender, id) => CommitLeavesIff(s, sender, id, pid);
    case _ => ClosingLeavesIff(h, s, ev, pid);
  }

  lemma ArrivesIff(h: Hash, s: NodeState, ev: Event, pid: ProposalId)
    requires Possible(s, ev) && (ev.Begin? || ev.Proposed?)
    ensures pid in Handle(h, s, ev).pending <==> Arrives(h, s, ev, pid) || pid in s.pending
  {
  }

  lemma ClosingLeavesIff(h: Hash, s: NodeState, ev: Event, pid: ProposalId)
    requires Possible(s, ev) && (ev.AbortIn? || ev.Expiry?)
    ensures pid in Handle(h, s, ev).pending <==> pid in s.pending && !Fails(h, s, ev, pid)
  {
  }

  lemma CommitLeavesIff(s: NodeState, sender: NodeId, id: ProposalId, pid: ProposalId)
    ensures pid in HandleCommit(s, sender, id).pending <==>
            pid in s.pending && !(id == pid && sender == s.pending[pid].peer
                                  && s.pending[pid].sentCommit && s.pending[pid].receivedChunk)
  {
  }

  /** Asking whether a swap is ready takes it out of the table if it is, and nothing else. */
  lemma ReadyLeaves(s: NodeState, id: ProposalId, pid: ProposalId)
    ensures pid in FinalizeIfReady(s, id).pending <==> pid in s.pending && !(id == pid && s.pending[pid].Ready())
  {
  }

  lemma AcceptLeavesIff(s: NodeState, a: Accept, pid: ProposalId)
    ensures pid in HandleAccept(s, a).0.pending <==>
            pid in s.pending && !(a.proposalId == pid && a.fromNode == s.pending[pid].peer && !HasRoom(s))
  {
  }

  lemma RetrievalLeavesIff(h: Hash, s: NodeState, chunk: ChunkId, data: seq<byte>, waiting: Option<ProposalId>,
                           pid: ProposalId)
    requires WaitingPick(s, chunk, waiting)
    ensures pid in HandleRetrieval(h, s, chunk, data, waiting).0.pending <==>
            pid in s.pending && !(&& waiting == Some(pid) && |data| == CHUNK_LEN
                                  && (GoodData(h, s.pending[pid], data) ==> s.pending[pid].receivedCommit))
  {
    if waiting.Some? {
      ReadyLeaves(Buffered(s, waiting.value, data), waiting.value, pid);
    }
  }

  /** The newest 256 of a log. */
  function Newest(log: seq<ProposalId>): seq<ProposalId> {
    log[SatSub(|log|, 256)..]
  }

  /** A swap that finishes is the newest in the log of completed ones and its chunk counts as swapped. */
  lemma FinishIsLogged(h: Hash, s: NodeState, ev: Event, pid: ProposalId)
    requires Keyed(s) && Possible(s, ev) && pid in s.pending && Finishes(h, s, ev, pid)
    ensures var after, swap := Handle(h, s, ev), s.pending[pid];
            && after.completed == Newest(s.completed + [pid]) && after.aborted == s.aborted
            && swap.theirChunk in after.active && after.active[swap.theirChunk] == swap.peer
  {
    match ev
    case CommitIn(_, _) => ReadyIsLogged(s.(pending := s.pending[pid := s.pending[pid].(receivedCommit := true)]), pid);
    case Retrieved(_, data, _) => ReadyIsLogged(Buffered(s, pid, data), pid);
  }

  lemma ReadyIsLogged(s: NodeState, pid: ProposalId)
    requires pid in s.pending && s.pending[pid].Ready()
    ensures var after, swap := FinalizeIfReady(s, pid), s.pending[pid];
            && after.completed == Newest(s.completed + [pid]) && after.aborted == s.aborted
            && swap.theirChunk in after.active && after.active[swap.theirChunk] == swap.peer
  {
  }

  /** One that fails alone is the newest among the aborted, and its reservation is free again. */
  lemma FailureIsLogged(h: Hash, s: NodeState, ev: Event, pid: ProposalId)
    requires Possible(s, ev) && pid in s.pending && Fails(h, s, ev, pid) && !ev.Expiry?
    ensures var after, swap := Handle(h, s, ev), s.pending[pid];
            && after.aborted == Newest(s.aborted + [pid])
            && after.completed == s.completed && after.active == s.active && after.chunks == s.chunks
            && after.capacity.reservedBytes == SatSub(s.capacity.reservedBytes, swap.reservedBytes)
            && after.capacity.currentBytes == s.capacity.currentBytes
  {
  }

  /** A node tells the peer of a swap that it has ended it: it sends an abort for exactly the swaps that fail by
      its own doing. */
  lemma AbortSentIff(h: Hash, s: NodeState, ev: Event, pid: ProposalId)
    requires Possible(s, ev)
    ensures AbortMsg(s.me, pid) in Sent(h, s, ev) <==> pid in s.pending && Fails(h, s, ev, pid) && !ev.AbortIn?
  {
  }

  lemma NewestTwice(a: seq<ProposalId>, b: seq<ProposalId>)
    ensures Newest(Newest(a) + b) == Newest(a + b)
  {
    var gone := SatSub(|a|, 256);
    assert a + b == a[..gone] + (Newest(a) + b);
  }

  lemma {:induction false} LogKeepsNewest(log: seq<ProposalId>, pids: seq<ProposalId>)
    requires |log| <= 256
    ensures LogAll(log, pids) == Newest(log + pids)
    decreases |pids|
  {
    if pids != [] {
      assert LogId(log, pids[0]) == Newest(log + [pids[0]]);
      LogKeepsNewest(LogId(log, pids[0]), pids[1..]);
      NewestTwice(log + [pids[0]], pids[1..]);
      assert log + pids == (log + [pids[0]]) + pids[1..];
    } else {
      assert log + [] == log;
    }
  }

  /** The sweep logs what it takes, in its order, and of all that was ever logged the newest 256 stay. */
  lemma SweepIsLogged(h: Hash, s: NodeState, ev: Event)
    requires Possible(s, ev) && ev.Expiry? && |s.aborted| <= 256
    ensures Handle(h, s, ev).aborted == Newest(s.aborted + ev.order) && Handle(h, s, ev).completed == s.completed
  {
    LogKeepsNewest(s.aborted, ev.order);
  }

  // ---------------------------------------------------------------- what the walks find and what a call notes

  /** A return chunk is found if and only if a chunk other than the one proposed is held, and is such a chunk; a
      swap for a retrieved chunk is found if and only if some swap still waits for it, and is such a swap. */
  lemma WalksFind(s: NodeState, ev: Event)
    requires Possible(s, ev)
    ensures ev.Proposed? ==>
              && (ev.ret.Some? <==> exists id :: id in s.chunks && id != ev.p.chunkId)
              && (ev.ret.Some? ==> ev.ret.value in s.chunks && ev.ret.value != ev.p.chunkId)
    ensures ev.Retrieved? ==>
              && (ev.waiting.Some? <==>
                    exists pid :: pid in s.pending && !s.pending[pid].receivedChunk
                                  && s.pending[pid].theirChunk == ev.chunk)
              && (ev.waiting.Some? ==> var swap := s.pending[ev.waiting.value];
                                       !swap.receivedChunk && swap.theirChunk == ev.chunk)
  {
  }

  /** The call brings full data, good or not, to the swap. */
  predicate BringsData(ev: Event, pid: ProposalId) {
    ev.Retrieved? && ev.waiting == Some(pid) && |ev.data| == CHUNK_LEN
  }

  /** A swap that stays in the table notes the peer's commit and the data when they come, and that our own commit
      went out with the data; it forgets nothing. */
  lemma MarksIff(h: Hash, s: NodeState, ev: Event, pid: ProposalId)
    requires Keyed(s) && Possible(s, ev) && pid in s.pending && !Arrives(h, s, ev, pid)
    requires !Finishes(h, s, ev, pid) && !Fails(h, s, ev, pid)
    ensures pid in Handle(h, s, ev).pending
    ensures Notes(s.pending[pid], Handle(h, s, ev).pending[pid], ev, pid)
  {
    InTableIff(h, s, ev, pid);
    match ev
    case Retrieved(chunk, data, waiting) =>
      RetrievalMarks(h, s, chunk, data, waiting, pid);
      EntryNotes(s.pending[pid], ev, pid);
    case CommitIn(sender, id) =>
      CommitMarks(s, sender, id, pid);
      EntryNotes(s.pending[pid], ev, pid);
    case AcceptIn(a) => AcceptMarks(s, a, pid);
    case _ => OthersMarkNothing(h, s, ev, pid);
  }

  /** The entry after the call, as far as commits and data go. */
  predicate Notes(was: PendingSwap, now: PendingSwap, ev: Event, pid: ProposalId) {
    && (now.receivedCommit <==> was.receivedCommit || ev == CommitIn(was.peer, pid))
    && (now.receivedChunk <==> was.receivedChunk || BringsData(ev, pid))
    && (now.sentCommit <==> was.sentCommit || BringsData(ev, pid))
    && now.theirData == (if BringsData(ev, pid) then ev.data else was.theirData)
    && now.peer == was.peer && now.startedAt == was.startedAt && now.ourChunk == was.ourChunk
  }

  lemma EntryNotes(was: PendingSwap, ev: Event, pid: ProposalId)
    ensures ev.CommitIn? ==>
              var now := if ev.pid == pid && ev.sender == was.peer then was.(receivedCommit := true) else was;
              Notes(was, now, ev, pid)
    ensures ev.Retrieved? ==>
              var now := if ev.waiting == Some(pid) && |ev.data| == CHUNK_LEN
                         then was.(theirData := ev.data, receivedChunk := true, sentCommit := true) else was;
              Notes(was, now, ev, pid)
  {
  }

  lemma AcceptMarks(s: NodeState, a: Accept, pid: ProposalId)
    requires pid in s.pending && pid in HandleAccept(s, a).0.pending
    ensures Notes(s.pending[pid], HandleAccept(s, a).0.pending[pid], AcceptIn(a), pid)
  {
    AcceptedEntry(s, a, pid);
  }

  lemma OthersMarkNothing(h: Hash, s: NodeState, ev: Event, pid: ProposalId)
    requires Possible(s, ev) && !ev.Retrieved? && !ev.CommitIn? && !ev.AcceptIn?
    requires pid in s.pending && pid in Handle(h, s, ev).pending && !Arrives(h, s, ev, pid)
    ensures Handle(h, s, ev).pending[pid] == s.pending[pid]
  {
  }

  lemma CommitMarks(s: NodeState, sender: NodeId, id: ProposalId, pid: ProposalId)
    requires pid in s.pending && pid in HandleCommit(s, sender, id).pending
    ensures HandleCommit(s, sender, id).pending[pid] ==
            if id == pid && sender == s.pending[pid].peer then s.pending[pid].(receivedCommit := true)
            else s.pending[pid]
  {
  }

  lemma RetrievalMarks(h: Hash, s: NodeState, chunk: ChunkId, data: seq<byte>, waiting: Option<ProposalId>,
                       pid: ProposalId)
    requires WaitingPick(s, chunk, waiting) && pid in s.pending
    requires pid in HandleRetrieval(h, s, chunk, data, waiting).0.pending
    ensures HandleRetrieval(h, s, chunk, data, waiting).0.pending[pid] ==
            if waiting == Some(pid) && |data| == CHUNK_LEN
            then s.pending[pid].(theirData := data, receivedChunk := true, sentCommit := true) else s.pending[pid]
  {
    if waiting.Some? {
      ReadyKeeps(Buffered(s, waiting.value, data), waiting.value, pid);
    }
  }

  /** Asking whether a swap is ready changes no entry that stays. */
  lemma ReadyKeeps(s: NodeState, id: ProposalId, pid: ProposalId)
    ensures pid in FinalizeIfReady(s, id).pending ==>
              pid in s.pending && FinalizeIfReady(s, id).pending[pid] == s.pending[pid]
  {
  }

  /** A commit is sent exactly with good data for a swap whose commit has not been sent yet. */
  lemma CommitSentIff(h: Hash, s: NodeState, ev: Event, pid: ProposalId)
    requires Possible(s, ev)
    ensures CommitMsg(s.me, pid) in Sent(h, s, ev) <==>
            && BringsData(ev, pid) && pid in s.pending && GoodData(h, s.pending[pid], ev.data)
            && !s.pending[pid].sentCommit
  {
  }
}
