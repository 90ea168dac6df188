/** A handler left alone: its lock-delimited sections, run to the end with nothing in between, compute
    exactly the handler function. */
module SwapRuns {
  import opened Bytes
  import opened Merkle
  import opened Swap
  import opened SwapLocks
  import Sums

  // ------------------------------------------- a handler left alone

  ghost function Stage(t: Thread): nat {
    match t
    case ProposalRead(_, _) => 17
    case ProposalReconcile(_, _, _) => 16
    case ProposalCount(_, _) => 15
    case ProposalDecide(_, _, _) => 14
    case ProposalFind(_, _, _) => 13
    case ProposalBound(_, _, _, _) => 12
    case ProposalReserve(_, _, _, _) => 11
    case ProposalOpen(_, _, _) => 10
    case BeginOpen(_, _, _) => 10
    case AcceptBind(_) => 13
    case AcceptReserve(_) => 12
    case AcceptDrop(_) => 11
    case AcceptApply(_) => 11
    case CommitBind(_, _) => 11
    case CommitMark(_) => 10
    case AbortBind(_, _) => 11
    case AbortDrop(_) => 10
    case ExpireSweep(_, _) => 10
    case Releasing(_) => 1
    case RetrieveFind(_, _) => 12
    case RetrieveDrop(_) => 11
    case RetrieveBuffer(_, _, _, _, _) => 11
    case RetrieveCommit(_) => 10
    case FinalizeTake(_) => 9
    case FinalizeStore(_) => 8
    case FinalizeRelease(_, _) => 7
    case FinalizeCount(_) => 6
    case FinalizeLease(_) => 5
    case Done => 0
  }

  ghost function Left(t: Thread): nat {
    if t.Releasing? then |t.swaps| else 0
  }

  ghost predicate Progresses(t: Thread, e: Effect, t': Thread) {
    (t' == t && e == Nothing) || Stage(t') < Stage(t) || (Stage(t') == Stage(t) && Left(t') < Left(t))
  }

  lemma OpeningProgresses(h: Hash, s: NodeState, t: Thread, c: Choice)
    requires Opening(t)
    ensures Progresses(t, Section(h, s, t, c).0, Section(h, s, t, c).1)
  {
  }

  lemma ClosingProgresses(h: Hash, s: NodeState, t: Thread, c: Choice)
    requires !Opening(t) && !Finishing(t)
    ensures Progresses(t, Section(h, s, t, c).0, Section(h, s, t, c).1)
  {
  }

  lemma FinishingProgresses(h: Hash, s: NodeState, t: Thread, c: Choice)
    requires Finishing(t)
    ensures Progresses(t, Section(h, s, t, c).0, Section(h, s, t, c).1)
  {
  }

  lemma SectionProgresses(h: Hash, s: NodeState, t: Thread, c: Choice)
    ensures Progresses(t, Section(h, s, t, c).0, Section(h, s, t, c).1)
  {
    if Opening(t) {
      OpeningProgresses(h, s, t, c);
    } else if Finishing(t) {
      FinishingProgresses(h, s, t, c);
    } else {
      ClosingProgresses(h, s, t, c);
    }
  }

  ghost function Next(h: Hash, s: NodeState, t: Thread, c: Choice): (s': NodeState)
    requires Keyed(s)
    ensures Keyed(s')
  {
    SectionApplicable(h, s, t, c);
    PerformKeyed(s, Section(h, s, t, c).0);
    Perform(s, Section(h, s, t, c).0)
  }

  /** Runs the sections of one handler to the end with nothing in between. */
  ghost function Complete(h: Hash, s: NodeState, t: Thread, c: Choice): NodeState
    requires Keyed(s)
    decreases Stage(t), Left(t)
  {
    if t.Done? then s
    else
      var t' := Section(h, s, t, c).1;
      SectionProgresses(h, s, t, c);
      if t' == t then s else Complete(h, Next(h, s, t, c), t', c)
  }

  /** One unfolding of `Complete`. */
  lemma Unfold(h: Hash, s: NodeState, t: Thread, c: Choice, s': NodeState, t': Thread)
    requires Keyed(s) && Keyed(s') && t' != t && !t.Done? && Section(h, s, t, c).1 == t' && Next(h, s, t, c) == s'
    ensures Complete(h, s, t, c) == Complete(h, s', t', c)
  {
  }

  lemma DoneAlone(h: Hash, s: NodeState, c: Choice)
    requires Keyed(s)
    ensures Complete(h, s, Done, c) == s
  {
  }

  /** The two last sections of finalization: the peer's count, then the lease. */
  function Counted(s: NodeState, swap: PendingSwap): NodeState {
    s.(peerCounts := s.peerCounts[swap.peer := PeerCount(s, swap.peer) + 1])
  }

  function Leased(s: NodeState, swap: PendingSwap): NodeState {
    s.(leases := s.leases[swap.theirChunk := LeaseOf(swap)])
  }

  lemma LeaseAlone(h: Hash, s: NodeState, swap: PendingSwap, c: Choice)
    requires Keyed(s)
    ensures Complete(h, s, FinalizeLease(swap), c) == Leased(s, swap)
  {
    Unfold(h, s, FinalizeLease(swap), c, Leased(s, swap), Done);
    DoneAlone(h, Leased(s, swap), c);
  }

  lemma CreditAlone(h: Hash, s: NodeState, swap: PendingSwap, c: Choice)
    requires Keyed(s)
    ensures Complete(h, s, FinalizeCount(swap), c) == Complete(h, Counted(s, swap), FinalizeLease(swap), c)
  {
    Unfold(h, s, FinalizeCount(swap), c, Counted(s, swap), FinalizeLease(swap));
  }

  lemma GrantAlone(h: Hash, s: NodeState, swap: PendingSwap, c: Choice)
    requires Keyed(s)
    ensures Complete(h, s, FinalizeCount(swap), c) == Leased(Counted(s, swap), swap)
  {
    CreditAlone(h, s, swap, c);
    LeaseAlone(h, Counted(s, swap), swap, c);
  }

  lemma ReleaseAlone(h: Hash, s: NodeState, swap: PendingSwap, isNew: bool, c: Choice)
    requires Keyed(s)
    ensures var s' := s.(capacity := s.capacity.ReleaseReserved(swap.reservedBytes, isNew));
            Complete(h, s, FinalizeRelease(swap, isNew), c) ==
            if isNew then Complete(h, s', FinalizeCount(swap), c) else s'
  {
    var s' := s.(capacity := s.capacity.ReleaseReserved(swap.reservedBytes, isNew));
    Unfold(h, s, FinalizeRelease(swap, isNew), c, s', if isNew then FinalizeCount(swap) else Done);
    DoneAlone(h, s', c);
  }

  /** The state in which a newly stored chunk is credited to its peer. */
  function StoredAndReleased(s: NodeState, swap: PendingSwap): NodeState {
    s.(chunks := s.chunks[swap.theirChunk := swap.theirData],
       capacity := s.capacity.ReleaseReserved(swap.reservedBytes, true))
  }

  lemma StoreNewAlone(h: Hash, s: NodeState, swap: PendingSwap, c: Choice)
    requires Keyed(s) && swap.theirChunk !in s.chunks
    ensures Complete(h, s, FinalizeStore(swap), c) == Complete(h, StoredAndReleased(s, swap), FinalizeCount(swap), c)
  {
    var s1 := s.(chunks := s.chunks[swap.theirChunk := swap.theirData]);
    Unfold(h, s, FinalizeStore(swap), c, s1, FinalizeRelease(swap, true));
    ReleaseAlone(h, s1, swap, true, c);
    assert s1.(capacity := s1.capacity.ReleaseReserved(swap.reservedBytes, true)) == StoredAndReleased(s, swap);
  }

  lemma StoreKnownAlone(h: Hash, s: NodeState, swap: PendingSwap, c: Choice)
    requires Keyed(s) && swap.theirChunk in s.chunks
    ensures Complete(h, s, FinalizeStore(swap), c) == StoreSwap(s, swap)
  {
    Unfold(h, s, FinalizeStore(swap), c, s, FinalizeRelease(swap, false));
    ReleaseAlone(h, s, swap, false, c);
  }

  lemma StoredThenCredited(s: NodeState, swap: PendingSwap)
    requires swap.theirChunk !in s.chunks
    ensures Leased(Counted(StoredAndReleased(s, swap), swap), swap) == StoreSwap(s, swap)
  {
  }

  lemma StoreAlone(h: Hash, s: NodeState, swap: PendingSwap, c: Choice)
    requires Keyed(s)
    ensures Complete(h, s, FinalizeStore(swap), c) == StoreSwap(s, swap)
  {
    if swap.theirChunk in s.chunks {
      StoreKnownAlone(h, s, swap, c);
    } else {
      StoreNewAlone(h, s, swap, c);
      GrantAlone(h, StoredAndReleased(s, swap), swap, c);
      StoredThenCredited(s, swap);
    }
  }

  lemma TakeAlone(h: Hash, s: NodeState, pid: ProposalId, c: Choice)
    requires Keyed(s) && pid in s.pending && s.pending[pid].Ready()
    ensures Complete(h, s, FinalizeTake(pid), c) == StoreSwap(CompleteSwap(s, pid), s.pending[pid])
  {
    Unfold(h, s, FinalizeTake(pid), c, CompleteSwap(s, pid), FinalizeStore(s.pending[pid]));
    StoreAlone(h, CompleteSwap(s, pid), s.pending[pid], c);
  }

  lemma FinalizeAlone(h: Hash, s: NodeState, pid: ProposalId, c: Choice)
    requires Keyed(s)
    ensures Complete(h, s, FinalizeTake(pid), c) == FinalizeIfReady(s, pid)
  {
    if pid in s.pending && s.pending[pid].Ready() {
      TakeAlone(h, s, pid, c);
    } else {
      Unfold(h, s, FinalizeTake(pid), c, s, Done);
      DoneAlone(h, s, c);
    }
  }

  lemma {:induction false} ReleasingAlone(h: Hash, s: NodeState, swaps: seq<PendingSwap>, c: Choice)
    requires Keyed(s)
    ensures Complete(h, s, Releasing(swaps), c) == s.(capacity := ReleaseAll(s.capacity, swaps))
    decreases |swaps|
  {
    if swaps == [] {
      Unfold(h, s, Releasing(swaps), c, s, Done);
      DoneAlone(h, s, c);
    } else {
      var s' := s.(capacity := s.capacity.ReleaseReserved(swaps[0].reservedBytes, false));
      Unfold(h, s, Releasing(swaps), c, s', Releasing(swaps[1..]));
      ReleasingAlone(h, s', swaps[1..], c);
    }
  }

  /** The thread is about to drop the swap. */
  predicate Drops(t: Thread, pid: ProposalId) {
    t == AbortDrop(pid) || t == RetrieveDrop(pid) || (t.AcceptDrop? && t.accept.proposalId == pid)
  }

  lemma DropRemoves(h: Hash, s: NodeState, t: Thread, pid: ProposalId, c: Choice)
    requires Keyed(s) && Drops(t, pid)
    requires pid in s.pending
    ensures Next(h, s, t, c) == AbortSwap(s, pid) && Section(h, s, t, c).1 == Releasing([s.pending[pid]])
  {
    OneRemoved(s, pid);
    assert Section(h, s, t, c) == (Remove([pid]), Releasing([s.pending[pid]]));
  }

  lemma OneRemoved(s: NodeState, pid: ProposalId)
    requires pid in s.pending
    ensures Applicable(s, Remove([pid])) && Perform(s, Remove([pid])) == AbortSwap(s, pid)
    ensures Sums.Values(s.pending, [pid]) == [s.pending[pid]]
  {
    assert Sums.KeySet([pid]) == {pid};
    assert LogAll(s.aborted, [pid]) == LogAll(LogId(s.aborted, pid), []);
  }

  lemma DropLiveAlone(h: Hash, s: NodeState, t: Thread, pid: ProposalId, c: Choice)
    requires Keyed(s) && Drops(t, pid)
    requires pid in s.pending
    ensures Complete(h, s, t, c) == AbortAndRelease(s, pid)
  {
    var swap, s' := s.pending[pid], AbortSwap(s, pid);
    DropRemoves(h, s, t, pid, c);
    Unfold(h, s, t, c, s', Releasing([swap]));
    ReleasingAlone(h, s', [swap], c);
    assert ReleaseAll(s.capacity, [swap]) == ReleaseAll(s.capacity.ReleaseReserved(swap.reservedBytes, false), []);
  }

  lemma DropAlone(h: Hash, s: NodeState, t: Thread, pid: ProposalId, c: Choice)
    requires Keyed(s) && Drops(t, pid)
    ensures Complete(h, s, t, c) == AbortAndRelease(s, pid)
  {
    if pid in s.pending {
      DropLiveAlone(h, s, t, pid, c);
    } else {
      Unfold(h, s, t, c, s, Done);
      DoneAlone(h, s, c);
    }
  }

  lemma MarkAlone(h: Hash, s: NodeState, pid: ProposalId, c: Choice)
    requires Keyed(s) && pid in s.pending
    ensures Complete(h, s, CommitMark(pid), c) ==
            FinalizeIfReady(s.(pending := s.pending[pid := s.pending[pid].(receivedCommit := true)]), pid)
  {
    var s' := s.(pending := s.pending[pid := s.pending[pid].(receivedCommit := true)]);
    Unfold(h, s, CommitMark(pid), c, s', FinalizeTake(pid));
    FinalizeAlone(h, s', pid, c);
  }

  lemma CommitAlone(h: Hash, s: NodeState, sender: NodeId, pid: ProposalId, c: Choice)
    requires Keyed(s)
    ensures Complete(h, s, CommitBind(sender, pid), c) == HandleCommit(s, sender, pid)
  {
    if IsPendingWith(s, pid, sender) {
      Unfold(h, s, CommitBind(sender, pid), c, s, CommitMark(pid));
      MarkAlone(h, s, pid, c);
    } else {
      Unfold(h, s, CommitBind(sender, pid), c, s, Done);
      DoneAlone(h, s, c);
    }
  }

  lemma AbortAlone(h: Hash, s: NodeState, sender: NodeId, pid: ProposalId, c: Choice)
    requires Keyed(s)
    ensures Complete(h, s, AbortBind(sender, pid), c) == HandleAbort(s, sender, pid)
  {
    if IsPendingWith(s, pid, sender) {
      Unfold(h, s, AbortBind(sender, pid), c, s, AbortDrop(pid));
      DropAlone(h, s, AbortDrop(pid), pid, c);
    } else {
      Unfold(h, s, AbortBind(sender, pid), c, s, Done);
      DoneAlone(h, s, c);
    }
  }

  lemma ApplyAlone(h: Hash, s: NodeState, a: Accept, c: Choice)
    requires Keyed(s) && a.proposalId in s.pending
    ensures Complete(h, s, AcceptApply(a), c) ==
            s.(pending := s.pending[a.proposalId := Accepted(s.pending[a.proposalId], a)])
  {
    var s' := s.(pending := s.pending[a.proposalId := Accepted(s.pending[a.proposalId], a)]);
    Unfold(h, s, AcceptApply(a), c, s', Done);
    DoneAlone(h, s', c);
  }

  lemma AcceptRoomAlone(h: Hash, s: NodeState, a: Accept, c: Choice)
    requires Keyed(s) && a.proposalId in s.pending && s.capacity.CanAccept(CHUNK_LEN, 0)
    ensures Complete(h, s, AcceptReserve(a), c) ==
            s.(capacity := s.capacity.Reserve(CHUNK_LEN),
                pending := s.pending[a.proposalId := Accepted(s.pending[a.proposalId], a)])
  {
    var s1 := s.(capacity := s.capacity.Reserve(CHUNK_LEN));
    Unfold(h, s, AcceptReserve(a), c, s1, AcceptApply(a));
    ApplyAlone(h, s1, a, c);
  }

  lemma AcceptBoundAlone(h: Hash, s: NodeState, a: Accept, c: Choice)
    requires Keyed(s) && IsPendingWith(s, a.proposalId, a.fromNode)
    ensures Complete(h, s, AcceptReserve(a), c) == HandleAccept(s, a).0
  {
    if s.capacity.CanAccept(CHUNK_LEN, 0) {
      AcceptRoomAlone(h, s, a, c);
    } else {
      Unfold(h, s, AcceptReserve(a), c, s, AcceptDrop(a));
      DropAlone(h, s, AcceptDrop(a), a.proposalId, c);
    }
  }

  lemma AcceptAlone(h: Hash, s: NodeState, a: Accept, c: Choice)
    requires Keyed(s)
    ensures Complete(h, s, AcceptBind(a), c) == HandleAccept(s, a).0
  {
    if IsPendingWith(s, a.proposalId, a.fromNode) {
      Unfold(h, s, AcceptBind(a), c, s, AcceptReserve(a));
      AcceptBoundAlone(h, s, a, c);
    } else {
      Unfold(h, s, AcceptBind(a), c, s, Done);
      DoneAlone(h, s, c);
    }
  }

  lemma ExpiryAlone(h: Hash, s: NodeState, now: nat, timeout: nat, order: seq<ProposalId>)
    requires Keyed(s) && ExpiryOrder(s, now, timeout, order)
    ensures Complete(h, s, ExpireSweep(now, timeout), Order(order)) == ExpirePending(s, order)
  {
    var s', swaps := SweptOut(s, order), Sums.Values(s.pending, order);
    Unfold(h, s, ExpireSweep(now, timeout), Order(order), s', Releasing(swaps));
    ReleasingAlone(h, s', swaps, Order(order));
  }

  /** The table after the sweep, before anything is released. */
  ghost function SweptOut(s: NodeState, order: seq<ProposalId>): NodeState {
    s.(pending := s.pending - Sums.KeySet(order), aborted := LogAll(s.aborted, order))
  }

  lemma SentAlone(h: Hash, s: NodeState, pid: ProposalId, c: Choice)
    requires Keyed(s) && pid in s.pending
    ensures Complete(h, s, RetrieveCommit(pid), c) ==
            FinalizeIfReady(s.(pending := s.pending[pid := s.pending[pid].(sentCommit := true)]), pid)
  {
    var s' := s.(pending := s.pending[pid := s.pending[pid].(sentCommit := true)]);
    Unfold(h, s, RetrieveCommit(pid), c, s', FinalizeTake(pid));
    FinalizeAlone(h, s', pid, c);
  }

  function DataIn(s: NodeState, pid: ProposalId, data: seq<byte>): NodeState
    requires pid in s.pending
  {
    s.(pending := s.pending[pid := s.pending[pid].(theirData := data, receivedChunk := true)])
  }

  lemma DataThenSent(s: NodeState, pid: ProposalId, data: seq<byte>)
    requires pid in s.pending
    ensures var s1 := DataIn(s, pid, data);
            s1.(pending := s1.pending[pid := s1.pending[pid].(sentCommit := true)]) == Buffered(s, pid, data)
  {
  }

  lemma DataAlone(h: Hash, s: NodeState, t: Thread, c: Choice)
    requires Keyed(s) && t.RetrieveBuffer? && t.pid in s.pending
    ensures Keyed(DataIn(s, t.pid, t.data))
    ensures Complete(h, s, t, c) == Complete(h, DataIn(s, t.pid, t.data), RetrieveCommit(t.pid), c)
  {
    Unfold(h, s, t, c, DataIn(s, t.pid, t.data), RetrieveCommit(t.pid));
  }

  lemma BufferAlone(h: Hash, s: NodeState, t: Thread, c: Choice)
    requires Keyed(s) && t.RetrieveBuffer? && t.pid in s.pending
    ensures Complete(h, s, t, c) == FinalizeIfReady(Buffered(s, t.pid, t.data), t.pid)
  {
    DataAlone(h, s, t, c);
    SentAlone(h, DataIn(s, t.pid, t.data), t.pid, c);
    DataThenSent(s, t.pid, t.data);
  }

  lemma RetrievalAlone(h: Hash, s: NodeState, chunk: ChunkId, data: seq<byte>, pick: Option<ProposalId>)
    requires Keyed(s) && WaitingPick(s, chunk, pick)
    ensures Complete(h, s, RetrieveFind(chunk, data), Swap(pick)) == HandleRetrieval(h, s, chunk, data, pick).0
  {
    var c, t := Swap(pick), RetrieveFind(chunk, data);
    if |data| != CHUNK_LEN || pick.None? {
      Unfold(h, s, t, c, s, Done);
      DoneAlone(h, s, c);
    } else {
      var pid, swap := pick.value, s.pending[pick.value];
      if PassesGate(h, swap.contentRoot, swap.merkleProof, data) {
        var buffer := RetrieveBuffer(pid, chunk, swap.contentRoot, swap.merkleProof, data);
        Unfold(h, s, t, c, s, buffer);
        BufferAlone(h, s, buffer, c);
      } else {
        Unfold(h, s, t, c, s, RetrieveDrop(pid));
        DropAlone(h, s, RetrieveDrop(pid), pid, c);
      }
    }
  }

  /** The node with an accepted proposal opened. */
  function OpenedFor(h: Hash, s: NodeState, p: Proposal, now: nat, ret: ChunkId): NodeState {
    StartPending(s.(capacity := s.capacity.Reserve(CHUNK_LEN)), AccepterSwap(ProposalIdOf(h, p), p, ret, now))
  }

  lemma OpenAlone(h: Hash, s: NodeState, p: Proposal, now: nat, ret: ChunkId, c: Choice)
    requires Keyed(s)
    ensures Complete(h, s, ProposalOpen(p, now, ret), c)
            == StartPending(s, AccepterSwap(ProposalIdOf(h, p), p, ret, now))
  {
    var s' := StartPending(s, AccepterSwap(ProposalIdOf(h, p), p, ret, now));
    Unfold(h, s, ProposalOpen(p, now, ret), c, s', Done);
    DoneAlone(h, s', c);
  }

  lemma ReserveAlone(h: Hash, s: NodeState, p: Proposal, now: nat, n: nat, ret: ChunkId, c: Choice)
    requires Keyed(s) && s.capacity.CanAccept(CHUNK_LEN, n)
    ensures Complete(h, s, ProposalReserve(p, now, n, ret), c) == OpenedFor(h, s, p, now, ret)
  {
    var s1 := s.(capacity := s.capacity.Reserve(CHUNK_LEN));
    Unfold(h, s, ProposalReserve(p, now, n, ret), c, s1, ProposalOpen(p, now, ret));
    OpenAlone(h, s1, p, now, ret, c);
  }

  lemma BoundAlone(h: Hash, s: NodeState, p: Proposal, now: nat, n: nat, ret: ChunkId, c: Choice)
    requires Keyed(s) && s.capacity.CanAccept(CHUNK_LEN, n)
    ensures Complete(h, s, ProposalBound(p, now, n, ret), c) ==
            if |s.pending| < MAX_PENDING_SWAPS then OpenedFor(h, s, p, now, ret) else s
  {
    if |s.pending| >= MAX_PENDING_SWAPS {
      Unfold(h, s, ProposalBound(p, now, n, ret), c, s, Done);
      DoneAlone(h, s, c);
    } else {
      Unfold(h, s, ProposalBound(p, now, n, ret), c, s, ProposalReserve(p, now, n, ret));
      ReserveAlone(h, s, p, now, n, ret, c);
    }
  }

  lemma FindAlone(h: Hash, s: NodeState, p: Proposal, now: nat, n: nat, pick: Option<ChunkId>)
    requires Keyed(s) && ReturnPick(s, p, pick) && s.capacity.CanAccept(CHUNK_LEN, n)
    ensures Complete(h, s, ProposalFind(p, now, n), Chunk(pick)) ==
            if pick.Some? && |s.pending| < MAX_PENDING_SWAPS then OpenedFor(h, s, p, now, pick.value) else s
  {
    if pick.None? {
      Unfold(h, s, ProposalFind(p, now, n), Chunk(pick), s, Done);
      DoneAlone(h, s, Chunk(pick));
    } else {
      Unfold(h, s, ProposalFind(p, now, n), Chunk(pick), s, ProposalBound(p, now, n, pick.value));
      BoundAlone(h, s, p, now, n, pick.value, Chunk(pick));
    }
  }

  /** From the decision on, with the counter already reconciled. */
  lemma DecideAlone(h: Hash, s: NodeState, p: Proposal, now: nat, pick: Option<ChunkId>)
    requires Keyed(s) && ReturnPick(s, p, pick)
    ensures Complete(h, s, ProposalDecide(p, now, PeerCount(s, p.fromNode)), Chunk(pick)) ==
            if Acceptable(s.capacity, p, PeerCount(s, p.fromNode), now) && pick.Some? && |s.pending| < MAX_PENDING_SWAPS
            then OpenedFor(h, s, p, now, pick.value) else s
  {
    var c, n := Chunk(pick), PeerCount(s, p.fromNode);
    if Acceptable(s.capacity, p, n, now) {
      Unfold(h, s, ProposalDecide(p, now, n), c, s, ProposalFind(p, now, n));
      FindAlone(h, s, p, now, n, pick);
    } else {
      Unfold(h, s, ProposalDecide(p, now, n), c, s, Done);
      DoneAlone(h, s, c);
    }
  }

  lemma ProposalAlone(h: Hash, s: NodeState, p: Proposal, now: nat, pick: Option<ChunkId>, token: Bytes32)
    requires Keyed(s) && ReturnPick(s, p, pick)
    ensures Complete(h, s, ProposalRead(p, now), Chunk(pick)) == HandleProposal(h, s, p, now, pick, token).0
  {
    var c, held := Chunk(pick), HeldBytes(s.chunks);
    var s1 := s.(capacity := s.capacity.Reconcile(held));
    ReconcileAlone(h, s, p, now, c);
    CountAlone(h, s1, p, now, c);
    DecideAlone(h, s1, p, now, pick);
  }

  lemma ReconcileAlone(h: Hash, s: NodeState, p: Proposal, now: nat, c: Choice)
    requires Keyed(s)
    ensures Complete(h, s, ProposalRead(p, now), c)
         == Complete(h, s.(capacity := s.capacity.Reconcile(HeldBytes(s.chunks))), ProposalCount(p, now), c)
  {
    var held := HeldBytes(s.chunks);
    var s1 := s.(capacity := s.capacity.Reconcile(held));
    Unfold(h, s, ProposalRead(p, now), c, s, ProposalReconcile(p, now, held));
    Unfold(h, s, ProposalReconcile(p, now, held), c, s1, ProposalCount(p, now));
  }

  lemma CountAlone(h: Hash, s: NodeState, p: Proposal, now: nat, c: Choice)
    requires Keyed(s)
    ensures Complete(h, s, ProposalCount(p, now), c)
            == Complete(h, s, ProposalDecide(p, now, PeerCount(s, p.fromNode)), c)
  {
    Unfold(h, s, ProposalCount(p, now), c, s, ProposalDecide(p, now, PeerCount(s, p.fromNode)));
  }
}
