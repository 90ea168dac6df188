/** Runs of one node whose handlers are not interleaved: when is the reservation counter exact? */
module SwapEvents {
  import opened Bytes
  import opened Merkle
  import opened Swap
  import Sums

  /** One handler call, with what its walks over hash maps happened to find. */
  datatype Event =
    | Begin(peer: NodeId, own: Proposal, now: nat)
    | Proposed(p: Proposal, now: nat, ret: Option<ChunkId>, token: Bytes32)
    | AcceptIn(accept: Accept)
    | CommitIn(sender: NodeId, pid: ProposalId)
    | AbortIn(sender: NodeId, pid: ProposalId)
    | Retrieved(chunk: ChunkId, data: seq<byte>, waiting: Option<ProposalId>)
    | Expiry(now: nat, timeout: nat, order: seq<ProposalId>)

  ghost predicate Possible(s: NodeState, ev: Event) {
    match ev
    case Proposed(p, _, ret, _) => ReturnPick(s, p, ret)
    case Retrieved(chunk, _, waiting) => WaitingPick(s, chunk, waiting)
    case Expiry(now, timeout, order) => ExpiryOrder(s, now, timeout, order)
    case _ => true
  }

  ghost function Handle(h: Hash, s: NodeState, ev: Event): NodeState {
    if !Possible(s, ev) then s
    else
      match ev
      case Begin(peer, own, now) => BeginProposal(h, s, peer, own, now)
      case Proposed(p, now, ret, token) => HandleProposal(h, s, p, now, ret, token).0
      case AcceptIn(a) => HandleAccept(s, a).0
      case CommitIn(sender, pid) => HandleCommit(s, sender, pid)
      case AbortIn(sender, pid) => HandleAbort(s, sender, pid)
      case Retrieved(chunk, data, waiting) => HandleRetrieval(h, s, chunk, data, waiting).0
      case Expiry(_, _, order) => ExpirePending(s, order)
  }

  ghost function RunEvents(h: Hash, s: NodeState, evs: seq<Event>): NodeState
    decreases |evs|
  {
    if evs == [] then s else RunEvents(h, Handle(h, s, evs[0]), evs[1..])
  }

  // -------------------------------------------------------- leaks of a handler

  /** The proposal is accepted, so a new entry is opened. */
  ghost predicate Opens(s: NodeState, p: Proposal, now: nat, ret: Option<ChunkId>) {
    && ret.Some? && |s.pending| < MAX_PENDING_SWAPS
    && Acceptable(s.capacity.Reconcile(HeldBytes(s.chunks)), p, PeerCount(s, p.fromNode), now)
  }

  /** Reserved bytes that lose their entry: it is opened anew, or accepted a second time. */
  ghost function HandlerLeak(h: Hash, s: NodeState, ev: Event): nat {
    if !Possible(s, ev) then 0
    else
      match ev
      case Begin(_, own, _) => ReservedFor(s, ProposalIdOf(h, own))
      case Proposed(p, now, ret, _) => if Opens(s, p, now, ret) then ReservedFor(s, ProposalIdOf(h, p)) else 0
      case AcceptIn(a) =>
        if IsPendingWith(s, a.proposalId, a.fromNode) && s.capacity.CanAccept(CHUNK_LEN, 0)
        then ReservedFor(s, a.proposalId) else 0
      case _ => 0
  }

  /** What is reserved beyond what the pending table holds. */
  ghost predicate Exceeds(s: NodeState, leaked: nat) {
    s.capacity.reservedBytes == PendingBytes(s) + leaked
  }

  lemma EntryWritten(s: NodeState, pid: ProposalId, swap: PendingSwap)
    ensures Sums.Sum(s.pending[pid := swap], ReservedOf) + ReservedFor(s, pid) == PendingBytes(s) + swap.reservedBytes
  {
    Sums.SumUpdate(s.pending, ReservedOf, pid, swap);
  }

  lemma AbortConserves(s: NodeState, pid: ProposalId, leaked: nat)
    requires Exceeds(s, leaked)
    ensures Exceeds(AbortAndRelease(s, pid), leaked)
  {
    if pid in s.pending {
      Sums.SumRemove(s.pending, ReservedOf, pid);
    }
  }

  lemma FinalizeConserves(s: NodeState, pid: ProposalId, leaked: nat)
    requires Exceeds(s, leaked)
    ensures Exceeds(FinalizeIfReady(s, pid), leaked)
  {
    if pid in s.pending {
      Sums.SumRemove(s.pending, ReservedOf, pid);
    }
  }

  lemma {:induction false} ReleaseAllReserved(c: Capacity, swaps: seq<PendingSwap>)
    requires Sums.SumSeq(swaps, ReservedOf) <= c.reservedBytes
    ensures ReleaseAll(c, swaps) == c.(reservedBytes := c.reservedBytes - Sums.SumSeq(swaps, ReservedOf))
    decreases |swaps|
  {
    if swaps != [] {
      ReleaseAllReserved(c.ReleaseReserved(swaps[0].reservedBytes, false), swaps[1..]);
    }
  }

  lemma ExpiryConserves(s: NodeState, order: seq<ProposalId>, leaked: nat)
    requires Exceeds(s, leaked) && Sums.NoDuplicates(order) && forall pid :: pid in order ==> pid in s.pending
    ensures Exceeds(ExpirePending(s, order), leaked)
  {
    Sums.SumSplit(s.pending, order, ReservedOf);
    ReleaseAllReserved(s.capacity, Sums.Values(s.pending, order));
  }

  lemma RetrievalConserves(h: Hash, s: NodeState, chunk: ChunkId, data: seq<byte>, waiting: Option<ProposalId>,
        leaked: nat)
    requires Exceeds(s, leaked) && WaitingPick(s, chunk, waiting)
    ensures Exceeds(HandleRetrieval(h, s, chunk, data, waiting).0, leaked)
  {
    if |data| == CHUNK_LEN && waiting.Some? {
      var pid := waiting.value;
      AbortConserves(s, pid, leaked);
      var swap := s.pending[pid].(theirData := data, receivedChunk := true, sentCommit := true);
      EntryWritten(s, pid, swap);
      assert Buffered(s, pid, data).pending == s.pending[pid := swap];
      FinalizeConserves(Buffered(s, pid, data), pid, leaked);
    }
  }

  lemma CommitConserves(s: NodeState, sender: NodeId, pid: ProposalId, leaked: nat)
    requires Exceeds(s, leaked)
    ensures Exceeds(HandleCommit(s, sender, pid), leaked)
  {
    if IsPendingWith(s, pid, sender) {
      var swap := s.pending[pid].(receivedCommit := true);
      EntryWritten(s, pid, swap);
      FinalizeConserves(s.(pending := s.pending[pid := swap]), pid, leaked);
    }
  }

  lemma BeginLeaks(h: Hash, s: NodeState, ev: Event, leaked: nat)
    requires ev.Begin? && Exceeds(s, leaked)
    ensures Exceeds(Handle(h, s, ev), leaked + HandlerLeak(h, s, ev))
  {
    var pid := ProposalIdOf(h, ev.own);
    EntryWritten(s, pid, ProposerSwap(pid, ev.peer, ev.own.chunkId, ev.now));
  }

  lemma ProposedLeaks(h: Hash, s: NodeState, ev: Event, leaked: nat)
    requires ev.Proposed? && Exceeds(s, leaked)
    ensures Exceeds(Handle(h, s, ev), leaked + HandlerLeak(h, s, ev))
  {
    if Possible(s, ev) && Opens(s, ev.p, ev.now, ev.ret) {
      var pid := ProposalIdOf(h, ev.p);
      EntryWritten(s, pid, AccepterSwap(pid, ev.p, ev.ret.value, ev.now));
    }
  }

  lemma AcceptLeaks(h: Hash, s: NodeState, ev: Event, leaked: nat)
    requires ev.AcceptIn? && Exceeds(s, leaked)
    ensures Exceeds(Handle(h, s, ev), leaked + HandlerLeak(h, s, ev))
  {
    var a := ev.accept;
    AbortConserves(s, a.proposalId, leaked);
    if IsPendingWith(s, a.proposalId, a.fromNode) {
      EntryWritten(s, a.proposalId, Accepted(s.pending[a.proposalId], a));
    }
  }

  lemma OpeningLeaks(h: Hash, s: NodeState, ev: Event, leaked: nat)
    requires (ev.Begin? || ev.Proposed? || ev.AcceptIn?) && Exceeds(s, leaked)
    ensures Exceeds(Handle(h, s, ev), leaked + HandlerLeak(h, s, ev))
  {
    if ev.Begin? {
      BeginLeaks(h, s, ev, leaked);
    } else if ev.Proposed? {
      ProposedLeaks(h, s, ev, leaked);
    } else {
      AcceptLeaks(h, s, ev, leaked);
    }
  }

  /** Every handler conserves reserved bytes up to exactly its leak. */
  lemma HandlerConserves(h: Hash, s: NodeState, ev: Event, leaked: nat)
    requires Exceeds(s, leaked)
    ensures Exceeds(Handle(h, s, ev), leaked + HandlerLeak(h, s, ev))
  {
    if ev.Begin? || ev.Proposed? || ev.AcceptIn? {
      OpeningLeaks(h, s, ev, leaked);
    } else if Possible(s, ev) {
      match ev
      case CommitIn(sender, pid) => CommitConserves(s, sender, pid, leaked);
      case AbortIn(sender, pid) => AbortConserves(s, pid, leaked);
      case Retrieved(chunk, data, waiting) => RetrievalConserves(h, s, chunk, data, waiting, leaked);
      case Expiry(now, timeout, order) => ExpiryConserves(s, order, leaked);
    }
  }

  ghost predicate LeakFree(h: Hash, s: NodeState, evs: seq<Event>)
    decreases |evs|
  {
    evs == [] || (HandlerLeak(h, s, evs[0]) == 0 && LeakFree(h, Handle(h, s, evs[0]), evs[1..]))
  }

  /** With whole handlers the counter equals the pending total at the end of a run if and only if
      no call of the run opened a live reserved entry again or accepted one twice. */
  lemma ExactIffLeakFree(h: Hash, s: NodeState, evs: seq<Event>)
    requires Exceeds(s, 0)
    ensures RunEvents(h, s, evs).capacity.reservedBytes == PendingBytes(RunEvents(h, s, evs)) <==> LeakFree(h, s, evs)
  {
    var leaked := LeakAccumulates(h, s, evs, 0);
  }

  lemma {:induction false} LeakAccumulates(h: Hash, s: NodeState, evs: seq<Event>, before: nat) returns (leaked: nat)
    requires Exceeds(s, before)
    ensures Exceeds(RunEvents(h, s, evs), leaked) && leaked >= before
    ensures leaked == before <==> LeakFree(h, s, evs)
    decreases |evs|
  {
    if evs == [] {
      leaked := before;
    } else {
      HandlerConserves(h, s, evs[0], before);
      leaked := LeakAccumulates(h, Handle(h, s, evs[0]), evs[1..], before + HandlerLeak(h, s, evs[0]));
    }
  }

  // ------------------------------------------- opened once, accepted at most once

  /** A call that opens no live proposal again and accepts only an entry still waiting for its
      return chunk, with chunk ids that are not all-zero. */
  predicate OnceOnly(h: Hash, s: NodeState, ev: Event) {
    match ev
    case Begin(_, own, _) => ProposalIdOf(h, own) !in s.pending
    case Proposed(p, _, _, _) => ProposalIdOf(h, p) !in s.pending && p.chunkId != ZERO32
    case AcceptIn(a) =>
      a.chunkId != ZERO32 && (a.proposalId in s.pending ==> s.pending[a.proposalId].theirChunk == ZERO32)
    case _ => true
  }

  ghost predicate OnceOnlyRun(h: Hash, s: NodeState, evs: seq<Event>)
    decreases |evs|
  {
    evs == [] || (OnceOnly(h, s, evs[0]) && OnceOnlyRun(h, Handle(h, s, evs[0]), evs[1..]))
  }

  /** An entry whose return chunk is not named yet has reserved nothing. */
  ghost predicate UnnamedReserveNothing(s: NodeState) {
    forall pid :: pid in s.pending && s.pending[pid].theirChunk == ZERO32 ==> s.pending[pid].reservedBytes == 0
  }

  lemma OpeningOnceKeeps(h: Hash, s: NodeState, ev: Event)
    requires (ev.Begin? || ev.Proposed?) && UnnamedReserveNothing(s) && OnceOnly(h, s, ev)
    ensures UnnamedReserveNothing(Handle(h, s, ev)) && HandlerLeak(h, s, ev) == 0
  {
  }

  lemma AcceptingOnceKeeps(h: Hash, s: NodeState, ev: Event)
    requires ev.AcceptIn? && UnnamedReserveNothing(s) && OnceOnly(h, s, ev)
    ensures UnnamedReserveNothing(Handle(h, s, ev)) && HandlerLeak(h, s, ev) == 0
  {
  }

  lemma RetrievingOnceKeeps(h: Hash, s: NodeState, ev: Event)
    requires ev.Retrieved? && UnnamedReserveNothing(s)
    ensures UnnamedReserveNothing(Handle(h, s, ev)) && HandlerLeak(h, s, ev) == 0
  {
  }

  lemma OnceOnlyKeeps(h: Hash, s: NodeState, ev: Event)
    requires UnnamedReserveNothing(s) && OnceOnly(h, s, ev)
    ensures UnnamedReserveNothing(Handle(h, s, ev)) && HandlerLeak(h, s, ev) == 0
  {
    if ev.Begin? || ev.Proposed? {
      OpeningOnceKeeps(h, s, ev);
    } else if ev.AcceptIn? {
      AcceptingOnceKeeps(h, s, ev);
    } else if ev.Retrieved? {
      RetrievingOnceKeeps(h, s, ev);
    } else {
      ClosingOnceKeeps(h, s, ev);
    }
  }

  lemma ClosingOnceKeeps(h: Hash, s: NodeState, ev: Event)
    requires (ev.CommitIn? || ev.AbortIn? || ev.Expiry?) && UnnamedReserveNothing(s)
    ensures UnnamedReserveNothing(Handle(h, s, ev)) && HandlerLeak(h, s, ev) == 0
  {
  }

  lemma {:induction false} OnceOnlyIsLeakFree(h: Hash, s: NodeState, evs: seq<Event>)
    requires UnnamedReserveNothing(s) && OnceOnlyRun(h, s, evs)
    ensures LeakFree(h, s, evs)
    decreases |evs|
  {
    if evs != [] {
      OnceOnlyKeeps(h, s, evs[0]);
      OnceOnlyIsLeakFree(h, Handle(h, s, evs[0]), evs[1..]);
    }
  }

  /** Opened once and accepted at most once: the counter is exactly the pending total. */
  lemma OnceOnlyIsExact(h: Hash, s: NodeState, evs: seq<Event>)
    requires s.pending == map[] && s.capacity.reservedBytes == 0 && OnceOnlyRun(h, s, evs)
    ensures RunEvents(h, s, evs).capacity.reservedBytes == PendingBytes(RunEvents(h, s, evs))
  {
    OnceOnlyIsLeakFree(h, s, evs);
    ExactIffLeakFree(h, s, evs);
  }
}
