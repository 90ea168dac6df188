/** The swap handlers at lock granularity: every lock-delimited section of every handler is one
    step, any number of handlers run at once, and any interleaving of their steps is a run. */
module SwapLocks {
  import opened Bytes
  import opened Merkle
  import opened Swap
  import Sums

  /** A handler between two of its critical sections, with the local variables it still needs. */
  datatype Thread =
    | ProposalRead(p: Proposal, now: nat)
    | ProposalReconcile(p: Proposal, now: nat, actual: nat)
    | ProposalCount(p: Proposal, now: nat)
    | ProposalDecide(p: Proposal, now: nat, peerChunks: nat)
    | ProposalFind(p: Proposal, now: nat, peerChunks: nat)
    | ProposalBound(p: Proposal, now: nat, peerChunks: nat, ret: ChunkId)
    | ProposalReserve(p: Proposal, now: nat, peerChunks: nat, ret: ChunkId)
    | ProposalOpen(p: Proposal, now: nat, ret: ChunkId)
    | BeginOpen(p: Proposal, now: nat, peer: NodeId)
    | AcceptBind(accept: Accept)
    | AcceptReserve(accept: Accept)
    | AcceptDrop(accept: Accept)
    | AcceptApply(accept: Accept)
    | CommitBind(sender: NodeId, pid: ProposalId)
    | CommitMark(pid: ProposalId)
    | AbortBind(sender: NodeId, pid: ProposalId)
    | AbortDrop(pid: ProposalId)
    | ExpireSweep(now: nat, timeout: nat)
    | Releasing(swaps: seq<PendingSwap>)
    | RetrieveFind(chunk: ChunkId, data: seq<byte>)
    | RetrieveDrop(pid: ProposalId)
    | RetrieveBuffer(pid: ProposalId, chunk: ChunkId, root: Bytes32, proof: MerkleProof, data: seq<byte>)
    | RetrieveCommit(pid: ProposalId)
    | FinalizeTake(pid: ProposalId)
    | FinalizeStore(swap: PendingSwap)
    | FinalizeRelease(swap: PendingSwap, isNew: bool)
    | FinalizeCount(swap: PendingSwap)
    | FinalizeLease(swap: PendingSwap)
    | Done

  /** What a walk over a hash map happens to find; only three sections walk one. */
  datatype Choice =
    | NoChoice
    | Chunk(chunk: Option<ChunkId>)
    | Swap(swap: Option<ProposalId>)
    | Order(pids: seq<ProposalId>)

  predicate Starts(t: Thread) {
    t.ProposalRead? || t.BeginOpen? || t.AcceptBind? || t.CommitBind? || t.AbortBind? || t.ExpireSweep?
        || t.RetrieveFind?
  }

  /** What one critical section does to the shared state. */
  datatype Effect =
    | Nothing
    | SetCapacity(capacity: Capacity)
    | Open(swap: PendingSwap)
    | Amend(swap: PendingSwap)
    | Buffer(pid: ProposalId, root: Bytes32, proof: MerkleProof, data: seq<byte>)
    | Remove(pids: seq<ProposalId>)
    | Take(pid: ProposalId)
    | Keep(swap: PendingSwap)
    | Credit(peer: NodeId)
    | Grant(swap: PendingSwap)

  ghost predicate Applicable(s: NodeState, e: Effect) {
    match e
    case Amend(swap) => swap.proposalId in s.pending
    case Buffer(pid, _, _, _) => pid in s.pending
    case Remove(pids) => Sums.NoDuplicates(pids) && forall pid :: pid in pids ==> pid in s.pending
    case Take(pid) => pid in s.pending && s.pending[pid].Ready()
    case _ => true
  }

  ghost function Perform(s: NodeState, e: Effect): NodeState
    requires Applicable(s, e)
  {
    match e
    case Nothing => s
    case SetCapacity(capacity) => s.(capacity := capacity)
    case Open(swap) => StartPending(s, swap)
    case Amend(swap) => s.(pending := s.pending[swap.proposalId := swap])
    case Buffer(pid, _, _, data) =>
      s.(pending := s.pending[pid := s.pending[pid].(theirData := data, receivedChunk := true)])
    case Remove(pids) => s.(pending := s.pending - Sums.KeySet(pids), aborted := LogAll(s.aborted, pids))
    case Take(pid) => CompleteSwap(s, pid)
    case Keep(swap) => s.(chunks := s.chunks[swap.theirChunk := swap.theirData])
    case Credit(peer) => s.(peerCounts := s.peerCounts[peer := PeerCount(s, peer) + 1])
    case Grant(swap) => s.(leases := s.leases[swap.theirChunk := LeaseOf(swap)])
  }

  /** `abort_swap`: the reservation of the removed entry is released in a later section. */
  function DropSection(s: NodeState, pid: ProposalId): (Effect, Thread) {
    if pid in s.pending then (Remove([pid]), Releasing([s.pending[pid]])) else (Nothing, Done)
  }

  /** One critical section of one handler. A section whose walk cannot yield `c` does nothing. */
  ghost function Section(h: Hash, s: NodeState, t: Thread, c: Choice): (Effect, Thread) {
    match t
    case ProposalRead(p, now) => (Nothing, ProposalReconcile(p, now, HeldBytes(s.chunks)))
    case ProposalReconcile(p, now, actual) => (SetCapacity(s.capacity.Reconcile(actual)), ProposalCount(p, now))
    case ProposalCount(p, now) => (Nothing, ProposalDecide(p, now, PeerCount(s, p.fromNode)))
    case ProposalDecide(p, now, n) =>
      (Nothing, if Acceptable(s.capacity, p, n, now) then ProposalFind(p, now, n) else Done)
    case ProposalFind(p, now, n) =>
      if !c.Chunk? || !ReturnPick(s, p, c.chunk) then (Nothing, t)
      else (Nothing, if c.chunk.Some? then ProposalBound(p, now, n, c.chunk.value) else Done)
    case ProposalBound(p, now, n, ret) =>
      (Nothing, if |s.pending| >= MAX_PENDING_SWAPS then Done else ProposalReserve(p, now, n, ret))
    case ProposalReserve(p, now, n, ret) =>
      if s.capacity.CanAccept(CHUNK_LEN, n)
      then (SetCapacity(s.capacity.Reserve(CHUNK_LEN)), ProposalOpen(p, now, ret)) else (Nothing, Done)
    case ProposalOpen(p, now, ret) => (Open(AccepterSwap(ProposalIdOf(h, p), p, ret, now)), Done)
    case BeginOpen(p, now, peer) => (Open(ProposerSwap(ProposalIdOf(h, p), peer, p.chunkId, now)), Done)
    case AcceptBind(a) => (Nothing, if IsPendingWith(s, a.proposalId, a.fromNode) then AcceptReserve(a) else Done)
    case AcceptReserve(a) =>
      if s.capacity.CanAccept(CHUNK_LEN, 0)
      then (SetCapacity(s.capacity.Reserve(CHUNK_LEN)), AcceptApply(a)) else (Nothing, AcceptDrop(a))
    case AcceptDrop(a) => DropSection(s, a.proposalId)
    case AcceptApply(a) =>
      (if a.proposalId in s.pending then Amend(Accepted(s.pending[a.proposalId], a)) else Nothing, Done)
    case CommitBind(sender, pid) => (Nothing, if IsPendingWith(s, pid, sender) then CommitMark(pid) else Done)
    case CommitMark(pid) =>
      (if pid in s.pending then Amend(s.pending[pid].(receivedCommit := true)) else Nothing, FinalizeTake(pid))
    case AbortBind(sender, pid) => (Nothing, if IsPendingWith(s, pid, sender) then AbortDrop(pid) else Done)
    case AbortDrop(pid) => DropSection(s, pid)
    case ExpireSweep(now, timeout) =>
      if !c.Order? || !ExpiryOrder(s, now, timeout, c.pids) then (Nothing, t)
      else (Remove(c.pids), Releasing(Sums.Values(s.pending, c.pids)))
    case Releasing(swaps) =>
      if swaps == [] then (Nothing, Done)
      else (SetCapacity(s.capacity.ReleaseReserved(swaps[0].reservedBytes, false)), Releasing(swaps[1..]))
    case RetrieveFind(chunk, data) =>
      if |data| != CHUNK_LEN then (Nothing, Done)
      else if !c.Swap? || !WaitingPick(s, chunk, c.swap) then (Nothing, t)
      else if c.swap.None? then (Nothing, Done)
      else
        var swap := s.pending[c.swap.value];
        (Nothing, if PassesGate(h, swap.contentRoot, swap.merkleProof, data)
         then RetrieveBuffer(c.swap.value, chunk, swap.contentRoot, swap.merkleProof, data)
         else RetrieveDrop(c.swap.value))
    case RetrieveDrop(pid) => DropSection(s, pid)
    case RetrieveBuffer(pid, chunk, root, proof, data) =>
      if pid in s.pending then (Buffer(pid, root, proof, data), RetrieveCommit(pid)) else (Nothing, Done)
    case RetrieveCommit(pid) =>
      (if pid in s.pending then Amend(s.pending[pid].(sentCommit := true)) else Nothing, FinalizeTake(pid))
    case FinalizeTake(pid) =>
      if pid in s.pending && s.pending[pid].Ready() then (Take(pid), FinalizeStore(s.pending[pid])) else (Nothing, Done)
    case FinalizeStore(swap) =>
      if swap.theirChunk in s.chunks then (Nothing, FinalizeRelease(swap, false))
      else (Keep(swap), FinalizeRelease(swap, true))
    case FinalizeRelease(swap, isNew) =>
      (SetCapacity(s.capacity.ReleaseReserved(swap.reservedBytes, isNew)), if isNew then FinalizeCount(swap) else Done)
    case FinalizeCount(swap) => (Credit(swap.peer), FinalizeLease(swap))
    case FinalizeLease(swap) => (Grant(swap), Done)
    case Done => (Nothing, Done)
  }

  /** The sections that open swaps or bind accepts; the others close or finish swaps. */
  predicate Opening(t: Thread) {
    || t.ProposalRead? || t.ProposalReconcile? || t.ProposalCount? || t.ProposalDecide? || t.ProposalFind?
    || t.ProposalBound? || t.ProposalReserve? || t.ProposalOpen? || t.BeginOpen?
    || t.AcceptBind? || t.AcceptReserve? || t.AcceptDrop? || t.AcceptApply?
  }

  /** The sections that finish a completed swap, and the end. */
  predicate Finishing(t: Thread) {
    t.FinalizeTake? || t.FinalizeStore? || t.FinalizeRelease? || t.FinalizeCount? || t.FinalizeLease? || t.Done?
  }

  lemma OpeningApplicable(h: Hash, s: NodeState, t: Thread, c: Choice)
    requires Keyed(s) && Opening(t)
    ensures Applicable(s, Section(h, s, t, c).0)
  {
  }

  lemma ClosingApplicable(h: Hash, s: NodeState, t: Thread, c: Choice)
    requires Keyed(s) && !Opening(t)
    ensures Applicable(s, Section(h, s, t, c).0)
  {
  }

  lemma SectionApplicable(h: Hash, s: NodeState, t: Thread, c: Choice)
    requires Keyed(s)
    ensures Applicable(s, Section(h, s, t, c).0)
  {
    if Opening(t) {
      OpeningApplicable(h, s, t, c);
    } else {
      ClosingApplicable(h, s, t, c);
    }
  }

  lemma PerformKeyed(s: NodeState, e: Effect)
    requires Keyed(s) && Applicable(s, e)
    ensures Keyed(Perform(s, e))
  {
  }

  // ---------------------------------------------------------------- system

  /** A chunk that passed the integrity gate and was buffered for a proposal. */
  datatype Evidence = Evidence(pid: ProposalId, root: Bytes32, proof: MerkleProof, data: seq<byte>)

  /** What has happened so far; no step reads it. */
  datatype Past = Past(
    begun: set<ProposalId>, dropped: set<ProposalId>, taken: set<ProposalId>,
    buffered: set<Evidence>, stored: seq<PendingSwap>)

  datatype System = System(node: NodeState, threads: map<nat, Thread>, past: Past)

  /** A handler starts, one of its sections runs, or another task of the node changes the
      holder, the stored-bytes counter or the leases (cache, repair, expiry, reconciliation). */
  datatype Label =
    | Spawn(tid: nat, thread: Thread)
    | Step(tid: nat, choice: Choice)
    | Elsewhere(currentBytes: nat, chunks: map<ChunkId, seq<byte>>, leases: map<ChunkId, Lease>)

  ghost function Record(past: Past, e: Effect): Past {
    match e
    case Open(swap) => past.(begun := past.begun + {swap.proposalId})
    case Buffer(pid, root, proof, data) => past.(buffered := past.buffered + {Evidence(pid, root, proof, data)})
    case Remove(pids) => past.(dropped := past.dropped + Sums.KeySet(pids))
    case Take(pid) => past.(taken := past.taken + {pid})
    case Keep(swap) => past.(stored := past.stored + [swap])
    case _ => past
  }

  ghost function Apply(h: Hash, sys: System, l: Label): (next: System)
    requires Keyed(sys.node)
    ensures Keyed(next.node)
  {
    match l
    case Spawn(tid, t) =>
      if tid in sys.threads || !Starts(t) then sys else sys.(threads := sys.threads[tid := t])
    case Step(tid, c) =>
      if tid !in sys.threads then sys
      else
        var (e, t') := Section(h, sys.node, sys.threads[tid], c);
        SectionApplicable(h, sys.node, sys.threads[tid], c);
        PerformKeyed(sys.node, e);
        System(Perform(sys.node, e), sys.threads[tid := t'], Record(sys.past, e))
    case Elsewhere(bytes, chunks, leases) =>
      sys.(node := sys.node.(capacity := sys.node.capacity.Reconcile(bytes), chunks := chunks, leases := leases))
  }

  ghost function Run(h: Hash, sys: System, labels: seq<Label>): (final: System)
    requires Keyed(sys.node)
    ensures Keyed(final.node)
    decreases |labels|
  {
    if labels == [] then sys else Run(h, Apply(h, sys, labels[0]), labels[1..])
  }

  ghost predicate Initial(sys: System) {
    && sys.node.pending == map[] && sys.node.capacity.reservedBytes == 0
    && sys.threads == map[] && sys.past == Past({}, {}, {}, {}, [])
  }

  // ------------------------------------------------- reservation accounting

  /** Bytes a running handler still answers for: reserved but not yet recorded in a pending
      entry, or taken out of the table and not yet released. */
  ghost function Owned(t: Thread): nat {
    match t
    case ProposalOpen(_, _, _) => CHUNK_LEN
    case AcceptApply(_) => CHUNK_LEN
    case Releasing(swaps) => Sums.SumSeq(swaps, ReservedOf)
    case FinalizeStore(swap) => swap.reservedBytes
    case FinalizeRelease(swap, _) => swap.reservedBytes
    case _ => 0
  }

  ghost function Accounted(sys: System): nat {
    PendingBytes(sys.node) + Sums.Sum(sys.threads, t => Owned(t))
  }

  /** Bytes that lose their owner in one section: opening over a live entry, and applying an
      accept whose entry has gone or already held a reservation. */
  function SectionLeak(h: Hash, s: NodeState, t: Thread): nat {
    match t
    case ProposalOpen(p, _, _) => ReservedFor(s, ProposalIdOf(h, p))
    case BeginOpen(p, _, _) => ReservedFor(s, ProposalIdOf(h, p))
    case AcceptApply(a) => if a.proposalId in s.pending then ReservedFor(s, a.proposalId) else CHUNK_LEN
    case _ => 0
  }

  ghost function Leak(h: Hash, sys: System, l: Label): nat {
    if l.Step? && l.tid in sys.threads then SectionLeak(h, sys.node, sys.threads[l.tid]) else 0
  }

  ghost function TotalLeak(h: Hash, sys: System, labels: seq<Label>): nat
    requires Keyed(sys.node)
    decreases |labels|
  {
    if labels == [] then 0 else Leak(h, sys, labels[0]) + TotalLeak(h, Apply(h, sys, labels[0]), labels[1..])
  }

  /** Bytes an effect adds to and takes from the pending table. */
  ghost function Gain(e: Effect): nat {
    match e
    case Open(swap) => swap.reservedBytes
    case Amend(swap) => swap.reservedBytes
    case _ => 0
  }

  ghost function Loss(s: NodeState, e: Effect): nat
    requires Applicable(s, e)
  {
    match e
    case Open(swap) => ReservedFor(s, swap.proposalId)
    case Amend(swap) => ReservedFor(s, swap.proposalId)
    case Remove(pids) => Sums.SumSeq(Sums.Values(s.pending, pids), ReservedOf)
    case Take(pid) => ReservedFor(s, pid)
    case _ => 0
  }

  lemma PendingAfter(s: NodeState, e: Effect)
    requires Applicable(s, e)
    ensures PendingBytes(Perform(s, e)) + Loss(s, e) == PendingBytes(s) + Gain(e)
    ensures Perform(s, e).capacity == if e.SetCapacity? then e.capacity else s.capacity
  {
    match e
    case Open(swap) => Sums.SumUpdate(s.pending, ReservedOf, swap.proposalId, swap);
    case Amend(swap) => Sums.SumUpdate(s.pending, ReservedOf, swap.proposalId, swap);
    case Buffer(pid, root, proof, data) =>
      Sums.SumUpdate(s.pending, ReservedOf, pid, s.pending[pid].(theirData := data, receivedChunk := true));
    case Remove(pids) => Sums.SumSplit(s.pending, pids, ReservedOf);
    case Take(pid) => Sums.SumRemove(s.pending, ReservedOf, pid);
    case _ =>
  }

  /** The counter moves by what the handler and the table gain and lose. */
  ghost predicate Flows(h: Hash, s: NodeState, t: Thread, c: Choice)
    requires Applicable(s, Section(h, s, t, c).0)
  {
    var (e, t') := Section(h, s, t, c);
    var reserved := if e.SetCapacity? then e.capacity.reservedBytes else s.capacity.reservedBytes;
    reserved + Owned(t) + Loss(s, e) == s.capacity.reservedBytes + Owned(t') + Gain(e) + SectionLeak(h, s, t)
  }

  predicate Removes(t: Thread) {
    t.AcceptDrop? || t.AbortDrop? || t.RetrieveDrop? || t.ExpireSweep?
  }

  lemma RemovalFlows(h: Hash, s: NodeState, t: Thread, c: Choice)
    requires Removes(t) && Applicable(s, Section(h, s, t, c).0)
    ensures Flows(h, s, t, c)
  {
    var (e, t') := Section(h, s, t, c);
    if e.Remove? {
      assert t'.Releasing? && t'.swaps == Sums.Values(s.pending, e.pids);
    }
  }

  predicate MovesBytes(t: Thread) {
    t.ProposalReserve? || t.AcceptReserve? || t.Releasing? || t.FinalizeRelease?
  }

  lemma MovesFlow(h: Hash, s: NodeState, t: Thread, c: Choice)
    requires MovesBytes(t) && Applicable(s, Section(h, s, t, c).0) && Owned(t) <= s.capacity.reservedBytes
    ensures Flows(h, s, t, c)
  {
  }

  lemma OpenFlows(h: Hash, s: NodeState, t: Thread, c: Choice)
    requires t.ProposalOpen? || t.BeginOpen? || t.AcceptApply?
    requires Keyed(s) && Applicable(s, Section(h, s, t, c).0)
    ensures Flows(h, s, t, c)
  {
  }

  lemma MarkFlows(h: Hash, s: NodeState, t: Thread, c: Choice)
    requires t.CommitMark? || t.RetrieveCommit? || t.FinalizeTake?
    requires Keyed(s) && Applicable(s, Section(h, s, t, c).0)
    ensures Flows(h, s, t, c)
  {
  }

  lemma SectionFlows(h: Hash, s: NodeState, t: Thread, c: Choice)
    requires Keyed(s) && Applicable(s, Section(h, s, t, c).0) && Owned(t) <= s.capacity.reservedBytes
    ensures Flows(h, s, t, c)
  {
    if Removes(t) {
      RemovalFlows(h, s, t, c);
    } else if MovesBytes(t) {
      MovesFlow(h, s, t, c);
    } else if t.ProposalOpen? || t.BeginOpen? || t.AcceptApply? {
      OpenFlows(h, s, t, c);
    } else if t.CommitMark? || t.RetrieveCommit? || t.FinalizeTake? {
      MarkFlows(h, s, t, c);
    }
  }

  /** One section moves bytes between the table, the handler and the free space, and loses
      exactly `SectionLeak` of them; in particular a release never asks for more than is reserved. */
  lemma SectionBalance(h: Hash, s: NodeState, e: Effect, t: Thread, t': Thread, c: Choice, rest: nat)
    requires Keyed(s) && Applicable(s, e) && Section(h, s, t, c) == (e, t')
    requires s.capacity.reservedBytes == PendingBytes(s) + Owned(t) + rest
    ensures Perform(s, e).capacity.reservedBytes == PendingBytes(Perform(s, e)) + Owned(t') + rest
            + SectionLeak(h, s, t)
  {
    SectionFlows(h, s, t, c);
    PendingAfter(s, e);
  }

  /** Conservation for one step of the whole node. */
  lemma StepConserves(h: Hash, sys: System, l: Label, leaked: nat)
    requires Keyed(sys.node) && sys.node.capacity.reservedBytes == Accounted(sys) + leaked
    ensures Apply(h, sys, l).node.capacity.reservedBytes == Accounted(Apply(h, sys, l)) + leaked + Leak(h, sys, l)
  {
    var w := t => Owned(t);
    match l {
      case Spawn(tid, t) =>
        if tid !in sys.threads { Sums.SumUpdate(sys.threads, w, tid, t); }
      case Step(tid, c) =>
        if tid in sys.threads {
          var t := sys.threads[tid];
          var (e, t') := Section(h, sys.node, t, c);
          SectionApplicable(h, sys.node, t, c);
          Sums.SumRemove(sys.threads, w, tid);
          Sums.SumUpdate(sys.threads, w, tid, t');
          SectionBalance(h, sys.node, e, t, t', c, Sums.Sum(sys.threads - {tid}, w) + leaked);
        }
      case Elsewhere(bytes, chunks, leases) =>
    }
  }

  /** Reservation conservation in every interleaving: what is reserved is exactly what the pending
      table holds, plus what running handlers still answer for, plus what has leaked. */
  lemma {:induction false} ReservationConservation(h: Hash, sys: System, labels: seq<Label>, leaked: nat)
    requires Keyed(sys.node) && sys.node.capacity.reservedBytes == Accounted(sys) + leaked
    ensures var final := Run(h, sys, labels);
            final.node.capacity.reservedBytes == Accounted(final) + leaked + TotalLeak(h, sys, labels)
    decreases |labels|
  {
    if labels != [] {
      StepConserves(h, sys, labels[0], leaked);
      ReservationConservation(h, Apply(h, sys, labels[0]), labels[1..], leaked + Leak(h, sys, labels[0]));
    }
  }

  lemma InitialAccount(sys: System)
    requires Initial(sys)
    ensures Accounted(sys) == 0 == sys.node.capacity.reservedBytes
  {
  }

  /** In every reachable state the counter covers the table and every handler, so no release
      that is still to come can underflow it. */
  lemma NoReleaseUnderflows(h: Hash, sys: System, labels: seq<Label>, tid: nat)
    requires Initial(sys) && tid in Run(h, sys, labels).threads
    ensures var final := Run(h, sys, labels);
            PendingBytes(final.node) + Owned(final.threads[tid]) <= final.node.capacity.reservedBytes
  {
    InitialAccount(sys);
    ReservationConservation(h, sys, labels, 0);
    Sums.SumRemove(Run(h, sys, labels).threads, t => Owned(t), tid);
  }

  ghost predicate NeverLeaks(h: Hash, sys: System, labels: seq<Label>)
    requires Keyed(sys.node)
  {
    forall k :: 0 <= k < |labels| ==> Leak(h, Run(h, sys, labels[..k]), labels[k]) == 0
  }

  /** The counter is exact at the end of a run if and only if no step of the run leaked. */
  lemma ExactIffNeverLeaks(h: Hash, sys: System, labels: seq<Label>)
    requires Initial(sys)
    ensures Run(h, sys, labels).node.capacity.reservedBytes == Accounted(Run(h, sys, labels))
            <==> NeverLeaks(h, sys, labels)
  {
    InitialAccount(sys);
    ReservationConservation(h, sys, labels, 0);
    NoLeakStepwise(h, sys, labels);
  }

  lemma {:induction false} NoLeakStepwise(h: Hash, sys: System, labels: seq<Label>)
    requires Keyed(sys.node)
    ensures TotalLeak(h, sys, labels) == 0 <==> NeverLeaks(h, sys, labels)
    decreases |labels|
  {
    if labels != [] {
      var next, rest := Apply(h, sys, labels[0]), labels[1..];
      NoLeakStepwise(h, next, rest);
      assert Run(h, sys, labels[..0]) == sys;
      forall k | 0 <= k < |rest|
        ensures Run(h, sys, labels[..k + 1]) == Run(h, next, rest[..k]) && labels[k + 1] == rest[k]
      {
        assert labels[..k + 1][0] == labels[0] && labels[..k + 1][1..] == rest[..k];
      }
      if NeverLeaks(h, sys, labels) {
        forall k | 0 <= k < |rest| ensures Leak(h, Run(h, next, rest[..k]), rest[k]) == 0 {
          assert Leak(h, Run(h, sys, labels[..k + 1]), labels[k + 1]) == 0;
        }
      }
      if Leak(h, sys, labels[0]) == 0 && NeverLeaks(h, next, rest) {
        forall k | 0 <= k < |labels| ensures Leak(h, Run(h, sys, labels[..k]), labels[k]) == 0 {
          if k > 0 {
            assert Leak(h, Run(h, next, rest[..k - 1]), rest[k - 1]) == 0;
          }
        }
      }
    }
  }

  lemma SectionKeepsMaximum(h: Hash, s: NodeState, t: Thread, c: Choice)
    requires s.capacity.reservedBytes <= s.capacity.maxBytes
    ensures var e := Section(h, s, t, c).0;
            e.SetCapacity? ==> e.capacity.reservedBytes <= e.capacity.maxBytes == s.capacity.maxBytes
  {
  }

  /** Reservations never pass the configured maximum, in any interleaving. */
  lemma {:induction false} ReservedWithinMaximum(h: Hash, sys: System, labels: seq<Label>)
    requires Keyed(sys.node) && sys.node.capacity.reservedBytes <= sys.node.capacity.maxBytes
    ensures var c := Run(h, sys, labels).node.capacity;
            c.reservedBytes <= c.maxBytes == sys.node.capacity.maxBytes
    decreases |labels|
  {
    if labels != [] {
      if labels[0].Step? && labels[0].tid in sys.threads {
        var t, c := sys.threads[labels[0].tid], labels[0].choice;
        SectionKeepsMaximum(h, sys.node, t, c);
        SectionApplicable(h, sys.node, t, c);
        PendingAfter(sys.node, Section(h, sys.node, t, c).0);
      }
      assert Apply(h, sys, labels[0]).node.capacity.reservedBytes <= sys.node.capacity.maxBytes;
      ReservedWithinMaximum(h, Apply(h, sys, labels[0]), labels[1..]);
    }
  }
}
