/** Safety of whole swap runs at lock granularity: what may be stored, and how often. */
module SwapSafety {
  import opened Bytes
  import opened Merkle
  import opened Swap
  import opened SwapLocks

  /** The discipline a peer-to-peer exchange follows: a proposal id is opened once, an accept is
      applied only to an entry still waiting for its return chunk to be named (so at most once),
      and chunk ids are not all-zero. */
  predicate SectionDisciplined(h: Hash, s: NodeState, begun: set<ProposalId>, t: Thread) {
    match t
    case ProposalOpen(p, _, _) => ProposalIdOf(h, p) !in begun
    case BeginOpen(p, _, _) => ProposalIdOf(h, p) !in begun
    case AcceptApply(a) =>
      a.chunkId != ZERO32 && (a.proposalId in s.pending ==> s.pending[a.proposalId].theirChunk == ZERO32)
    case RetrieveFind(chunk, _) => chunk != ZERO32
    case _ => true
  }

  ghost predicate Disciplined(h: Hash, sys: System, l: Label) {
    l.Step? && l.tid in sys.threads ==> SectionDisciplined(h, sys.node, sys.past.begun, sys.threads[l.tid])
  }

  ghost predicate DisciplinedRun(h: Hash, sys: System, labels: seq<Label>)
    requires Keyed(sys.node)
    decreases |labels|
  {
    labels != [] ==> Disciplined(h, sys, labels[0]) && DisciplinedRun(h, Apply(h, sys, labels[0]), labels[1..])
  }

  // ------------------------------------------------------------ invariant

  /** The buffered data is a full chunk that hashes up the entry's own proof to its own root. */
  predicate Sound(h: Hash, swap: PendingSwap) {
    |swap.theirData| == CHUNK_LEN && PassesGate(h, swap.contentRoot, swap.merkleProof, swap.theirData)
  }

  predicate EntryOk(h: Hash, pid: ProposalId, swap: PendingSwap) {
    && swap.proposalId == pid
    && (swap.theirChunk == ZERO32 ==> !swap.receivedChunk)
    && (swap.theirChunk != ZERO32 ==> swap.reservedBytes == CHUNK_LEN)
    && (swap.receivedChunk ==> Sound(h, swap))
  }

  predicate Storable(h: Hash, swap: PendingSwap) {
    swap.Ready() && Sound(h, swap) && swap.theirChunk != ZERO32 && swap.reservedBytes == CHUNK_LEN
  }

  predicate StoredBefore(stored: seq<PendingSwap>, pid: ProposalId) {
    exists i :: 0 <= i < |stored| && stored[i].proposalId == pid
  }

  ghost predicate StoredOk(h: Hash, past: Past) {
    && (forall i :: 0 <= i < |past.stored| ==> Storable(h, past.stored[i]) && past.stored[i].proposalId in past.taken)
    && (forall i, j :: 0 <= i < j < |past.stored| ==> past.stored[i].proposalId != past.stored[j].proposalId)
  }

  ghost predicate SetsOk(s: NodeState, past: Past) {
    && s.pending.Keys <= past.begun && past.dropped <= past.begun && past.taken <= past.begun
    && s.pending.Keys !! past.dropped && s.pending.Keys !! past.taken && past.dropped !! past.taken
  }

  ghost predicate NodeOk(h: Hash, s: NodeState, past: Past) {
    && (forall pid :: pid in s.pending ==> EntryOk(h, pid, s.pending[pid]))
    && SetsOk(s, past)
    && StoredOk(h, past)
  }

  ghost predicate ThreadOk(h: Hash, s: NodeState, past: Past, t: Thread) {
    match t
    case RetrieveBuffer(pid, chunk, root, proof, data) =>
      && chunk != ZERO32 && |data| == CHUNK_LEN && PassesGate(h, root, proof, data) && pid in past.begun
      && (pid in s.pending ==>
            s.pending[pid].theirChunk == chunk && s.pending[pid].contentRoot == root
                && s.pending[pid].merkleProof == proof)
    case FinalizeStore(swap) =>
      Storable(h, swap) && swap.proposalId in past.taken && !StoredBefore(past.stored, swap.proposalId)
    case _ => true
  }

  /** Two handlers never both hold the finished swap of one proposal. */
  predicate Apart(t: Thread, u: Thread) {
    t.FinalizeStore? && u.FinalizeStore? ==> t.swap.proposalId != u.swap.proposalId
  }

  ghost predicate Safe(h: Hash, sys: System) {
    && NodeOk(h, sys.node, sys.past)
    && (forall tid :: tid in sys.threads ==> ThreadOk(h, sys.node, sys.past, sys.threads[tid]))
    && (forall i, j :: i in sys.threads && j in sys.threads && i != j ==> Apart(sys.threads[i], sys.threads[j]))
  }

  // ------------------------------------------------------ one section at a time

  /** What a disciplined section may do to the shared state. */
  ghost predicate EffectOk(h: Hash, s: NodeState, past: Past, e: Effect) {
    && Applicable(s, e)
    && match e
       case Open(swap) => swap.proposalId !in past.begun && !swap.receivedChunk && EntryOk(h, swap.proposalId, swap)
       case Amend(swap) =>
         var was := s.pending[swap.proposalId];
         && EntryOk(h, swap.proposalId, swap)
         && (was.theirChunk == ZERO32 ||
             (was.theirChunk == swap.theirChunk && was.contentRoot == swap.contentRoot
                 && was.merkleProof == swap.merkleProof))
       case Buffer(pid, root, proof, data) =>
         && s.pending[pid].theirChunk != ZERO32 && |data| == CHUNK_LEN && PassesGate(h, root, proof, data)
         && s.pending[pid].contentRoot == root && s.pending[pid].merkleProof == proof
       case Keep(swap) =>
         Storable(h, swap) && swap.proposalId in past.taken && !StoredBefore(past.stored, swap.proposalId)
       case _ => true
  }

  lemma OpeningEffectOk(h: Hash, s: NodeState, past: Past, t: Thread, c: Choice)
    requires NodeOk(h, s, past) && ThreadOk(h, s, past, t) && SectionDisciplined(h, s, past.begun, t) && Opening(t)
    ensures EffectOk(h, s, past, Section(h, s, t, c).0)
  {
    assert Keyed(s);
    SectionApplicable(h, s, t, c);
  }

  lemma ClosingEffectOk(h: Hash, s: NodeState, past: Past, t: Thread, c: Choice)
    requires NodeOk(h, s, past) && ThreadOk(h, s, past, t) && !Opening(t)
    ensures EffectOk(h, s, past, Section(h, s, t, c).0)
  {
    assert Keyed(s);
    SectionApplicable(h, s, t, c);
  }

  lemma SectionEffectOk(h: Hash, s: NodeState, past: Past, t: Thread, c: Choice)
    requires NodeOk(h, s, past) && ThreadOk(h, s, past, t) && SectionDisciplined(h, s, past.begun, t)
    ensures EffectOk(h, s, past, Section(h, s, t, c).0)
  {
    if Opening(t) {
      OpeningEffectOk(h, s, past, t, c);
    } else {
      ClosingEffectOk(h, s, past, t, c);
    }
  }

  lemma EffectKeepsNode(h: Hash, s: NodeState, past: Past, e: Effect)
    requires NodeOk(h, s, past) && EffectOk(h, s, past, e)
    ensures NodeOk(h, Perform(s, e), Record(past, e))
  {
  }

  /** What the handler itself relies on next. */
  lemma OpeningHandsOn(h: Hash, s: NodeState, past: Past, t: Thread, c: Choice)
    requires NodeOk(h, s, past) && ThreadOk(h, s, past, t) && SectionDisciplined(h, s, past.begun, t)
    requires EffectOk(h, s, past, Section(h, s, t, c).0) && Opening(t)
    ensures var (e, t') := Section(h, s, t, c); ThreadOk(h, Perform(s, e), Record(past, e), t')
  {
  }

  lemma ClosingHandsOn(h: Hash, s: NodeState, past: Past, t: Thread, c: Choice)
    requires NodeOk(h, s, past) && ThreadOk(h, s, past, t) && SectionDisciplined(h, s, past.begun, t)
    requires EffectOk(h, s, past, Section(h, s, t, c).0) && !Opening(t) && !Finishing(t)
    ensures var (e, t') := Section(h, s, t, c); ThreadOk(h, Perform(s, e), Record(past, e), t')
  {
  }

  lemma FinishingHandsOn(h: Hash, s: NodeState, past: Past, t: Thread, c: Choice)
    requires NodeOk(h, s, past) && ThreadOk(h, s, past, t)
    requires EffectOk(h, s, past, Section(h, s, t, c).0) && Finishing(t)
    ensures var (e, t') := Section(h, s, t, c); ThreadOk(h, Perform(s, e), Record(past, e), t')
  {
  }

  lemma SectionHandsOn(h: Hash, s: NodeState, past: Past, t: Thread, c: Choice)
    requires NodeOk(h, s, past) && ThreadOk(h, s, past, t) && SectionDisciplined(h, s, past.begun, t)
    ensures var (e, t') := Section(h, s, t, c);
            EffectOk(h, s, past, e) && ThreadOk(h, Perform(s, e), Record(past, e), t')
  {
    SectionEffectOk(h, s, past, t, c);
    if Opening(t) {
      OpeningHandsOn(h, s, past, t, c);
    } else if Finishing(t) {
      FinishingHandsOn(h, s, past, t, c);
    } else {
      ClosingHandsOn(h, s, past, t, c);
    }
  }

  /** A section of one handler does not invalidate what another handler relies on. */
  lemma EffectFrames(h: Hash, s: NodeState, past: Past, e: Effect, u: Thread)
    requires NodeOk(h, s, past) && EffectOk(h, s, past, e) && ThreadOk(h, s, past, u)
    requires e.Keep? && u.FinalizeStore? ==> e.swap.proposalId != u.swap.proposalId
    ensures ThreadOk(h, Perform(s, e), Record(past, e), u)
  {
  }

  ghost predicate KeepsApart(h: Hash, s: NodeState, past: Past, t: Thread, e: Effect, t': Thread) {
    && (e.Keep? ==> t.FinalizeStore? && e.swap == t.swap)
    && forall u :: ThreadOk(h, s, past, u) && Apart(t, u) ==> Apart(t', u)
  }

  lemma OpeningKeepsApart(h: Hash, s: NodeState, past: Past, t: Thread, c: Choice)
    requires NodeOk(h, s, past) && Opening(t)
    ensures KeepsApart(h, s, past, t, Section(h, s, t, c).0, Section(h, s, t, c).1)
  {
  }

  lemma ClosingKeepsApart(h: Hash, s: NodeState, past: Past, t: Thread, c: Choice)
    requires NodeOk(h, s, past) && !Opening(t)
    ensures KeepsApart(h, s, past, t, Section(h, s, t, c).0, Section(h, s, t, c).1)
  {
  }

  lemma SectionKeepsApart(h: Hash, s: NodeState, past: Past, t: Thread, c: Choice)
    requires NodeOk(h, s, past)
    ensures KeepsApart(h, s, past, t, Section(h, s, t, c).0, Section(h, s, t, c).1)
  {
    if Opening(t) {
      OpeningKeepsApart(h, s, past, t, c);
    } else {
      ClosingKeepsApart(h, s, past, t, c);
    }
  }

  /** Assembling the system after one section from what is known of its parts. */
  lemma AssembleSafe(h: Hash, sys: System, tid: nat, e: Effect, t': Thread)
    requires Safe(h, sys) && tid in sys.threads && EffectOk(h, sys.node, sys.past, e)
    requires ThreadOk(h, Perform(sys.node, e), Record(sys.past, e), t')
    requires forall j :: j in sys.threads && j != tid ==> Apart(t', sys.threads[j])
    requires e.Keep? ==> sys.threads[tid].FinalizeStore? && e.swap == sys.threads[tid].swap
    ensures Safe(h, System(Perform(sys.node, e), sys.threads[tid := t'], Record(sys.past, e)))
  {
    EffectKeepsNode(h, sys.node, sys.past, e);
    forall j | j in sys.threads && j != tid
      ensures ThreadOk(h, Perform(sys.node, e), Record(sys.past, e), sys.threads[j])
    {
      assert Apart(sys.threads[tid], sys.threads[j]);
      EffectFrames(h, sys.node, sys.past, e, sys.threads[j]);
    }
  }

  lemma StepKeepsSafe(h: Hash, sys: System, l: Label)
    requires Keyed(sys.node) && Safe(h, sys) && Disciplined(h, sys, l)
    ensures Safe(h, Apply(h, sys, l))
  {
    if l.Step? && l.tid in sys.threads {
      var t := sys.threads[l.tid];
      var (e, t') := Section(h, sys.node, t, l.choice);
      SectionHandsOn(h, sys.node, sys.past, t, l.choice);
      SectionKeepsApart(h, sys.node, sys.past, t, l.choice);
      AssembleSafe(h, sys, l.tid, e, t');
    }
  }

  lemma {:induction false} RunKeepsSafe(h: Hash, sys: System, labels: seq<Label>)
    requires Keyed(sys.node) && Safe(h, sys) && DisciplinedRun(h, sys, labels)
    ensures Safe(h, Run(h, sys, labels))
    decreases |labels|
  {
    if labels != [] {
      StepKeepsSafe(h, sys, labels[0]);
      RunKeepsSafe(h, Apply(h, sys, labels[0]), labels[1..]);
    }
  }

  /** Swap run safety: whatever the interleaving, at most one chunk is stored per proposal, only
      with both commits and the data in, only data that hashes to the entry's root (or an entry
      without a content binding), and never for a proposal that was aborted or timed out. */
  lemma SwapRunSafety(h: Hash, sys: System, labels: seq<Label>)
    requires Initial(sys) && DisciplinedRun(h, sys, labels)
    ensures var past := Run(h, sys, labels).past;
            && (forall i, j :: 0 <= i < j < |past.stored| ==> past.stored[i].proposalId != past.stored[j].proposalId)
            && (forall i :: 0 <= i < |past.stored| ==>
                  var swap := past.stored[i];
                  && swap.sentCommit && swap.receivedCommit && swap.receivedChunk
                  && |swap.theirData| == CHUNK_LEN
                  && (swap.contentRoot == ZERO32 || Verifies(h, swap.theirData, swap.merkleProof, swap.contentRoot))
                  && swap.proposalId in past.begun
                  && swap.proposalId !in past.dropped)
  {
    RunKeepsSafe(h, sys, labels);
  }

  // ------------------------------------------------- without the discipline

  predicate GoodEvidence(h: Hash, e: Evidence) {
    |e.data| == CHUNK_LEN && PassesGate(h, e.root, e.proof, e.data)
  }

  /** The data was buffered for this proposal after passing the gate the entry had at the time. */
  ghost predicate Vouched(buffered: set<Evidence>, pid: ProposalId, data: seq<byte>) {
    exists e :: e in buffered && e.pid == pid && e.data == data
  }

  ghost predicate ThreadVouched(h: Hash, past: Past, t: Thread) {
    match t
    case RetrieveBuffer(pid, _, root, proof, data) => GoodEvidence(h, Evidence(pid, root, proof, data))
    case FinalizeStore(swap) => swap.Ready() && Vouched(past.buffered, swap.proposalId, swap.theirData)
    case _ => true
  }

  ghost predicate NodeVouched(h: Hash, s: NodeState, past: Past) {
    && Keyed(s)
    && (forall e :: e in past.buffered ==> GoodEvidence(h, e))
    && (forall pid :: pid in s.pending && s.pending[pid].receivedChunk ==>
          Vouched(past.buffered, pid, s.pending[pid].theirData))
    && (forall i :: 0 <= i < |past.stored| ==>
          past.stored[i].Ready() && Vouched(past.buffered, past.stored[i].proposalId, past.stored[i].theirData))
  }

  ghost predicate EffectVouched(h: Hash, s: NodeState, past: Past, e: Effect) {
    && Applicable(s, e)
    && match e
       case Open(swap) => !swap.receivedChunk
       case Amend(swap) =>
         var was := s.pending[swap.proposalId];
         swap.receivedChunk ==> was.receivedChunk && swap.theirData == was.theirData
       case Buffer(pid, root, proof, data) => GoodEvidence(h, Evidence(pid, root, proof, data))
       case Keep(swap) => swap.Ready() && Vouched(past.buffered, swap.proposalId, swap.theirData)
       case _ => true
  }

  lemma OpeningVouches(h: Hash, s: NodeState, past: Past, t: Thread, c: Choice)
    requires NodeVouched(h, s, past) && ThreadVouched(h, past, t) && Opening(t)
    ensures EffectVouched(h, s, past, Section(h, s, t, c).0) && ThreadVouched(h, past, Section(h, s, t, c).1)
  {
    SectionApplicable(h, s, t, c);
  }

  lemma ClosingVouches(h: Hash, s: NodeState, past: Past, t: Thread, c: Choice)
    requires NodeVouched(h, s, past) && ThreadVouched(h, past, t) && !Opening(t)
    ensures EffectVouched(h, s, past, Section(h, s, t, c).0) && ThreadVouched(h, past, Section(h, s, t, c).1)
  {
    SectionApplicable(h, s, t, c);
  }

  lemma SectionVouches(h: Hash, s: NodeState, past: Past, t: Thread, c: Choice)
    requires NodeVouched(h, s, past) && ThreadVouched(h, past, t)
    ensures EffectVouched(h, s, past, Section(h, s, t, c).0) && ThreadVouched(h, past, Section(h, s, t, c).1)
  {
    if Opening(t) {
      OpeningVouches(h, s, past, t, c);
    } else {
      ClosingVouches(h, s, past, t, c);
    }
  }

  lemma EffectVouches(h: Hash, s: NodeState, past: Past, e: Effect)
    requires NodeVouched(h, s, past) && EffectVouched(h, s, past, e)
    ensures NodeVouched(h, Perform(s, e), Record(past, e))
    ensures forall pid, data :: Vouched(past.buffered, pid, data) ==> Vouched(Record(past, e).buffered, pid, data)
  {
    var past' := Record(past, e);
    forall pid, data | Vouched(past.buffered, pid, data) ensures Vouched(past'.buffered, pid, data) {
      var ev :| ev in past.buffered && ev.pid == pid && ev.data == data;
      assert ev in past'.buffered;
    }
    if e.Buffer? {
      assert Evidence(e.pid, e.root, e.proof, e.data) in past'.buffered;
    }
  }

  ghost predicate AllVouched(h: Hash, sys: System) {
    && NodeVouched(h, sys.node, sys.past)
    && forall tid :: tid in sys.threads ==> ThreadVouched(h, sys.past, sys.threads[tid])
  }

  lemma StepVouches(h: Hash, sys: System, l: Label)
    requires AllVouched(h, sys)
    ensures AllVouched(h, Apply(h, sys, l))
  {
    if l.Step? && l.tid in sys.threads {
      SectionVouches(h, sys.node, sys.past, sys.threads[l.tid], l.choice);
      EffectVouches(h, sys.node, sys.past, Section(h, sys.node, sys.threads[l.tid], l.choice).0);
    }
  }

  lemma {:induction false} RunVouches(h: Hash, sys: System, labels: seq<Label>)
    requires AllVouched(h, sys)
    ensures AllVouched(h, Run(h, sys, labels))
    decreases |labels|
  {
    if labels != [] {
      StepVouches(h, sys, labels[0]);
      RunVouches(h, Apply(h, sys, labels[0]), labels[1..]);
    }
  }

  /** With no assumption on peers at all: every stored chunk was buffered for its proposal as a
      full chunk that passed the integrity gate, and both commits were in. */
  lemma StoredDataWasVerified(h: Hash, sys: System, labels: seq<Label>, i: nat)
    requires Initial(sys) && i < |Run(h, sys, labels).past.stored|
    ensures var past := Run(h, sys, labels).past;
            var swap := past.stored[i];
            && swap.Ready()
            && exists e ::
                 e in past.buffered && e.pid == swap.proposalId && e.data == swap.theirData && GoodEvidence(h, e)
  {
    RunVouches(h, sys, labels);
    var past := Run(h, sys, labels).past;
    assert Vouched(past.buffered, past.stored[i].proposalId, past.stored[i].theirData);
  }

  /** The data is one of the chunks, or the proof that came with it meets their tree in a collision. */
  ghost predicate Published(h: Hash, chunks: seq<seq<byte>>, data: seq<byte>, proof: MerkleProof)
    requires chunks != []
  {
    || data in chunks
    || PathMeetsTree(h, PathInputs(h, data, proof.leafIndex, proof.siblings), TreeInputs(h, chunks))
  }

  /** A full chunk has not the size of an inner node, so a chunk that passed the gate under the root of
      published chunks is one of them, whatever proof the peer sent. */
  lemma EvidenceIsPublished(h: Hash, e: Evidence, chunks: seq<seq<byte>>)
    requires chunks != [] && forall x :: x in chunks ==> |x| != NODE_SIZE
    requires GoodEvidence(h, e) && e.root == ComputeRoot(h, chunks) != ZERO32
    ensures Published(h, chunks, e.data, e.proof)
  {
    GateIsSound(h, chunks, e.data, e.proof);
  }

  /** With no assumption on peers: a stored chunk was buffered under some root, and if that is the root
      of published chunks, it is one of them. */
  lemma AnyStoredChunkIsPublished(h: Hash, sys: System, labels: seq<Label>, i: nat, chunks: seq<seq<byte>>)
    requires Initial(sys) && i < |Run(h, sys, labels).past.stored|
    requires chunks != [] && forall x :: x in chunks ==> |x| != NODE_SIZE
    requires ComputeRoot(h, chunks) != ZERO32
    ensures var past := Run(h, sys, labels).past;
            var swap := past.stored[i];
            exists e :: e in past.buffered && e.pid == swap.proposalId && e.data == swap.theirData
                        && (e.root == ComputeRoot(h, chunks) ==> Published(h, chunks, e.data, e.proof))
  {
    StoredDataWasVerified(h, sys, labels, i);
    var past := Run(h, sys, labels).past;
    var e :| e in past.buffered && e.pid == past.stored[i].proposalId && e.data == past.stored[i].theirData
             && GoodEvidence(h, e);
    if e.root == ComputeRoot(h, chunks) {
      EvidenceIsPublished(h, e, chunks);
    }
  }

  /** In a disciplined run that root is the stored swap's own. */
  lemma StoredChunkIsPublished(h: Hash, sys: System, labels: seq<Label>, i: nat, chunks: seq<seq<byte>>)
    requires Initial(sys) && DisciplinedRun(h, sys, labels) && i < |Run(h, sys, labels).past.stored|
    requires chunks != [] && forall x :: x in chunks ==> |x| != NODE_SIZE
    requires ComputeRoot(h, chunks) != ZERO32
    ensures var swap := Run(h, sys, labels).past.stored[i];
            swap.contentRoot == ComputeRoot(h, chunks) ==> Published(h, chunks, swap.theirData, swap.merkleProof)
  {
    SwapRunSafety(h, sys, labels);
    var swap := Run(h, sys, labels).past.stored[i];
    if swap.contentRoot == ComputeRoot(h, chunks) {
      EvidenceIsPublished(h, Evidence(swap.proposalId, swap.contentRoot, swap.merkleProof, swap.theirData), chunks);
    }
  }
}
