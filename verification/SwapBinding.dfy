/** What binds a swap: the messages that opened and named it, and not what the table happens to hold. In every
    disciplined interleaving the chunk that is stored, its proof, its lease and its peer are those of these
    messages. */
module SwapBinding {
  import opened Bytes
  import opened Merkle
  import opened Swap
  import opened SwapLocks
  import opened SwapSafety

  /** The terms of a swap as its messages state them. */
  datatype Terms = Terms(
    peer: NodeId, ours: ChunkId, chunk: ChunkId, root: Bytes32, proof: MerkleProof, token: Bytes32, expiresAt: nat,
    pubKey: Bytes32, openedAt: nat)

  /** A proposal of our own names no return chunk yet. */
  function OfferTerms(peer: NodeId, ours: ChunkId, now: nat): Terms {
    Terms(peer, ours, ZERO32, ZERO32, MerkleProof(0, []), ZERO32, 0, ZERO32, now)
  }

  /** A proposal from outside names everything but the chunk given in return. */
  function ProposalTerms(p: Proposal, ret: ChunkId, now: nat): Terms {
    Terms(p.fromNode, ret, p.chunkId, p.contentRoot, p.merkleProof, p.lease.renewalToken, p.lease.expiresAt,
        p.contentPublicKey, now)
  }

  /** An accept names the return chunk and its lease, and binds its content if it carries a root. */
  function AcceptTerms(t: Terms, a: Accept): Terms {
    var named := t.(chunk := a.chunkId, token := a.lease.renewalToken, expiresAt := a.lease.expiresAt);
    if a.returnRoot == ZERO32 then named else named.(root := a.returnRoot, proof := a.returnProof)
  }

  predicate Agrees(swap: PendingSwap, t: Terms) {
    && swap.peer == t.peer && swap.ourChunk == t.ours && swap.theirChunk == t.chunk
    && swap.contentRoot == t.root && swap.merkleProof == t.proof
    && swap.renewalToken == t.token && swap.leaseExpiresAt == t.expiresAt && swap.contentPubKey == t.pubKey
    && swap.startedAt == t.openedAt
  }

  predicate Holds(swap: PendingSwap, t: Option<Terms>) {
    t.Some? && Agrees(swap, t.value)
  }

  // ---------------------------------------------------------------- the terms of a run

  /** The terms of a proposal after a section: those of the message it works on, if it is about this
      proposal. */
  function Bound(h: Hash, s: NodeState, t: Thread, pid: ProposalId, was: Option<Terms>): Option<Terms> {
    match t
    case ProposalOpen(p, now, ret) => if ProposalIdOf(h, p) == pid then Some(ProposalTerms(p, ret, now)) else was
    case BeginOpen(p, now, peer) => if ProposalIdOf(h, p) == pid then Some(OfferTerms(peer, p.chunkId, now)) else was
    case AcceptApply(a) =>
      if a.proposalId == pid && pid in s.pending && was.Some? then Some(AcceptTerms(was.value, a)) else was
    case _ => was
  }

  function BoundBy(h: Hash, sys: System, l: Label, pid: ProposalId, was: Option<Terms>): Option<Terms> {
    if l.Step? && l.tid in sys.threads then Bound(h, sys.node, sys.threads[l.tid], pid, was) else was
  }

  ghost function TermsOf(h: Hash, sys: System, labels: seq<Label>, pid: ProposalId, was: Option<Terms>): Option<Terms>
    requires Keyed(sys.node)
    decreases |labels|
  {
    if labels == [] then was
    else TermsOf(h, Apply(h, sys, labels[0]), labels[1..], pid, BoundBy(h, sys, labels[0], pid, was))
  }

  // ---------------------------------------------------------------- invariant

  /** The handler holds a finished swap. */
  predicate Concludes(t: Thread) {
    t.FinalizeStore? || t.FinalizeRelease? || t.FinalizeCount? || t.FinalizeLease?
  }

  predicate HoldsSwap(t: Thread, pid: ProposalId) {
    Concludes(t) && t.swap.proposalId == pid
  }

  ghost predicate ThreadObeys(past: Past, t: Thread, pid: ProposalId, terms: Option<Terms>) {
    HoldsSwap(t, pid) ==> pid in past.taken && Holds(t.swap, terms)
  }

  ghost predicate NodeObeys(s: NodeState, past: Past, pid: ProposalId, terms: Option<Terms>) {
    && (pid in s.pending ==> Holds(s.pending[pid], terms))
    && (forall i :: 0 <= i < |past.stored| && past.stored[i].proposalId == pid ==> Holds(past.stored[i], terms))
  }

  ghost predicate Obeys(sys: System, pid: ProposalId, terms: Option<Terms>) {
    && NodeObeys(sys.node, sys.past, pid, terms)
    && forall tid :: tid in sys.threads ==> ThreadObeys(sys.past, sys.threads[tid], pid, terms)
  }

  /** What an effect does to the entry of the proposal agrees with the terms after it. */
  ghost predicate EffectObeys(s: NodeState, e: Effect, pid: ProposalId, was: Option<Terms>, now: Option<Terms>) {
    match e
    case Open(swap) => if swap.proposalId == pid then Holds(swap, now) else now == was
    case Amend(swap) => if swap.proposalId == pid then Holds(swap, now) else now == was
    case Keep(swap) => now == was && (swap.proposalId == pid ==> Holds(swap, now))
    case _ => now == was
  }

  predicate Binds(t: Thread) {
    t.ProposalOpen? || t.BeginOpen? || t.AcceptApply?
  }

  lemma BindingObeys(h: Hash, s: NodeState, past: Past, t: Thread, c: Choice, pid: ProposalId, was: Option<Terms>)
    requires Keyed(s) && NodeObeys(s, past, pid, was) && Binds(t)
    ensures var (e, t') := Section(h, s, t, c);
            EffectObeys(s, e, pid, was, Bound(h, s, t, pid, was)) && !HoldsSwap(t', pid)
  {
  }

  lemma OpeningObeys(h: Hash, s: NodeState, past: Past, t: Thread, c: Choice, pid: ProposalId, was: Option<Terms>)
    requires Opening(t) && !Binds(t)
    ensures var (e, t') := Section(h, s, t, c);
            EffectObeys(s, e, pid, was, was) && !HoldsSwap(t', pid)
  {
  }

  lemma TakingObeys(h: Hash, s: NodeState, past: Past, t: Thread, c: Choice, pid: ProposalId, was: Option<Terms>)
    requires Keyed(s) && NodeObeys(s, past, pid, was) && t.FinalizeTake?
    ensures var (e, t') := Section(h, s, t, c);
            EffectObeys(s, e, pid, was, was) && ThreadObeys(Record(past, e), t', pid, was)
  {
  }

  lemma ClosingObeys(h: Hash, s: NodeState, past: Past, t: Thread, c: Choice, pid: ProposalId, was: Option<Terms>)
    requires Keyed(s) && NodeObeys(s, past, pid, was) && !Opening(t) && !Finishing(t)
    ensures var (e, t') := Section(h, s, t, c);
            EffectObeys(s, e, pid, was, was) && !HoldsSwap(t', pid)
  {
  }

  lemma FinishingObeys(h: Hash, s: NodeState, past: Past, t: Thread, c: Choice, pid: ProposalId, was: Option<Terms>)
    requires Concludes(t) && ThreadObeys(past, t, pid, was)
    ensures var (e, t') := Section(h, s, t, c);
            EffectObeys(s, e, pid, was, was) && ThreadObeys(Record(past, e), t', pid, was)
  {
  }

  lemma SectionObeys(h: Hash, s: NodeState, past: Past, t: Thread, c: Choice, pid: ProposalId, was: Option<Terms>)
    requires Keyed(s) && NodeObeys(s, past, pid, was) && ThreadObeys(past, t, pid, was)
    ensures var (e, t') := Section(h, s, t, c);
            var now := Bound(h, s, t, pid, was);
            EffectObeys(s, e, pid, was, now) && ThreadObeys(Record(past, e), t', pid, now)
  {
    if Binds(t) {
      BindingObeys(h, s, past, t, c, pid, was);
    } else if Opening(t) {
      OpeningObeys(h, s, past, t, c, pid, was);
    } else if Concludes(t) {
      FinishingObeys(h, s, past, t, c, pid, was);
    } else if t.FinalizeTake? {
      TakingObeys(h, s, past, t, c, pid, was);
    } else if !t.Done? {
      ClosingObeys(h, s, past, t, c, pid, was);
    }
  }

  /** Only a proposal that is new or pending gets new terms, so whatever is taken or stored keeps its own. */
  lemma NewTermsNotTaken(h: Hash, s: NodeState, past: Past, t: Thread, pid: ProposalId, was: Option<Terms>)
    requires SetsOk(s, past) && SectionDisciplined(h, s, past.begun, t) && Bound(h, s, t, pid, was) != was
    ensures pid !in past.taken
  {
  }

  lemma EffectKeepsNodeObeying(h: Hash, s: NodeState, past: Past, e: Effect, pid: ProposalId, was: Option<Terms>,
                               now: Option<Terms>)
    requires Applicable(s, e) && NodeObeys(s, past, pid, was) && EffectObeys(s, e, pid, was, now)
    requires StoredOk(h, past) && (now != was ==> pid !in past.taken)
    ensures NodeObeys(Perform(s, e), Record(past, e), pid, now)
  {
  }

  lemma StepObeys(h: Hash, sys: System, l: Label, pid: ProposalId, was: Option<Terms>)
    requires Keyed(sys.node) && Safe(h, sys) && Disciplined(h, sys, l) && Obeys(sys, pid, was)
    ensures Obeys(Apply(h, sys, l), pid, BoundBy(h, sys, l, pid, was))
  {
    if l.Step? && l.tid in sys.threads {
      var t := sys.threads[l.tid];
      var (e, t') := Section(h, sys.node, t, l.choice);
      var now := Bound(h, sys.node, t, pid, was);
      SectionApplicable(h, sys.node, t, l.choice);
      SectionObeys(h, sys.node, sys.past, t, l.choice, pid, was);
      if now != was {
        NewTermsNotTaken(h, sys.node, sys.past, t, pid, was);
      }
      EffectKeepsNodeObeying(h, sys.node, sys.past, e, pid, was, now);
      forall tid | tid in sys.threads && tid != l.tid
        ensures ThreadObeys(Record(sys.past, e), sys.threads[tid], pid, now)
      {
        assert ThreadObeys(sys.past, sys.threads[tid], pid, was);
      }
    }
  }

  lemma {:induction false} RunObeys(h: Hash, sys: System, labels: seq<Label>, pid: ProposalId, was: Option<Terms>)
    requires Keyed(sys.node) && Safe(h, sys) && DisciplinedRun(h, sys, labels) && Obeys(sys, pid, was)
    ensures Obeys(Run(h, sys, labels), pid, TermsOf(h, sys, labels, pid, was))
    decreases |labels|
  {
    if labels != [] {
      StepObeys(h, sys, labels[0], pid, was);
      StepKeepsSafe(h, sys, labels[0]);
      RunObeys(h, Apply(h, sys, labels[0]), labels[1..], pid, BoundBy(h, sys, labels[0], pid, was));
    }
  }

  /** Data under the terms: a full chunk that verifies against the root the messages bind, if they bind one. */
  predicate Delivers(h: Hash, data: seq<byte>, t: Terms) {
    |data| == 1_048_592 && (t.root != ZERO32 ==> Verifies(h, data, t.proof, t.root))
  }

  /** In every disciplined interleaving a stored swap has the terms of its messages, its data a full chunk that
      verifies against the root they bind. */
  lemma StoredOnItsTerms(h: Hash, sys: System, labels: seq<Label>, i: nat)
    requires Initial(sys) && DisciplinedRun(h, sys, labels) && i < |Run(h, sys, labels).past.stored|
    ensures var swap := Run(h, sys, labels).past.stored[i];
            var terms := TermsOf(h, sys, labels, swap.proposalId, None);
            terms.Some? && Agrees(swap, terms.value) && Delivers(h, swap.theirData, terms.value)
  {
    var swap := Run(h, sys, labels).past.stored[i];
    RunObeys(h, sys, labels, swap.proposalId, None);
    SwapRunSafety(h, sys, labels);
  }

  // ---------------------------------------------------------------- one message that binds

  /** Once a proposal has named its return chunk, no later section changes its terms. */
  lemma {:induction false} TermsStay(h: Hash, sys: System, labels: seq<Label>, pid: ProposalId, t: Terms)
    requires Keyed(sys.node) && Safe(h, sys) && DisciplinedRun(h, sys, labels)
    requires pid in sys.past.begun && (pid in sys.node.pending ==> sys.node.pending[pid].theirChunk != ZERO32)
    ensures TermsOf(h, sys, labels, pid, Some(t)) == Some(t)
    decreases |labels|
  {
    if labels != [] {
      StillNamed(h, sys, labels[0], pid);
      StepKeepsSafe(h, sys, labels[0]);
      TermsStay(h, Apply(h, sys, labels[0]), labels[1..], pid, t);
    }
  }

  lemma StillNamed(h: Hash, sys: System, l: Label, pid: ProposalId)
    requires Keyed(sys.node) && Safe(h, sys) && Disciplined(h, sys, l)
    requires pid in sys.past.begun && (pid in sys.node.pending ==> sys.node.pending[pid].theirChunk != ZERO32)
    ensures var next := Apply(h, sys, l);
            pid in next.past.begun && (pid in next.node.pending ==> next.node.pending[pid].theirChunk != ZERO32)
  {
    if l.Step? && l.tid in sys.threads {
      SectionEffectOk(h, sys.node, sys.past, sys.threads[l.tid], l.choice);
      EffectStaysNamed(h, sys.node, sys.past, Section(h, sys.node, sys.threads[l.tid], l.choice).0, pid);
    }
  }

  lemma EffectStaysNamed(h: Hash, s: NodeState, past: Past, e: Effect, pid: ProposalId)
    requires EffectOk(h, s, past, e) && pid in past.begun
    requires pid in s.pending ==> s.pending[pid].theirChunk != ZERO32
    ensures pid in Record(past, e).begun
    ensures pid in Perform(s, e).pending ==> Perform(s, e).pending[pid].theirChunk != ZERO32
  {
  }

  lemma {:induction false} TermsSplit(h: Hash, sys: System, labels: seq<Label>, k: nat, pid: ProposalId,
                                      was: Option<Terms>)
    requires Keyed(sys.node) && k <= |labels|
    ensures Run(h, sys, labels) == Run(h, Run(h, sys, labels[..k]), labels[k..])
    ensures TermsOf(h, sys, labels, pid, was)
         == TermsOf(h, Run(h, sys, labels[..k]), labels[k..], pid, TermsOf(h, sys, labels[..k], pid, was))
    ensures DisciplinedRun(h, sys, labels) ==>
              DisciplinedRun(h, sys, labels[..k]) && DisciplinedRun(h, Run(h, sys, labels[..k]), labels[k..])
    decreases k
  {
    if k == 0 {
      assert labels[..0] == [] && labels[0..] == labels;
    } else {
      TermsSplit(h, Apply(h, sys, labels[0]), labels[1..], k - 1, pid, BoundBy(h, sys, labels[0], pid, was));
      assert labels[..k][1..] == labels[1..][..k - 1] && labels[..k][0] == labels[0];
      assert labels[1..][k - 1..] == labels[k..];
    }
  }

  /** At label `k` of the run a section of this handler runs. */
  ghost predicate Runs(h: Hash, sys: System, labels: seq<Label>, k: nat, t: Thread)
    requires Keyed(sys.node)
  {
    && k < |labels| && labels[k].Step?
    && var before := Run(h, sys, labels[..k]);
       labels[k].tid in before.threads && before.threads[labels[k].tid] == t
  }

  lemma BindingStays(h: Hash, sys: System, labels: seq<Label>, k: nat, t: Thread, pid: ProposalId, terms: Terms)
    requires Initial(sys) && DisciplinedRun(h, sys, labels) && Runs(h, sys, labels, k, t)
    requires var before := Run(h, sys, labels[..k]);
             Bound(h, before.node, t, pid, TermsOf(h, sys, labels[..k], pid, None)) == Some(terms)
    requires var after := Apply(h, Run(h, sys, labels[..k]), labels[k]);
             pid in after.past.begun && (pid in after.node.pending ==> after.node.pending[pid].theirChunk != ZERO32)
    ensures TermsOf(h, sys, labels, pid, None) == Some(terms)
  {
    var before := Run(h, sys, labels[..k]);
    TermsSplit(h, sys, labels, k, pid, None);
    RunKeepsSafe(h, sys, labels[..k]);
    assert labels[k..][0] == labels[k] && labels[k..][1..] == labels[k + 1..];
    StepKeepsSafe(h, before, labels[k]);
    TermsStay(h, Apply(h, before, labels[k]), labels[k + 1..], pid, terms);
  }

  lemma ProposalIsNamed(h: Hash, sys: System, l: Label, p: Proposal, now: nat, ret: ChunkId)
    requires Keyed(sys.node) && l.Step? && l.tid in sys.threads && sys.threads[l.tid] == ProposalOpen(p, now, ret)
    requires p.chunkId != ZERO32
    ensures var after, pid := Apply(h, sys, l), ProposalIdOf(h, p);
            pid in after.past.begun && pid in after.node.pending && after.node.pending[pid].theirChunk != ZERO32
  {
  }

  /** A swap opened by a proposal from outside: whatever else happens, it is stored only with that proposal's
      chunk, lease and peer, and with data that verifies under that proposal's root and proof. */
  lemma ProposalGoverns(h: Hash, sys: System, labels: seq<Label>, k: nat, p: Proposal, now: nat, ret: ChunkId, i: nat)
    requires Initial(sys) && DisciplinedRun(h, sys, labels) && Runs(h, sys, labels, k, ProposalOpen(p, now, ret))
    requires p.chunkId != ZERO32 && i < |Run(h, sys, labels).past.stored|
    requires Run(h, sys, labels).past.stored[i].proposalId == ProposalIdOf(h, p)
    ensures var swap := Run(h, sys, labels).past.stored[i];
            Agrees(swap, ProposalTerms(p, ret, now)) && Delivers(h, swap.theirData, ProposalTerms(p, ret, now))
  {
    ProposalIsNamed(h, Run(h, sys, labels[..k]), labels[k], p, now, ret);
    BindingStays(h, sys, labels, k, ProposalOpen(p, now, ret), ProposalIdOf(h, p), ProposalTerms(p, ret, now));
    StoredOnItsTerms(h, sys, labels, i);
  }

  lemma AcceptIsNamed(h: Hash, sys: System, l: Label, a: Accept)
    requires Keyed(sys.node) && l.Step? && l.tid in sys.threads && sys.threads[l.tid] == AcceptApply(a)
    requires a.proposalId in sys.node.pending && a.chunkId != ZERO32
    ensures var after := Apply(h, sys, l);
            after.past.begun == sys.past.begun
            && a.proposalId in after.node.pending && after.node.pending[a.proposalId].theirChunk != ZERO32
  {
  }

  /** A swap whose return chunk an accept has named: it is stored only with the accept's chunk and lease, and,
      if the accept binds a root, with data that verifies under the accept's root and proof. */
  lemma AcceptGoverns(h: Hash, sys: System, labels: seq<Label>, k: nat, a: Accept, i: nat)
    requires Initial(sys) && DisciplinedRun(h, sys, labels) && Runs(h, sys, labels, k, AcceptApply(a))
    requires a.proposalId in Run(h, sys, labels[..k]).node.pending && i < |Run(h, sys, labels).past.stored|
    requires Run(h, sys, labels).past.stored[i].proposalId == a.proposalId
    ensures var swap := Run(h, sys, labels).past.stored[i];
            && swap.theirChunk == a.chunkId && swap.renewalToken == a.lease.renewalToken
            && swap.leaseExpiresAt == a.lease.expiresAt
            && (a.returnRoot != ZERO32 ==> Verifies(h, swap.theirData, a.returnProof, a.returnRoot))
  {
    var before, pid := Run(h, sys, labels[..k]), a.proposalId;
    TermsSplit(h, sys, labels, k, pid, None);
    RunKeepsSafe(h, sys, labels[..k]);
    RunObeys(h, sys, labels[..k], pid, None);
    var was := TermsOf(h, sys, labels[..k], pid, None);
    assert labels[k..][0] == labels[k] && Disciplined(h, before, labels[k]);
    AcceptIsNamed(h, before, labels[k], a);
    BindingStays(h, sys, labels, k, AcceptApply(a), pid, AcceptTerms(was.value, a));
    StoredOnItsTerms(h, sys, labels, i);
  }

  // ---------------------------------------------------------------- what is left behind

  /** What the section of a finishing handler leaves: the chunk under its id unless it was held, one more chunk
      counted for the peer, and a lease of the terms. */
  predicate Leaves(s: NodeState, t: Thread, after: NodeState, terms: Terms) {
    match t
    case FinalizeStore(swap) =>
      after.chunks == if terms.chunk in s.chunks then s.chunks else s.chunks[terms.chunk := swap.theirData]
    case FinalizeCount(_) => after.peerCounts == s.peerCounts[terms.peer := PeerCount(s, terms.peer) + 1]
    case FinalizeLease(_) =>
      after.leases == s.leases[terms.chunk := Lease(terms.chunk, terms.expiresAt, terms.token, terms.pubKey)]
    case _ => after.chunks == s.chunks && after.leases == s.leases && after.peerCounts == s.peerCounts
  }

  lemma FinishLeaves(h: Hash, sys: System, tid: nat, c: Choice, terms: Terms)
    requires Keyed(sys.node) && tid in sys.threads && Concludes(sys.threads[tid])
    requires Agrees(sys.threads[tid].swap, terms)
    ensures Leaves(sys.node, sys.threads[tid], Apply(h, sys, Step(tid, c)).node, terms)
  {
  }

  /** In every disciplined interleaving a handler that finishes a swap leaves what the swap's messages name. */
  lemma FinishedOnItsTerms(h: Hash, sys: System, labels: seq<Label>, tid: nat, c: Choice)
    requires Initial(sys) && DisciplinedRun(h, sys, labels) && tid in Run(h, sys, labels).threads
    requires Concludes(Run(h, sys, labels).threads[tid])
    ensures var final := Run(h, sys, labels);
            var t := final.threads[tid];
            var terms := TermsOf(h, sys, labels, t.swap.proposalId, None);
            terms.Some? && Leaves(final.node, t, Apply(h, final, Step(tid, c)).node, terms.value)
  {
    var final := Run(h, sys, labels);
    var pid := final.threads[tid].swap.proposalId;
    RunObeys(h, sys, labels, pid, None);
    assert ThreadObeys(final.past, final.threads[tid], pid, TermsOf(h, sys, labels, pid, None));
    FinishLeaves(h, final, tid, c, TermsOf(h, sys, labels, pid, None).value);
  }

  lemma SweepStep(h: Hash, sys: System, tid: nat, order: seq<ProposalId>, pid: ProposalId, terms: Terms)
    requires Keyed(sys.node) && tid in sys.threads && sys.threads[tid].ExpireSweep? && pid in sys.node.pending
    requires Agrees(sys.node.pending[pid], terms)
    requires ExpiryOrder(sys.node, sys.threads[tid].now, sys.threads[tid].timeout, order)
    ensures pid in Apply(h, sys, Step(tid, Order(order))).node.pending
            <==> sys.threads[tid].now <= terms.openedAt + sys.threads[tid].timeout
  {
  }

  /** The sweep takes exactly the swaps opened more than the timeout ago. */
  lemma SweepTakesTheOld(h: Hash, sys: System, labels: seq<Label>, tid: nat, order: seq<ProposalId>, pid: ProposalId)
    requires Initial(sys) && DisciplinedRun(h, sys, labels) && tid in Run(h, sys, labels).threads
    requires Run(h, sys, labels).threads[tid].ExpireSweep? && pid in Run(h, sys, labels).node.pending
    requires var t := Run(h, sys, labels).threads[tid];
             ExpiryOrder(Run(h, sys, labels).node, t.now, t.timeout, order)
    ensures var final := Run(h, sys, labels);
            var t, terms := final.threads[tid], TermsOf(h, sys, labels, pid, None);
            && terms.Some?
            && (pid in Apply(h, final, Step(tid, Order(order))).node.pending
                <==> t.now <= terms.value.openedAt + t.timeout)
  {
    RunObeys(h, sys, labels, pid, None);
    SweepStep(h, Run(h, sys, labels), tid, order, pid, TermsOf(h, sys, labels, pid, None).value);
  }
}
