/** Swap causality at lock granularity: nodes whose handlers interleave section by section exchange
    commits over a network that may delay, lose, duplicate and reorder them. */
module SwapLockNetwork {
  import opened Bytes
  import opened Merkle
  import opened Swap
  import opened SwapLocks
  import opened SwapSafety

  type Pledge = (NodeId, ProposalId)

  /** The nodes that follow the protocol and every commit any of them has sent. Nothing is assumed about
      the other messages: a proposal, accept or abort of any content may arrive at any time. */
  datatype World = World(nodes: map<NodeId, System>, commits: set<Pledge>)

  datatype Action = Action(node: NodeId, step: Label)

  /** The proposal that a section opens, with its peer. */
  function ThreadOpens(h: Hash, t: Thread): Option<(ProposalId, NodeId)> {
    match t
    case ProposalOpen(p, _, _) => Some((ProposalIdOf(h, p), p.fromNode))
    case BeginOpen(p, _, peer) => Some((ProposalIdOf(h, p), peer))
    case _ => None
  }

  function OpensFor(h: Hash, sys: System, l: Label): Option<(ProposalId, NodeId)> {
    if l.Step? && l.tid in sys.threads then ThreadOpens(h, sys.threads[l.tid]) else None
  }

  /** The commit that a step sends: the section that marks the commit as sent, whether or not the swap
      is still in the table, unless it is marked already. */
  function CommitsFor(sys: System, l: Label): Option<ProposalId> {
    if !l.Step? || l.tid !in sys.threads || !sys.threads[l.tid].RetrieveCommit? then None
    else
      var pid := sys.threads[l.tid].pid;
      if pid in sys.node.pending && sys.node.pending[pid].sentCommit then None else Some(pid)
  }

  /** The node has sent its commit, or does not follow the protocol. */
  predicate Pledged(w: World, n: NodeId, pid: ProposalId) {
    ViewOf(w).Pledged(n, pid)
  }

  /** Commits cannot be forged in the name of a node that follows the protocol: a commit handler starts
      only on a commit that was sent. */
  predicate Allowed(w: World, a: Action) {
    && a.node in w.nodes
    && (a.step.Spawn? && a.step.thread.CommitBind? ==> Pledged(w, a.step.thread.sender, a.step.thread.pid))
  }

  ghost predicate AllKeyed(w: World) {
    forall n :: n in w.nodes ==> Keyed(w.nodes[n].node)
  }

  ghost function Act(h: Hash, w: World, a: Action): (next: World)
    requires AllKeyed(w)
    ensures AllKeyed(next) && next.nodes.Keys == w.nodes.Keys
  {
    if !Allowed(w, a) then w
    else
      var sys := w.nodes[a.node];
      World(
        w.nodes[a.node := Apply(h, sys, a.step)],
        w.commits + (match CommitsFor(sys, a.step) case None => {} case Some(pid) => {(a.node, pid)}))
  }

  ghost function RunAll(h: Hash, w: World, actions: seq<Action>): (final: World)
    requires AllKeyed(w)
    ensures AllKeyed(final) && final.nodes.Keys == w.nodes.Keys
    decreases |actions|
  {
    if actions == [] then w else RunAll(h, Act(h, w, actions[0]), actions[1..])
  }

  ghost predicate InitialWorld(w: World) {
    w.commits == {} && forall n :: n in w.nodes ==> Initial(w.nodes[n])
  }

  // ---------------------------------------------------------------- commits that go astray

  /** A commit is marked as received in an entry whose peer follows the protocol and has sent none. */
  predicate StaleMark(w: World, a: Action) {
    && a.node in w.nodes && a.step.Step? && a.step.tid in w.nodes[a.node].threads
    && var sys := w.nodes[a.node];
       StaleSection(ViewOf(w), sys.node, sys.threads[a.step.tid])
  }

  /** A proposal is opened with a peer that has not committed, while a commit for the same proposal has
      been checked against the entry but not yet marked in it. */
  ghost predicate Overtakes(h: Hash, w: World, a: Action) {
    && a.node in w.nodes
    && var sys := w.nodes[a.node];
       match OpensFor(h, sys, a.step)
       case None => false
       case Some((pid, peer)) => !Pledged(w, peer, pid) && CommitInFlight(sys, pid)
  }

  ghost predicate CommitInFlight(sys: System, pid: ProposalId) {
    exists tid :: tid in sys.threads && sys.threads[tid] == CommitMark(pid)
  }

  ghost predicate NoStaleMark(h: Hash, w: World, actions: seq<Action>)
    requires AllKeyed(w)
    decreases |actions|
  {
    actions != [] ==> !StaleMark(w, actions[0]) && NoStaleMark(h, Act(h, w, actions[0]), actions[1..])
  }

  ghost predicate NoneOvertaken(h: Hash, w: World, actions: seq<Action>)
    requires AllKeyed(w)
    decreases |actions|
  {
    actions != [] ==> !Overtakes(h, w, actions[0]) && NoneOvertaken(h, Act(h, w, actions[0]), actions[1..])
  }

  // ---------------------------------------------------------------- one node

  /** What is known about other nodes: who follows the protocol, and the commits they have sent. */
  datatype View = View(honest: set<NodeId>, commits: set<Pledge>) {
    predicate Pledged(n: NodeId, pid: ProposalId) {
      n in honest ==> (n, pid) in commits
    }
  }

  function ViewOf(w: World): View {
    View(w.nodes.Keys, w.commits)
  }

  predicate StaleSection(v: View, s: NodeState, t: Thread) {
    t.CommitMark? && t.pid in s.pending && !v.Pledged(s.pending[t.pid].peer, t.pid)
  }

  /** A commit noted in the entry was sent by its peer. */
  predicate EntryLinked(v: View, pid: ProposalId, swap: PendingSwap) {
    swap.receivedCommit ==> v.Pledged(swap.peer, pid)
  }

  ghost predicate HasEvidence(past: Past, pid: ProposalId) {
    exists e :: e in past.buffered && e.pid == pid
  }

  ghost predicate ThreadLinked(v: View, past: Past, t: Thread) {
    match t
    case CommitBind(sender, pid) => v.Pledged(sender, pid)
    case RetrieveCommit(pid) => HasEvidence(past, pid)
    case FinalizeStore(swap) => v.Pledged(swap.peer, swap.proposalId)
    case _ => true
  }

  ghost predicate NodeLinked(v: View, s: NodeState, past: Past) {
    && Keyed(s)
    && (forall pid :: pid in s.pending ==> EntryLinked(v, pid, s.pending[pid]))
    && (forall i :: 0 <= i < |past.stored| ==> v.Pledged(past.stored[i].peer, past.stored[i].proposalId))
  }

  ghost predicate EffectLinked(v: View, s: NodeState, e: Effect) {
    && Applicable(s, e)
    && match e
       case Open(swap) => EntryLinked(v, swap.proposalId, swap)
       case Amend(swap) => EntryLinked(v, swap.proposalId, swap)
       case Keep(swap) => v.Pledged(swap.peer, swap.proposalId)
       case _ => true
  }

  lemma OpeningLinks(h: Hash, v: View, s: NodeState, past: Past, t: Thread, c: Choice)
    requires NodeLinked(v, s, past) && ThreadLinked(v, past, t) && Opening(t)
    ensures var (e, t') := Section(h, s, t, c);
            EffectLinked(v, s, e) && ThreadLinked(v, Record(past, e), t')
  {
    SectionApplicable(h, s, t, c);
  }

  lemma ClosingLinks(h: Hash, v: View, s: NodeState, past: Past, t: Thread, c: Choice)
    requires NodeLinked(v, s, past) && ThreadLinked(v, past, t) && !Opening(t) && !Finishing(t)
    requires !StaleSection(v, s, t)
    ensures var (e, t') := Section(h, s, t, c);
            EffectLinked(v, s, e) && ThreadLinked(v, Record(past, e), t')
  {
    SectionApplicable(h, s, t, c);
    var (e, t') := Section(h, s, t, c);
    if e.Buffer? {
      assert Evidence(e.pid, e.root, e.proof, e.data) in Record(past, e).buffered;
    }
  }

  lemma FinishingLinks(h: Hash, v: View, s: NodeState, past: Past, t: Thread, c: Choice)
    requires NodeLinked(v, s, past) && ThreadLinked(v, past, t) && Finishing(t)
    ensures var (e, t') := Section(h, s, t, c);
            EffectLinked(v, s, e) && ThreadLinked(v, Record(past, e), t')
  {
    SectionApplicable(h, s, t, c);
  }

  lemma SectionLinks(h: Hash, v: View, s: NodeState, past: Past, t: Thread, c: Choice)
    requires NodeLinked(v, s, past) && ThreadLinked(v, past, t) && !StaleSection(v, s, t)
    ensures var (e, t') := Section(h, s, t, c);
            EffectLinked(v, s, e) && ThreadLinked(v, Record(past, e), t')
  {
    if Opening(t) {
      OpeningLinks(h, v, s, past, t, c);
    } else if Finishing(t) {
      FinishingLinks(h, v, s, past, t, c);
    } else {
      ClosingLinks(h, v, s, past, t, c);
    }
  }

  lemma EffectLinks(v: View, s: NodeState, past: Past, e: Effect)
    requires NodeLinked(v, s, past) && EffectLinked(v, s, e)
    ensures NodeLinked(v, Perform(s, e), Record(past, e))
    ensures past.buffered <= Record(past, e).buffered
  {
    PerformKeyed(s, e);
  }

  ghost predicate SystemLinked(v: View, sys: System) {
    && NodeLinked(v, sys.node, sys.past)
    && forall tid :: tid in sys.threads ==> ThreadLinked(v, sys.past, sys.threads[tid])
  }

  /** Knowing more commits never hurts. */
  lemma LinkedLater(v: View, later: View, sys: System)
    requires SystemLinked(v, sys) && v.honest == later.honest && v.commits <= later.commits
    ensures SystemLinked(later, sys)
  {
  }

  lemma StepLinks(h: Hash, v: View, sys: System, l: Label)
    requires SystemLinked(v, sys)
    requires l.Step? && l.tid in sys.threads ==> !StaleSection(v, sys.node, sys.threads[l.tid])
    requires l.Spawn? && l.thread.CommitBind? ==> v.Pledged(l.thread.sender, l.thread.pid)
    ensures SystemLinked(v, Apply(h, sys, l))
    ensures sys.past.buffered <= Apply(h, sys, l).past.buffered
  {
    if l.Step? && l.tid in sys.threads {
      var (e, t') := Section(h, sys.node, sys.threads[l.tid], l.choice);
      SectionLinks(h, v, sys.node, sys.past, sys.threads[l.tid], l.choice);
      EffectLinks(v, sys.node, sys.past, e);
      forall tid | tid in sys.threads && tid != l.tid ensures ThreadLinked(v, Record(sys.past, e), sys.threads[tid]) {
        assert ThreadLinked(v, sys.past, sys.threads[tid]);
      }
    }
  }

  // ---------------------------------------------------------------- all nodes

  /** Every commit sent by a node rests on a chunk it buffered for that proposal. */
  ghost predicate CommitsBacked(w: World) {
    forall n, pid :: (n, pid) in w.commits && n in w.nodes ==> HasEvidence(w.nodes[n].past, pid)
  }

  ghost predicate Linked(h: Hash, w: World) {
    && CommitsBacked(w)
    && forall n :: n in w.nodes ==> SystemLinked(ViewOf(w), w.nodes[n]) && AllVouched(h, w.nodes[n])
  }

  lemma ActorLinks(h: Hash, w: World, a: Action)
    requires AllKeyed(w) && Linked(h, w) && Allowed(w, a) && !StaleMark(w, a)
    ensures var next := Act(h, w, a);
            && SystemLinked(ViewOf(next), next.nodes[a.node])
            && AllVouched(h, next.nodes[a.node])
            && w.nodes[a.node].past.buffered <= next.nodes[a.node].past.buffered
  {
    var sys, next := w.nodes[a.node], Act(h, w, a);
    StepLinks(h, ViewOf(w), sys, a.step);
    StepVouches(h, sys, a.step);
    LinkedLater(ViewOf(w), ViewOf(next), Apply(h, sys, a.step));
  }

  lemma CommitsStayBacked(h: Hash, w: World, a: Action)
    requires AllKeyed(w) && Linked(h, w) && Allowed(w, a)
    requires w.nodes[a.node].past.buffered <= Act(h, w, a).nodes[a.node].past.buffered
    ensures CommitsBacked(Act(h, w, a))
  {
    var next := Act(h, w, a);
    forall n, pid | (n, pid) in next.commits && n in next.nodes ensures HasEvidence(next.nodes[n].past, pid) {
      if (n, pid) in w.commits {
        var e :| e in w.nodes[n].past.buffered && e.pid == pid;
        assert e in next.nodes[n].past.buffered;
      } else {
        var t := w.nodes[n].threads[a.step.tid];
        assert ThreadLinked(ViewOf(w), w.nodes[n].past, t);
        var e :| e in w.nodes[n].past.buffered && e.pid == pid;
        assert e in next.nodes[n].past.buffered;
      }
    }
  }

  /** The other nodes only learn of more commits. */
  lemma OthersLinked(h: Hash, w: World, a: Action, n: NodeId)
    requires AllKeyed(w) && Linked(h, w) && Allowed(w, a) && n in w.nodes && n != a.node
    ensures var next := Act(h, w, a);
            n in next.nodes && SystemLinked(ViewOf(next), next.nodes[n]) && AllVouched(h, next.nodes[n])
  {
    LinkedLater(ViewOf(w), ViewOf(Act(h, w, a)), w.nodes[n]);
  }

  lemma ActLinks(h: Hash, w: World, a: Action)
    requires AllKeyed(w) && Linked(h, w) && !StaleMark(w, a)
    ensures Linked(h, Act(h, w, a))
  {
    if Allowed(w, a) {
      var next := Act(h, w, a);
      ActorLinks(h, w, a);
      CommitsStayBacked(h, w, a);
      forall n | n in next.nodes && n != a.node
        ensures SystemLinked(ViewOf(next), next.nodes[n]) && AllVouched(h, next.nodes[n])
      {
        OthersLinked(h, w, a, n);
      }
    }
  }

  lemma {:induction false} RunLinks(h: Hash, w: World, actions: seq<Action>)
    requires AllKeyed(w) && Linked(h, w) && NoStaleMark(h, w, actions)
    ensures Linked(h, RunAll(h, w, actions))
    decreases |actions|
  {
    if actions != [] {
      ActLinks(h, w, actions[0]);
      RunLinks(h, Act(h, w, actions[0]), actions[1..]);
    }
  }

  lemma InitialIsLinked(h: Hash, w: World)
    requires InitialWorld(w)
    ensures Linked(h, w) && Guarded(w)
  {
  }

  // ---------------------------------------------------------------- the flag tells the truth

  /** In every entry of every node, a commit noted as received was sent by the entry's peer. */
  ghost predicate FlagsTrue(w: World) {
    forall n, pid :: n in w.nodes && pid in w.nodes[n].node.pending ==>
      EntryLinked(ViewOf(w), pid, w.nodes[n].node.pending[pid])
  }

  ghost predicate AlwaysTrue(h: Hash, w: World, actions: seq<Action>)
    requires AllKeyed(w)
    decreases |actions|
  {
    FlagsTrue(w) && (actions != [] ==> AlwaysTrue(h, Act(h, w, actions[0]), actions[1..]))
  }

  lemma StaleMarkLies(h: Hash, w: World, a: Action)
    requires AllKeyed(w) && StaleMark(w, a)
    ensures !FlagsTrue(Act(h, w, a))
  {
    var sys, next := w.nodes[a.node], Act(h, w, a);
    var pid := sys.threads[a.step.tid].pid;
    assert pid in next.nodes[a.node].node.pending && next.commits == w.commits;
    assert !EntryLinked(ViewOf(next), pid, next.nodes[a.node].node.pending[pid]);
  }

  /** The flags tell the truth at every point of a run if and only if no mark in it is stale. */
  lemma {:induction false} FlagsTrueIffNoStaleMark(h: Hash, w: World, actions: seq<Action>)
    requires AllKeyed(w) && Linked(h, w)
    ensures AlwaysTrue(h, w, actions) <==> NoStaleMark(h, w, actions)
    decreases |actions|
  {
    if actions != [] {
      if StaleMark(w, actions[0]) {
        StaleMarkLies(h, w, actions[0]);
      } else {
        ActLinks(h, w, actions[0]);
        FlagsTrueIffNoStaleMark(h, Act(h, w, actions[0]), actions[1..]);
      }
    }
  }

  // ---------------------------------------------------------------- who is the peer of an entry

  ghost predicate KeepsPeer(s: NodeState, e: Effect) {
    e.Amend? ==> e.swap.proposalId in s.pending && e.swap.peer == s.pending[e.swap.proposalId].peer
  }

  lemma OpeningKeepsPeer(h: Hash, s: NodeState, t: Thread, c: Choice)
    requires Keyed(s) && Opening(t)
    ensures var e := Section(h, s, t, c).0;
            && KeepsPeer(s, e)
            && ThreadOpens(h, t) == if e.Open? then Some((e.swap.proposalId, e.swap.peer)) else None
  {
  }

  lemma ClosingKeepsPeer(h: Hash, s: NodeState, t: Thread, c: Choice)
    requires Keyed(s) && !Opening(t)
    ensures var e := Section(h, s, t, c).0; KeepsPeer(s, e) && !e.Open? && ThreadOpens(h, t).None?
  {
  }

  lemma EffectPeer(s: NodeState, e: Effect, pid: ProposalId)
    requires Applicable(s, e) && KeepsPeer(s, e) && pid in Perform(s, e).pending
    ensures if e.Open? && e.swap.proposalId == pid then Perform(s, e).pending[pid].peer == e.swap.peer
            else pid in s.pending && Perform(s, e).pending[pid].peer == s.pending[pid].peer
  {
  }

  /** Only opening a proposal gives its entry a peer: any other step keeps the peer it had. */
  lemma PeerStep(h: Hash, sys: System, l: Label, pid: ProposalId)
    requires Keyed(sys.node) && pid in Apply(h, sys, l).node.pending
    ensures var peer, last := Apply(h, sys, l).node.pending[pid].peer, OpensFor(h, sys, l);
            if last.Some? && last.value.0 == pid then peer == last.value.1
            else pid in sys.node.pending && peer == sys.node.pending[pid].peer
  {
    if l.Step? && l.tid in sys.threads {
      var t := sys.threads[l.tid];
      SectionApplicable(h, sys.node, t, l.choice);
      if Opening(t) {
        OpeningKeepsPeer(h, sys.node, t, l.choice);
      } else {
        ClosingKeepsPeer(h, sys.node, t, l.choice);
      }
      EffectPeer(sys.node, Section(h, sys.node, t, l.choice).0, pid);
    }
  }

  /** A commit that has been checked but not marked belongs to the peer of the entry, if there is one. */
  ghost predicate SystemGuarded(v: View, sys: System) {
    forall tid :: tid in sys.threads ==>
      (sys.threads[tid].CommitBind? ==> v.Pledged(sys.threads[tid].sender, sys.threads[tid].pid))
      && !StaleSection(v, sys.node, sys.threads[tid])
  }

  ghost predicate Guarded(w: World) {
    forall n :: n in w.nodes ==> SystemGuarded(ViewOf(w), w.nodes[n])
  }

  lemma StepGuards(h: Hash, w: World, a: Action)
    requires AllKeyed(w) && Guarded(w) && Allowed(w, a) && !Overtakes(h, w, a)
    ensures SystemGuarded(ViewOf(w), Apply(h, w.nodes[a.node], a.step))
  {
    var v, sys := ViewOf(w), w.nodes[a.node];
    var next := Apply(h, sys, a.step);
    forall tid | tid in next.threads && tid in sys.threads && next.threads[tid] == sys.threads[tid]
      ensures !StaleSection(v, next.node, next.threads[tid])
    {
      var t := next.threads[tid];
      if t.CommitMark? && t.pid in next.node.pending {
        PeerStep(h, sys, a.step, t.pid);
        assert !StaleSection(v, sys.node, sys.threads[tid]);
        assert CommitInFlight(sys, t.pid);
      }
    }
    if a.step.Step? && a.step.tid in sys.threads {
      SteppedThreadGuarded(h, v, sys, a.step);
    }
  }

  /** The section that checks a commit leaves the table alone, so what it checked still holds. */
  lemma SteppedThreadGuarded(h: Hash, v: View, sys: System, l: Label)
    requires Keyed(sys.node) && SystemGuarded(v, sys) && l.Step? && l.tid in sys.threads
    ensures var next := Apply(h, sys, l);
            next.threads[l.tid] != sys.threads[l.tid] ==>
              !next.threads[l.tid].CommitBind? && !StaleSection(v, next.node, next.threads[l.tid])
  {
    MarkFollowsCheck(h, sys.node, sys.threads[l.tid], l.choice);
  }

  lemma MarkFollowsCheck(h: Hash, s: NodeState, t: Thread, c: Choice)
    ensures var (e, t') := Section(h, s, t, c);
            && (t'.CommitBind? ==> t' == t)
            && (t'.CommitMark? ==>
                  t' == t || (t.CommitBind? && e == Nothing && t'.pid == t.pid && IsPendingWith(s, t.pid, t.sender)))
  {
  }

  lemma ActGuards(h: Hash, w: World, a: Action)
    requires AllKeyed(w) && Guarded(w) && !Overtakes(h, w, a)
    ensures Guarded(Act(h, w, a)) && !StaleMark(w, a)
  {
    if Allowed(w, a) {
      StepGuards(h, w, a);
    }
  }

  /** Where no opening overtakes a commit, no mark is stale. */
  lemma {:induction false} NoneOvertakenNoneStale(h: Hash, w: World, actions: seq<Action>)
    requires AllKeyed(w) && Guarded(w) && NoneOvertaken(h, w, actions)
    ensures NoStaleMark(h, w, actions)
    decreases |actions|
  {
    if actions != [] {
      ActGuards(h, w, actions[0]);
      NoneOvertakenNoneStale(h, Act(h, w, actions[0]), actions[1..]);
    }
  }

  // ---------------------------------------------------------------- causality

  /** The node has taken the swap out of its table to finalize it, or has stored it. */
  ghost predicate Finalizes(sys: System, swap: PendingSwap) {
    swap in sys.past.stored || exists tid :: tid in sys.threads && sys.threads[tid] == FinalizeStore(swap)
  }

  /** The peer has sent its commit and buffered a full chunk that passed the integrity gate. */
  ghost predicate PeerCommitted(h: Hash, w: World, swap: PendingSwap)
    requires swap.peer in w.nodes
  {
    && (swap.peer, swap.proposalId) in w.commits
    && exists e :: e in w.nodes[swap.peer].past.buffered && e.pid == swap.proposalId && GoodEvidence(h, e)
  }

  lemma FinalizerIsPledged(v: View, sys: System, swap: PendingSwap)
    requires SystemLinked(v, sys) && Finalizes(sys, swap)
    ensures v.Pledged(swap.peer, swap.proposalId)
  {
    if swap in sys.past.stored {
      var i :| 0 <= i < |sys.past.stored| && sys.past.stored[i] == swap;
    } else {
      var tid :| tid in sys.threads && sys.threads[tid] == FinalizeStore(swap);
      assert ThreadLinked(v, sys.past, sys.threads[tid]);
    }
  }

  lemma PledgeIsBacked(h: Hash, w: World, swap: PendingSwap)
    requires Linked(h, w) && swap.peer in w.nodes && (swap.peer, swap.proposalId) in w.commits
    ensures PeerCommitted(h, w, swap)
  {
    assert HasEvidence(w.nodes[swap.peer].past, swap.proposalId);
    var e :| e in w.nodes[swap.peer].past.buffered && e.pid == swap.proposalId;
    assert AllVouched(h, w.nodes[swap.peer]) && GoodEvidence(h, e);
  }

  /** Without a stale mark, whoever has begun to finalize with a peer that follows the protocol has that
      peer's commit, and the peer has its chunk. */
  lemma CausalWithoutStaleMark(h: Hash, w: World, actions: seq<Action>, n: NodeId, swap: PendingSwap)
    requires AllKeyed(w) && InitialWorld(w) && NoStaleMark(h, w, actions) && n in w.nodes && swap.peer in w.nodes
    ensures var final := RunAll(h, w, actions);
            Finalizes(final.nodes[n], swap) ==> PeerCommitted(h, final, swap)
  {
    var final := RunAll(h, w, actions);
    InitialIsLinked(h, w);
    RunLinks(h, w, actions);
    if Finalizes(final.nodes[n], swap) {
      FinalizerIsPledged(ViewOf(final), final.nodes[n], swap);
      PledgeIsBacked(h, final, swap);
    }
  }

  /** Swap causality, section by section: in every run in which no opening overtakes a commit between
      its check and its mark, a node that has begun to finalize a swap with a peer that follows the
      protocol finds that the peer has already sent its commit for the same proposal and buffered a full
      chunk for it that passed the integrity gate. */
  lemma LockLevelCausality(h: Hash, w: World, actions: seq<Action>, n: NodeId, swap: PendingSwap)
    requires AllKeyed(w) && InitialWorld(w) && NoneOvertaken(h, w, actions) && n in w.nodes && swap.peer in w.nodes
    ensures var final := RunAll(h, w, actions);
            Finalizes(final.nodes[n], swap) ==> PeerCommitted(h, final, swap)
  {
    InitialIsLinked(h, w);
    NoneOvertakenNoneStale(h, w, actions);
    CausalWithoutStaleMark(h, w, actions, n, swap);
  }
}
