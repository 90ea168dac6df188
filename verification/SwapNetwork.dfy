/** The swap protocol between any number of nodes over a network that may delay, lose, duplicate
    and reorder messages: what a node may conclude about its peer when it finalizes. */
module SwapNetwork {
  import opened Bytes
  import opened Merkle
  import opened Swap
  import opened SwapEvents

  /** A handler call: the node, its state when the call began, and what it was called with. */
  datatype Call = Call(node: NodeId, state: NodeState, event: Event)

  /** The nodes that follow the protocol, every message ever sent, and every call in the order in which
      they happened anywhere. Delivery reads from the message set without consuming, so any message may
      arrive never, late or often. */
  datatype World = World(nodes: map<NodeId, NodeState>, net: set<Message>, calls: seq<Call>)

  datatype Action =
    | NodeStep(node: NodeId, event: Event)
    | Inject(message: Message)

  /** A handler call needs its message to be in the network; retrieved data may be anything. */
  predicate Deliverable(net: set<Message>, ev: Event) {
    match ev
    case Proposed(p, _, _, _) => ProposalMsg(p) in net
    case AcceptIn(a) => AcceptMsg(a) in net
    case CommitIn(sender, pid) => CommitMsg(sender, pid) in net
    case AbortIn(sender, pid) => AbortMsg(sender, pid) in net
    case _ => true
  }

  /** Proposals and rejections carry no identity signature; the others cannot be forged in the
      name of a node that follows the protocol. */
  predicate Forgeable(w: World, m: Message) {
    m.ProposalMsg? || m.RejectMsg? || m.Sender() !in w.nodes
  }

  ghost predicate BuffersNow(h: Hash, s: NodeState, ev: Event) {
    && Possible(s, ev) && ev.Retrieved? && |ev.data| == CHUNK_LEN && ev.waiting.Some?
    && var swap := s.pending[ev.waiting.value];
    PassesGate(h, swap.contentRoot, swap.merkleProof, ev.data)
  }

  /** The messages a handler call sends. */
  ghost function Sent(h: Hash, s: NodeState, ev: Event): set<Message> {
    if !Possible(s, ev) then {}
    else
      match ev
      case Begin(_, own, _) => {ProposalMsg(own)}
      case Proposed(p, now, ret, token) => set m | m in HandleProposal(h, s, p, now, ret, token).1
      case AcceptIn(a) => set m | m in HandleAccept(s, a).1
      case Retrieved(chunk, data, waiting) => set m | m in HandleRetrieval(h, s, chunk, data, waiting).1
      case Expiry(_, _, order) => set pid | pid in order :: AbortMsg(s.me, pid)
      case _ => {}
  }

  /** The state and the proposal with which a call asks whether the swap is ready. */
  ghost function Asks(h: Hash, s: NodeState, ev: Event): Option<(NodeState, ProposalId)> {
    if ev.CommitIn? && IsPendingWith(s, ev.pid, ev.sender) then
      Some((s.(pending := s.pending[ev.pid := s.pending[ev.pid].(receivedCommit := true)]), ev.pid))
    else if BuffersNow(h, s, ev) then Some((Buffered(s, ev.waiting.value, ev.data), ev.waiting.value))
    else None
  }

  /** The call finalizes this entry. */
  ghost predicate Finalizes(h: Hash, s: NodeState, ev: Event, swap: PendingSwap) {
    match Asks(h, s, ev)
    case None => false
    case Some((asked, pid)) => pid in asked.pending && asked.pending[pid] == swap && swap.Ready()
  }

  ghost function Act(h: Hash, w: World, a: Action): World {
    match a
    case Inject(m) => if Forgeable(w, m) then w.(net := w.net + {m}) else w
    case NodeStep(n, ev) =>
      if n !in w.nodes || !Deliverable(w.net, ev) then w
      else
        var s := w.nodes[n];
        World(w.nodes[n := Handle(h, s, ev)], w.net + Sent(h, s, ev), w.calls + [Call(n, s, ev)])
  }

  ghost function RunNetwork(h: Hash, w: World, actions: seq<Action>): World
    decreases |actions|
  {
    if actions == [] then w else RunNetwork(h, Act(h, w, actions[0]), actions[1..])
  }

  ghost predicate InitialWorld(w: World) {
    && w.net == {} && w.calls == []
    && forall n :: n in w.nodes ==> w.nodes[n].me == n && w.nodes[n].pending == map[]
  }

  // ------------------------------------------------------------- causality

  /** The call buffered a full chunk for the proposal, verified against its Merkle root unless that root
      is all-zero, and sent the node's commit. */
  ghost predicate Commits(h: Hash, c: Call, n: NodeId, pid: ProposalId) {
    && c.node == n && CommitMsg(n, pid) in Sent(h, c.state, c.event)
    && c.event.Retrieved? && |c.event.data| == CHUNK_LEN && pid in c.state.pending
    && PassesGate(h, c.state.pending[pid].contentRoot, c.state.pending[pid].merkleProof, c.event.data)
    && Handle(h, c.state, c.event) == FinalizeIfReady(Buffered(c.state, pid, c.event.data), pid)
  }

  /** One of the first `upTo` calls did. */
  ghost predicate CommittedBy(h: Hash, calls: seq<Call>, upTo: nat, n: NodeId, pid: ProposalId)
    requires upTo <= |calls|
  {
    exists i :: 0 <= i < upTo && Commits(h, calls[i], n, pid)
  }

  /** The call finalizes nothing with a node that has not committed. */
  ghost predicate CallCausal(h: Hash, nodes: set<NodeId>, calls: seq<Call>, i: nat)
    requires i < |calls|
  {
    forall swap :: Finalizes(h, calls[i].state, calls[i].event, swap) && swap.peer in nodes ==>
      CommittedBy(h, calls, i, swap.peer, swap.proposalId)
  }

  ghost predicate Causal(h: Hash, nodes: set<NodeId>, calls: seq<Call>) {
    forall i: nat :: i < |calls| ==> CallCausal(h, nodes, calls, i)
  }

  ghost predicate EntryHonest(net: set<Message>, pid: ProposalId, swap: PendingSwap) {
    swap.proposalId == pid && (swap.receivedCommit ==> CommitMsg(swap.peer, pid) in net)
  }

  ghost predicate NodeHonest(net: set<Message>, n: NodeId, s: NodeState) {
    s.me == n && forall pid :: pid in s.pending ==> EntryHonest(net, pid, s.pending[pid])
  }

  ghost predicate CommitsBacked(h: Hash, w: World) {
    forall m :: m in w.net && m.CommitMsg? && m.committer in w.nodes ==>
      CommittedBy(h, w.calls, |w.calls|, m.committer, m.committed)
  }

  ghost predicate Honest(h: Hash, w: World) {
    && (forall n :: n in w.nodes ==> NodeHonest(w.net, n, w.nodes[n]))
    && CommitsBacked(h, w)
    && Causal(h, w.nodes.Keys, w.calls)
    && forall i :: 0 <= i < |w.calls| ==> Keyed(w.calls[i].state)
  }

  lemma CommittedStays(h: Hash, calls: seq<Call>, c: Call, upTo: nat, n: NodeId, pid: ProposalId)
    requires upTo <= |calls| && CommittedBy(h, calls, upTo, n, pid)
    ensures forall k :: upTo <= k <= |calls| + 1 ==> CommittedBy(h, calls + [c], k, n, pid)
  {
    var i :| 0 <= i < upTo && Commits(h, calls[i], n, pid);
    assert (calls + [c])[i] == calls[i];
  }

  lemma FinalizeHonest(net: set<Message>, n: NodeId, s: NodeState, pid: ProposalId)
    requires NodeHonest(net, n, s)
    ensures NodeHonest(net, n, FinalizeIfReady(s, pid))
  {
  }

  lemma OpeningHonest(h: Hash, net: set<Message>, n: NodeId, s: NodeState, ev: Event)
    requires (ev.Begin? || ev.Proposed?) && NodeHonest(net, n, s)
    ensures NodeHonest(net, n, Handle(h, s, ev))
  {
  }

  lemma AcceptHonest(h: Hash, net: set<Message>, n: NodeId, s: NodeState, ev: Event)
    requires ev.AcceptIn? && NodeHonest(net, n, s)
    ensures NodeHonest(net, n, Handle(h, s, ev))
  {
  }

  /** One handler call keeps its own node's entries honest. */
  lemma HandleHonest(h: Hash, net: set<Message>, n: NodeId, s: NodeState, ev: Event)
    requires NodeHonest(net, n, s) && Deliverable(net, ev)
    ensures NodeHonest(net, n, Handle(h, s, ev))
  {
    if ev.Begin? || ev.Proposed? {
      OpeningHonest(h, net, n, s, ev);
    } else if ev.AcceptIn? {
      AcceptHonest(h, net, n, s, ev);
    } else if ev.CommitIn? {
      if IsPendingWith(s, ev.pid, ev.sender) {
        FinalizeHonest(net, n, s.(pending := s.pending[ev.pid := s.pending[ev.pid].(receivedCommit := true)]), ev.pid);
      }
    } else if BuffersNow(h, s, ev) {
      FinalizeHonest(net, n, Buffered(s, ev.waiting.value, ev.data), ev.waiting.value);
    }
  }

  /** A node sends a commit in its own name only, and only in the call that buffers the chunk. */
  lemma CommitsComeFromBuffering(h: Hash, s: NodeState, ev: Event, m: Message)
    requires m in Sent(h, s, ev) && m.CommitMsg?
    ensures m.committer == s.me && Commits(h, Call(s.me, s, ev), s.me, m.committed)
  {
  }

  /** A finalization in this call rests on the peer's commit message, which is in the network. */
  lemma FinalizationHasCommit(h: Hash, net: set<Message>, n: NodeId, s: NodeState, ev: Event, swap: PendingSwap)
    requires NodeHonest(net, n, s) && Deliverable(net, ev) && Finalizes(h, s, ev, swap)
    ensures CommitMsg(swap.peer, swap.proposalId) in net
  {
  }

  lemma StepCausal(h: Hash, w: World, n: NodeId, ev: Event)
    requires Honest(h, w) && n in w.nodes && Deliverable(w.net, ev)
    ensures Causal(h, w.nodes.Keys, w.calls + [Call(n, w.nodes[n], ev)])
  {
    var c := Call(n, w.nodes[n], ev);
    var calls := w.calls + [c];
    forall i: nat, swap | i < |calls| && Finalizes(h, calls[i].state, calls[i].event, swap) && swap.peer in w.nodes
      ensures CommittedBy(h, calls, i, swap.peer, swap.proposalId)
    {
      if i < |w.calls| {
        assert CallCausal(h, w.nodes.Keys, w.calls, i) && calls[i] == w.calls[i];
        CommittedStays(h, w.calls, c, i, swap.peer, swap.proposalId);
      } else {
        FinalizationHasCommit(h, w.net, n, c.state, ev, swap);
        CommittedStays(h, w.calls, c, |w.calls|, swap.peer, swap.proposalId);
      }
    }
  }

  lemma StepBacked(h: Hash, w: World, n: NodeId, ev: Event)
    requires Honest(h, w) && n in w.nodes && Deliverable(w.net, ev)
    ensures CommitsBacked(h, Act(h, w, NodeStep(n, ev)))
  {
    var c, w' := Call(n, w.nodes[n], ev), Act(h, w, NodeStep(n, ev));
    forall m | m in w'.net && m.CommitMsg? && m.committer in w'.nodes
      ensures CommittedBy(h, w'.calls, |w'.calls|, m.committer, m.committed)
    {
      if m in w.net {
        CommittedStays(h, w.calls, c, |w.calls|, m.committer, m.committed);
      } else {
        CommitsComeFromBuffering(h, w.nodes[n], ev, m);
        assert w'.calls[|w.calls|] == c;
      }
    }
  }

  lemma ActHonest(h: Hash, w: World, a: Action)
    requires Honest(h, w)
    ensures Honest(h, Act(h, w, a))
    ensures Act(h, w, a).nodes.Keys == w.nodes.Keys
  {
    if a.NodeStep? && a.node in w.nodes && Deliverable(w.net, a.event) {
      HandleHonest(h, w.net, a.node, w.nodes[a.node], a.event);
      StepCausal(h, w, a.node, a.event);
      StepBacked(h, w, a.node, a.event);
      assert Act(h, w, a).nodes.Keys == w.nodes.Keys && Keyed(w.nodes[a.node]);
    }
  }

  lemma {:induction false} RunHonest(h: Hash, w: World, actions: seq<Action>)
    requires Honest(h, w)
    ensures Honest(h, RunNetwork(h, w, actions))
    decreases |actions|
  {
    if actions != [] {
      ActHonest(h, w, actions[0]);
      RunHonest(h, Act(h, w, actions[0]), actions[1..]);
    }
  }

  // ------------------------------------------------- what finalizing means

  /** The call leaves alone what is stored and what counts as completed. */
  predicate StoresNothing(s: NodeState, after: NodeState) {
    && after.chunks == s.chunks && after.leases == s.leases && after.peerCounts == s.peerCounts
    && after.active == s.active && after.completed == s.completed
  }

  /** The call ends as its last question says: the swap completed and stored, or nothing more. */
  lemma AskedIsAnswered(h: Hash, s: NodeState, ev: Event)
    requires Asks(h, s, ev).Some?
    ensures var (asked, pid) := Asks(h, s, ev).value;
            Handle(h, s, ev) == FinalizeIfReady(asked, pid) && StoresNothing(s, asked)
  {
  }

  lemma ProposalStoresNothing(h: Hash, s: NodeState, ev: Event)
    requires ev.Proposed?
    ensures StoresNothing(s, Handle(h, s, ev))
  {
  }

  lemma AcceptStoresNothing(h: Hash, s: NodeState, ev: Event)
    requires ev.AcceptIn?
    ensures StoresNothing(s, Handle(h, s, ev))
  {
  }

  lemma ClosingStoresNothing(h: Hash, s: NodeState, ev: Event)
    requires !ev.Proposed? && !ev.AcceptIn? && Asks(h, s, ev).None?
    ensures StoresNothing(s, Handle(h, s, ev))
  {
  }

  /** Nothing is stored and no swap completed by any call that does not finalize. */
  lemma OnlyFinalizingStores(h: Hash, s: NodeState, ev: Event)
    requires !StoresNothing(s, Handle(h, s, ev))
    ensures exists swap :: Finalizes(h, s, ev, swap)
  {
    if ev.Proposed? {
      ProposalStoresNothing(h, s, ev);
    } else if ev.AcceptIn? {
      AcceptStoresNothing(h, s, ev);
    } else if Asks(h, s, ev).None? {
      ClosingStoresNothing(h, s, ev);
    } else {
      AskedIsAnswered(h, s, ev);
      var (asked, pid) := Asks(h, s, ev).value;
      assert Finalizes(h, s, ev, asked.pending[pid]);
    }
  }

  /** The call completes the swap and stores its chunk, having stored nothing before. */
  ghost predicate Completes(h: Hash, s: NodeState, ev: Event, swap: PendingSwap) {
    match Asks(h, s, ev)
    case None => false
    case Some((asked, pid)) =>
      && StoresNothing(s, asked) && pid == swap.proposalId && pid in asked.pending
      && Handle(h, s, ev) == StoreSwap(CompleteSwap(asked, pid), swap)
  }

  lemma FinalizingCompletes(h: Hash, s: NodeState, ev: Event, swap: PendingSwap)
    requires Keyed(s) && Finalizes(h, s, ev, swap)
    ensures Completes(h, s, ev, swap)
  {
    AskedIsAnswered(h, s, ev);
  }

  /** Swap causality, for every call in every run. A call stores or completes something only if it
      finalizes a swap; then it completes that swap, and if the peer follows the protocol, the peer had in
      an earlier call buffered a full chunk for the same proposal, verified against its Merkle root unless
      that root is all-zero, and sent its own commit. */
  lemma SwapCausality(h: Hash, w: World, actions: seq<Action>, i: nat)
    requires InitialWorld(w) && i < |RunNetwork(h, w, actions).calls|
    ensures var final := RunNetwork(h, w, actions);
            var call := final.calls[i];
            && (!StoresNothing(call.state, Handle(h, call.state, call.event)) ==>
                  exists swap :: Finalizes(h, call.state, call.event, swap))
            && (forall swap :: Finalizes(h, call.state, call.event, swap) ==>
                  && Completes(h, call.state, call.event, swap)
                  && (swap.peer in final.nodes ==>
                        exists j :: 0 <= j < i && Commits(h, final.calls[j], swap.peer, swap.proposalId)))
  {
    RunHonest(h, w, actions);
    var final := RunNetwork(h, w, actions);
    var call := final.calls[i];
    if !StoresNothing(call.state, Handle(h, call.state, call.event)) {
      OnlyFinalizingStores(h, call.state, call.event);
    }
    assert CallCausal(h, final.nodes.Keys, final.calls, i) && Keyed(call.state);
    forall swap | Finalizes(h, call.state, call.event, swap) ensures Completes(h, call.state, call.event, swap) {
      FinalizingCompletes(h, call.state, call.event, swap);
    }
  }

  // ------------------------------------------------- where data comes from

  ghost predicate HasData(s: NodeState, pid: ProposalId) {
    pid in s.pending && s.pending[pid].receivedChunk
  }

  /** No call puts data into an entry but one that retrieves a full chunk which passes the gate. */
  lemma DataPassedGate(h: Hash, s: NodeState, ev: Event, pid: ProposalId)
    requires HasData(Handle(h, s, ev), pid) && !HasData(s, pid)
    ensures BuffersNow(h, s, ev) && ev.waiting == Some(pid)
  {
    if ev.Begin? || ev.Proposed? {
      OpeningBuffersNothing(h, s, ev, pid);
    } else if ev.AcceptIn? {
      AcceptBuffersNothing(h, s, ev, pid);
    } else if !ev.Retrieved? {
      ClosingBuffersNothing(h, s, ev, pid);
    }
  }

  lemma OpeningBuffersNothing(h: Hash, s: NodeState, ev: Event, pid: ProposalId)
    requires ev.Begin? || ev.Proposed?
    ensures HasData(Handle(h, s, ev), pid) ==> HasData(s, pid)
  {
  }

  lemma AcceptBuffersNothing(h: Hash, s: NodeState, ev: Event, pid: ProposalId)
    requires ev.AcceptIn?
    ensures HasData(Handle(h, s, ev), pid) ==> HasData(s, pid)
  {
  }

  lemma ClosingBuffersNothing(h: Hash, s: NodeState, ev: Event, pid: ProposalId)
    requires ev.CommitIn? || ev.AbortIn? || ev.Expiry?
    ensures HasData(Handle(h, s, ev), pid) ==> HasData(s, pid)
  {
  }
}
