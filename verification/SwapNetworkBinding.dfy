/** What binds a swap between nodes on the network: in every run, whatever a node stores was checked against the
    terms that the messages delivered to it had set for the proposal. */
module SwapNetworkBinding {
  import opened Bytes
  import opened Merkle
  import opened Swap
  import opened SwapEvents
  import opened SwapNetwork
  import SwapBinding

  type Terms = SwapBinding.Terms

  /** The conditions under which a proposal is accepted. */
  ghost predicate Agreeable(s: NodeState, p: Proposal, now: nat, ret: Option<ChunkId>) {
    && p.signatureOk && now < p.lease.expiresAt
    && HeldBytes(s.chunks) + s.capacity.reservedBytes + CHUNK_LEN <= s.capacity.maxBytes
    && (if p.fromNode in s.peerCounts then s.peerCounts[p.fromNode] else 0) < s.capacity.maxChunksPerPeer
    && ret.Some? && |s.pending| < 32
  }

  /** A proposal is answered by an accept, and a swap opened for it, if and only if it is agreeable; any other is
      answered by a rejection and opens nothing. */
  lemma AcceptedIffAgreeable(h: Hash, s: NodeState, p: Proposal, now: nat, ret: Option<ChunkId>, token: Bytes32)
    ensures var (after, sent) := HandleProposal(h, s, p, now, ret, token);
            var pid := ProposalIdOf(h, p);
            && |sent| == 1
            && (if Agreeable(s, p, now, ret)
                then sent[0].AcceptMsg? && sent[0].accept.proposalId == pid && sent[0].accept.fromNode == s.me
                     && sent[0].accept.lease == Lease(ret.value, now + 86_400, token, ZERO32)
                     && sent[0].accept.chunkId == ret.value && pid in after.pending
                     && after.capacity.reservedBytes == s.capacity.reservedBytes + CHUNK_LEN
                else sent[0] == RejectMsg(s.me, pid) && after.pending == s.pending
                     && after.capacity.reservedBytes == s.capacity.reservedBytes)
  {
  }

  // ---------------------------------------------------------------- terms

  /** The terms that a call leaves for a proposal: those of the message it handles, if it is about the
      proposal and takes effect. */
  ghost function Bound(h: Hash, c: Call, n: NodeId, pid: ProposalId, was: Option<Terms>): Option<Terms> {
    if c.node != n || !Possible(c.state, c.event) then was
    else
      match c.event
      case Begin(peer, own, now) =>
        if ProposalIdOf(h, own) == pid then Some(SwapBinding.OfferTerms(peer, own.chunkId, now)) else was
      case Proposed(p, now, ret, _) =>
        if ProposalIdOf(h, p) == pid && Agreeable(c.state, p, now, ret)
        then Some(SwapBinding.ProposalTerms(p, ret.value, now)) else was
      case AcceptIn(a) =>
        if a.proposalId == pid && IsPendingWith(c.state, pid, a.fromNode) && HasRoom(c.state) && was.Some?
        then Some(SwapBinding.AcceptTerms(was.value, a)) else was
      case _ => was
  }

  /** There is room for one more full chunk. */
  predicate HasRoom(s: NodeState) {
    && s.capacity.currentBytes + s.capacity.reservedBytes + CHUNK_LEN <= s.capacity.maxBytes
    && 0 < s.capacity.maxChunksPerPeer
  }

  /** The terms of a proposal at a node after these calls. */
  ghost function TermsAt(h: Hash, calls: seq<Call>, n: NodeId, pid: ProposalId): Option<Terms> {
    if calls == [] then None
    else Bound(h, calls[|calls| - 1], n, pid, TermsAt(h, calls[..|calls| - 1], n, pid))
  }

  /** At call `b` the node retrieved this full chunk for the proposal, and it verified under the root that the
      messages before had bound, if they had bound one. */
  ghost predicate Checked(h: Hash, calls: seq<Call>, b: nat, n: NodeId, pid: ProposalId, data: seq<byte>) {
    && b < |calls| && calls[b].node == n
    && calls[b].event.Retrieved? && calls[b].event.data == data && calls[b].event.waiting == Some(pid)
    && |data| == 1_048_592
    && var terms := TermsAt(h, calls[..b], n, pid);
       && terms.Some? && calls[b].event.chunk == terms.value.chunk
       && (terms.value.root != ZERO32 ==> Verifies(h, data, terms.value.proof, terms.value.root))
  }

  ghost predicate WasChecked(h: Hash, calls: seq<Call>, n: NodeId, pid: ProposalId, data: seq<byte>) {
    exists b: nat :: Checked(h, calls, b, n, pid, data)
  }

  ghost predicate EntryBound(h: Hash, calls: seq<Call>, n: NodeId, pid: ProposalId, swap: PendingSwap) {
    && SwapBinding.Holds(swap, TermsAt(h, calls, n, pid))
    && (swap.receivedChunk ==> WasChecked(h, calls, n, pid, swap.theirData))
  }

  ghost predicate NodeBound(h: Hash, calls: seq<Call>, n: NodeId, s: NodeState) {
    forall pid :: pid in s.pending ==> s.pending[pid].proposalId == pid && EntryBound(h, calls, n, pid, s.pending[pid])
  }

  /** A finalized swap has the terms of its messages, and its data was checked against terms of theirs. */
  ghost predicate CallBound(h: Hash, calls: seq<Call>, i: nat)
    requires i < |calls|
  {
    forall swap :: Finalizes(h, calls[i].state, calls[i].event, swap) ==>
      && SwapBinding.Holds(swap, TermsAt(h, calls[..i], calls[i].node, swap.proposalId))
      && WasChecked(h, calls[..i + 1], calls[i].node, swap.proposalId, swap.theirData)
  }

  ghost predicate WorldBound(h: Hash, w: World) {
    && (forall n :: n in w.nodes ==> NodeBound(h, w.calls, n, w.nodes[n]))
    && forall i: nat :: i < |w.calls| ==> CallBound(h, w.calls, i)
  }

  // ---------------------------------------------------------------- one call

  lemma CheckedLater(h: Hash, calls: seq<Call>, c: Call, n: NodeId, pid: ProposalId, data: seq<byte>)
    requires WasChecked(h, calls, n, pid, data)
    ensures WasChecked(h, calls + [c], n, pid, data)
  {
    var b: nat :| Checked(h, calls, b, n, pid, data);
    assert (calls + [c])[..b] == calls[..b] && (calls + [c])[b] == calls[b];
    assert Checked(h, calls + [c], b, n, pid, data);
  }

  lemma TermsAfter(h: Hash, calls: seq<Call>, c: Call, n: NodeId, pid: ProposalId)
    ensures TermsAt(h, calls + [c], n, pid) == Bound(h, c, n, pid, TermsAt(h, calls, n, pid))
  {
    assert (calls + [c])[..|calls|] == calls;
  }

  ghost predicate Follows(h: Hash, c: Call, was: Option<Terms>, pid: ProposalId, swap: PendingSwap) {
    var now := Bound(h, c, c.node, pid, was);
    && swap.proposalId == pid && SwapBinding.Holds(swap, now)
    && (swap.receivedChunk ==>
          || (pid in c.state.pending && c.state.pending[pid].receivedChunk
              && c.state.pending[pid].theirData == swap.theirData)
          || (BuffersNow(h, c.state, c.event) && c.event.waiting == Some(pid) && c.event.data == swap.theirData))
  }

  ghost predicate EntriesFollow(h: Hash, c: Call, calls: seq<Call>, s: NodeState) {
    forall pid :: pid in s.pending ==> Follows(h, c, TermsAt(h, calls, c.node, pid), pid, s.pending[pid])
  }

  /** The entry before the call, if there is one, has its terms. */
  predicate Had(s: NodeState, pid: ProposalId, was: Option<Terms>) {
    pid in s.pending ==> s.pending[pid].proposalId == pid && SwapBinding.Holds(s.pending[pid], was)
  }

  lemma BeginFollows(h: Hash, c: Call, was: Option<Terms>, pid: ProposalId)
    requires c.event.Begin? && Had(c.state, pid, was) && pid in Handle(h, c.state, c.event).pending
    ensures Follows(h, c, was, pid, Handle(h, c.state, c.event).pending[pid])
  {
  }

  lemma ProposalFollows(h: Hash, c: Call, was: Option<Terms>, pid: ProposalId)
    requires c.event.Proposed? && Had(c.state, pid, was) && pid in Handle(h, c.state, c.event).pending
    ensures Follows(h, c, was, pid, Handle(h, c.state, c.event).pending[pid])
  {
  }

  lemma AcceptFollows(h: Hash, c: Call, was: Option<Terms>, pid: ProposalId)
    requires c.event.AcceptIn? && Had(c.state, pid, was) && pid in Handle(h, c.state, c.event).pending
    ensures Follows(h, c, was, pid, Handle(h, c.state, c.event).pending[pid])
  {
    AcceptedEntry(c.state, c.event.accept, pid);
    AcceptNames(c.state.pending[pid], c.event.accept, was.value);
  }

  /** An accept touches only its own entry, and only if it comes from the peer and there is room. */
  lemma AcceptedEntry(s: NodeState, a: Accept, pid: ProposalId)
    requires pid in HandleAccept(s, a).0.pending
    ensures pid in s.pending
    ensures HandleAccept(s, a).0.pending[pid] ==
            if a.proposalId == pid && IsPendingWith(s, pid, a.fromNode) && HasRoom(s) then Accepted(s.pending[pid], a)
            else s.pending[pid]
  {
  }

  lemma AcceptNames(swap: PendingSwap, a: Accept, t: Terms)
    requires SwapBinding.Agrees(swap, t)
    ensures SwapBinding.Agrees(Accepted(swap, a), SwapBinding.AcceptTerms(t, a))
    ensures Accepted(swap, a).proposalId == swap.proposalId && Accepted(swap, a).receivedChunk == swap.receivedChunk
    ensures Accepted(swap, a).theirData == swap.theirData
  {
  }

  lemma NamingFollows(h: Hash, calls: seq<Call>, c: Call)
    requires NodeBound(h, calls, c.node, c.state) && (c.event.Begin? || c.event.Proposed? || c.event.AcceptIn?)
    ensures EntriesFollow(h, c, calls, Handle(h, c.state, c.event))
  {
    var after := Handle(h, c.state, c.event);
    forall pid | pid in after.pending ensures Follows(h, c, TermsAt(h, calls, c.node, pid), pid, after.pending[pid]) {
      var was := TermsAt(h, calls, c.node, pid);
      if c.event.Begin? {
        BeginFollows(h, c, was, pid);
      } else if c.event.Proposed? {
        ProposalFollows(h, c, was, pid);
      } else {
        AcceptFollows(h, c, was, pid);
      }
    }
  }

  lemma AskedFollows(h: Hash, calls: seq<Call>, c: Call)
    requires NodeBound(h, calls, c.node, c.state) && Asks(h, c.state, c.event).Some?
    ensures EntriesFollow(h, c, calls, Asks(h, c.state, c.event).value.0)
  {
  }

  lemma ClosingFollows(h: Hash, calls: seq<Call>, c: Call)
    requires NodeBound(h, calls, c.node, c.state) && Asks(h, c.state, c.event).None?
    requires c.event.CommitIn? || c.event.AbortIn? || c.event.Retrieved? || c.event.Expiry?
    ensures EntriesFollow(h, c, calls, Handle(h, c.state, c.event))
  {
  }

  lemma FinalizeFollows(h: Hash, calls: seq<Call>, c: Call, s: NodeState, pid: ProposalId)
    requires EntriesFollow(h, c, calls, s)
    ensures EntriesFollow(h, c, calls, FinalizeIfReady(s, pid))
  {
  }

  lemma CallFollows(h: Hash, calls: seq<Call>, c: Call)
    requires NodeBound(h, calls, c.node, c.state)
    ensures EntriesFollow(h, c, calls, Handle(h, c.state, c.event))
  {
    if c.event.Begin? || c.event.Proposed? || c.event.AcceptIn? {
      NamingFollows(h, calls, c);
    } else if Asks(h, c.state, c.event).Some? {
      AskedFollows(h, calls, c);
      AskedIsAnswered(h, c.state, c.event);
      var (asked, pid) := Asks(h, c.state, c.event).value;
      FinalizeFollows(h, calls, c, asked, pid);
    } else {
      ClosingFollows(h, calls, c);
    }
  }

  /** Data that a call buffers has been checked by it. */
  lemma BufferingChecks(h: Hash, calls: seq<Call>, c: Call)
    requires NodeBound(h, calls, c.node, c.state) && BuffersNow(h, c.state, c.event)
    ensures Checked(h, calls + [c], |calls|, c.node, c.event.waiting.value, c.event.data)
  {
    assert (calls + [c])[..|calls|] == calls && (calls + [c])[|calls|] == c;
  }

  lemma FollowedIsBound(h: Hash, calls: seq<Call>, c: Call, pid: ProposalId, swap: PendingSwap)
    requires NodeBound(h, calls, c.node, c.state) && Follows(h, c, TermsAt(h, calls, c.node, pid), pid, swap)
    ensures swap.proposalId == pid && EntryBound(h, calls + [c], c.node, pid, swap)
  {
    TermsAfter(h, calls, c, c.node, pid);
    if swap.receivedChunk {
      if pid in c.state.pending && c.state.pending[pid].receivedChunk
         && c.state.pending[pid].theirData == swap.theirData {
        CheckedLater(h, calls, c, c.node, pid, swap.theirData);
      } else {
        BufferingChecks(h, calls, c);
      }
    }
  }

  lemma ActorBound(h: Hash, calls: seq<Call>, c: Call)
    requires NodeBound(h, calls, c.node, c.state)
    ensures NodeBound(h, calls + [c], c.node, Handle(h, c.state, c.event))
  {
    CallFollows(h, calls, c);
    var after := Handle(h, c.state, c.event);
    forall pid | pid in after.pending
      ensures after.pending[pid].proposalId == pid && EntryBound(h, calls + [c], c.node, pid, after.pending[pid])
    {
      FollowedIsBound(h, calls, c, pid, after.pending[pid]);
    }
  }

  lemma OthersBound(h: Hash, calls: seq<Call>, c: Call, n: NodeId, s: NodeState)
    requires NodeBound(h, calls, n, s) && n != c.node
    ensures NodeBound(h, calls + [c], n, s)
  {
    forall pid | pid in s.pending ensures EntryBound(h, calls + [c], n, pid, s.pending[pid]) {
      TermsAfter(h, calls, c, n, pid);
      if s.pending[pid].receivedChunk {
        CheckedLater(h, calls, c, n, pid, s.pending[pid].theirData);
      }
    }
  }

  /** The swap that a call finalizes. */
  lemma FinalizedBound(h: Hash, calls: seq<Call>, c: Call, swap: PendingSwap)
    requires NodeBound(h, calls, c.node, c.state) && Finalizes(h, c.state, c.event, swap)
    ensures SwapBinding.Holds(swap, TermsAt(h, calls, c.node, swap.proposalId))
    ensures WasChecked(h, calls + [c], c.node, swap.proposalId, swap.theirData)
  {
    AskedFollows(h, calls, c);
    var pid := Asks(h, c.state, c.event).value.1;
    FollowedIsBound(h, calls, c, pid, swap);
  }

  lemma CallsBound(h: Hash, w: World, c: Call)
    requires WorldBound(h, w) && c.node in w.nodes && c.state == w.nodes[c.node]
    ensures forall i: nat :: i < |w.calls| + 1 ==> CallBound(h, w.calls + [c], i)
  {
    var calls := w.calls + [c];
    forall i: nat, swap | i < |calls| && Finalizes(h, calls[i].state, calls[i].event, swap)
      ensures SwapBinding.Holds(swap, TermsAt(h, calls[..i], calls[i].node, swap.proposalId))
      ensures WasChecked(h, calls[..i + 1], calls[i].node, swap.proposalId, swap.theirData)
    {
      if i < |w.calls| {
        assert calls[..i] == w.calls[..i] && calls[..i + 1] == w.calls[..i + 1] && CallBound(h, w.calls, i);
      } else {
        assert calls[..i] == w.calls && calls[..i + 1] == calls;
        FinalizedBound(h, w.calls, c, swap);
      }
    }
  }

  lemma ActBound(h: Hash, w: World, a: Action)
    requires WorldBound(h, w)
    ensures WorldBound(h, Act(h, w, a))
  {
    if a.NodeStep? && a.node in w.nodes && Deliverable(w.net, a.event) {
      var c, next := Call(a.node, w.nodes[a.node], a.event), Act(h, w, a);
      CallsBound(h, w, c);
      ActorBound(h, w.calls, c);
      forall n | n in next.nodes && n != a.node ensures NodeBound(h, next.calls, n, next.nodes[n]) {
        OthersBound(h, w.calls, c, n, w.nodes[n]);
      }
    }
  }

  lemma {:induction false} RunBound(h: Hash, w: World, actions: seq<Action>)
    requires WorldBound(h, w)
    ensures WorldBound(h, RunNetwork(h, w, actions))
    decreases |actions|
  {
    if actions != [] {
      ActBound(h, w, actions[0]);
      RunBound(h, Act(h, w, actions[0]), actions[1..]);
    }
  }

  /** Whenever a node finalizes a swap, in any run, with any messages lost, repeated, reordered or forged: the
      swap has the peer, chunk and lease that the messages delivered to the node last set for the proposal; and
      its data is a full chunk the node had retrieved for the proposal when the messages up to then named that
      chunk, verified under the root and the proof they had bound. */
  lemma FinalizedOnItsTerms(h: Hash, w: World, actions: seq<Action>, i: nat, swap: PendingSwap)
    requires InitialWorld(w) && i < |RunNetwork(h, w, actions).calls|
    requires var call := RunNetwork(h, w, actions).calls[i]; Finalizes(h, call.state, call.event, swap)
    ensures var calls := RunNetwork(h, w, actions).calls;
            var n, terms := calls[i].node, TermsAt(h, calls[..i], calls[i].node, swap.proposalId);
            && terms.Some? && SwapBinding.Agrees(swap, terms.value)
            && exists b: nat :: b <= i && Checked(h, calls, b, n, swap.proposalId, swap.theirData)
  {
    RunBound(h, w, actions);
    var calls := RunNetwork(h, w, actions).calls;
    assert CallBound(h, calls, i);
    var b: nat :| Checked(h, calls[..i + 1], b, calls[i].node, swap.proposalId, swap.theirData);
    assert calls[..i + 1][..b] == calls[..b] && calls[..i + 1][b] == calls[b];
    assert Checked(h, calls, b, calls[i].node, swap.proposalId, swap.theirData);
  }
}
