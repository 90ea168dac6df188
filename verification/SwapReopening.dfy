/** A proposal that is opened again while a commit for it is being handled: in whose entry the commit is
    then marked, exactly, and a run that finalizes a swap with a peer that never committed. */
module SwapReopening {
  import opened Bytes
  import opened Merkle
  import opened Swap
  import opened SwapLocks
  import opened SwapLockNetwork
  import opened SwapStaging
  import SwapLimits

  // ---------------------------------------------------------------- whose entry is marked

  /** The peer with which the proposal was last opened in a run, if it was. */
  ghost function LastOpening(h: Hash, sys: System, labels: seq<Label>, pid: ProposalId): Option<NodeId>
    requires Keyed(sys.node)
    decreases |labels|
  {
    if labels == [] then None
    else
      var first, later := OpensFor(h, sys, labels[0]), LastOpening(h, Apply(h, sys, labels[0]), labels[1..], pid);
      if later.Some? then later
      else if first.Some? && first.value.0 == pid then Some(first.value.1)
      else None
  }

  function Or(last: Option<NodeId>, peer: NodeId): NodeId {
    match last
    case None => peer
    case Some(other) => other
  }

  /** One step of a run. */
  lemma OpenedFirst(h: Hash, sys: System, labels: seq<Label>, pid: ProposalId, peer: NodeId)
      returns (next: System, now: NodeId)
    requires Keyed(sys.node) && (pid in sys.node.pending ==> sys.node.pending[pid].peer == peer) && labels != []
    ensures Keyed(next.node) && (pid in next.node.pending ==> next.node.pending[pid].peer == now)
    ensures Run(h, sys, labels) == Run(h, next, labels[1..])
    ensures Or(LastOpening(h, sys, labels, pid), peer) == Or(LastOpening(h, next, labels[1..], pid), now)
  {
    var first := OpensFor(h, sys, labels[0]);
    next := Apply(h, sys, labels[0]);
    now := if first.Some? && first.value.0 == pid then first.value.1 else peer;
    if pid in next.node.pending {
      PeerStep(h, sys, labels[0], pid);
    }
  }

  lemma {:induction false} PeerIsLastOpened(h: Hash, sys: System, labels: seq<Label>, pid: ProposalId, peer: NodeId)
    requires Keyed(sys.node) && (pid in sys.node.pending ==> sys.node.pending[pid].peer == peer)
    requires pid in Run(h, sys, labels).node.pending
    ensures Run(h, sys, labels).node.pending[pid].peer == Or(LastOpening(h, sys, labels, pid), peer)
    decreases |labels|
  {
    if labels != [] {
      var next, now := OpenedFirst(h, sys, labels, pid, peer);
      PeerIsLastOpened(h, next, labels[1..], pid, now);
    }
  }

  predicate NotStepped(labels: seq<Label>, tid: nat) {
    forall i :: 0 <= i < |labels| && labels[i].Step? ==> labels[i].tid != tid
  }

  lemma {:induction false} ThreadWaits(h: Hash, sys: System, labels: seq<Label>, tid: nat)
    requires Keyed(sys.node) && tid in sys.threads && NotStepped(labels, tid)
    ensures tid in Run(h, sys, labels).threads && Run(h, sys, labels).threads[tid] == sys.threads[tid]
    decreases |labels|
  {
    if labels != [] {
      ThreadWaits(h, Apply(h, sys, labels[0]), labels[1..], tid);
    }
  }

  lemma CheckStep(h: Hash, sys: System, tid: nat)
    requires Keyed(sys.node) && tid in sys.threads && sys.threads[tid].CommitBind?
    requires IsPendingWith(sys.node, sys.threads[tid].pid, sys.threads[tid].sender)
    ensures var checked := Apply(h, sys, Step(tid, NoChoice));
            checked.node == sys.node && checked.threads == sys.threads[tid := CommitMark(sys.threads[tid].pid)]
  {
  }

  lemma MarkStep(h: Hash, sys: System, tid: nat)
    requires Keyed(sys.node) && tid in sys.threads && sys.threads[tid].CommitMark?
    requires sys.threads[tid].pid in sys.node.pending
    ensures var pid := sys.threads[tid].pid;
            Apply(h, sys, Step(tid, NoChoice)).node.pending
              == sys.node.pending[pid := sys.node.pending[pid].(receivedCommit := true)]
  {
  }

  /** A commit of `sender` passes its check; whatever other handlers then do, it is marked in an entry of
      `sender` if and only if the proposal was not opened again in between, or last with `sender`. */
  lemma MarkedForSenderIff(h: Hash, sys: System, tid: nat, labels: seq<Label>)
    requires Keyed(sys.node) && tid in sys.threads && sys.threads[tid].CommitBind?
    requires IsPendingWith(sys.node, sys.threads[tid].pid, sys.threads[tid].sender) && NotStepped(labels, tid)
    requires sys.threads[tid].pid in Run(h, Apply(h, sys, Step(tid, NoChoice)), labels).node.pending
    ensures var sender, pid := sys.threads[tid].sender, sys.threads[tid].pid;
            var checked := Apply(h, sys, Step(tid, NoChoice));
            var marked := Apply(h, Run(h, checked, labels), Step(tid, NoChoice)).node.pending;
            var last := LastOpening(h, checked, labels, pid);
            && pid in marked && marked[pid].receivedCommit
            && (marked[pid].peer == sender <==> last.None? || last == Some(sender))
  {
    var sender, pid := sys.threads[tid].sender, sys.threads[tid].pid;
    var checked := Apply(h, sys, Step(tid, NoChoice));
    CheckStep(h, sys, tid);
    PeerIsLastOpened(h, checked, labels, pid, sender);
    ThreadWaits(h, checked, labels, tid);
    MarkStep(h, Run(h, checked, labels), tid);
  }

  // ---------------------------------------------------------------- the run

  /** A node that holds one chunk and has room for another. */
  ghost function Holder(me: NodeId, ret: ChunkId): System {
    var chunks := map[ret := []];
    System(SwapLimits.FreshNode(me, HeldBytes(chunks) + CHUNK_LEN).(chunks := chunks), map[], Past({}, {}, {}, {}, []))
  }

  ghost function Start(me: NodeId, a: NodeId, b: NodeId, ret: ChunkId): World {
    var proposer, other := SwapLimits.FreshSystem(me, CHUNK_LEN), SwapLimits.FreshSystem(b, CHUNK_LEN);
    World(map[me := proposer, a := Holder(a, ret), b := other], {})
  }

  /** `a` accepts the proposal, retrieves the chunk and commits. */
  lemma PeerCommits(h: Hash, a: NodeId, p: Proposal, ret: ChunkId, data: seq<byte>) returns (q: Point)
    requires p.contentRoot == ZERO32 && p.signatureOk && p.lease.expiresAt > 0 && ret != p.chunkId
    requires |data| == CHUNK_LEN
    ensures From(h, Holder(a, ret))(q) && q.talk == Talk({ProposalIdOf(h, p)}, {})
  {
    var s := Curtain(h, Holder(a, ret));
    s := s.Accepts(0, p, ret);
    s := s.Retrieves(1, p.chunkId, ProposalIdOf(h, p), data);
    q := s.at;
  }

  /** The swap has its commit marked and waits for its chunk. */
  predicate Unfinished(s: NodeState, a: Accept) {
    && IsPendingWith(s, a.proposalId, a.fromNode) && s.capacity.CanAccept(CHUNK_LEN, 0)
    && var swap := s.pending[a.proposalId];
       swap.contentRoot == ZERO32 && swap.receivedCommit && !swap.receivedChunk && !swap.sentCommit
  }

  /** The proposal is opened with `a` and a commit of `a` checked. */
  lemma CheckedInTime(from: Script, a: NodeId, p: Proposal) returns (s: Script)
    requires from.Valid() && from.Threads() == map[]
    ensures var pid := ProposalIdOf(from.h, p);
            && s.Valid() && s.h == from.h && s.reach == from.reach
            && s.at.talk == from.at.talk.(heard := from.at.talk.heard + {(a, pid)})
            && s.Node() == BeginProposal(from.h, from.Node(), a, p, 0)
            && s.Threads() == map[0 := Done, 1 := CommitMark(pid)]
  {
    s := from.Begins(0, p, a);
    s := s.Checks(1, a, ProposalIdOf(from.h, p));
  }

  /** Then it is opened again with `b`, and the commit marked. */
  lemma MarkedAstray(from: Script, b: NodeId, p: Proposal) returns (s: Script)
    requires from.Valid() && from.Threads() == map[0 := Done, 1 := CommitMark(ProposalIdOf(from.h, p))]
    ensures var pid := ProposalIdOf(from.h, p);
            && s.Valid() && s.h == from.h && s.reach == from.reach && s.at.talk == from.at.talk
            && s.Node() == Marked(BeginProposal(from.h, from.Node(), b, p, 0), pid)
            && s.Threads() == map[0 := Done, 1 := FinalizeTake(pid), 2 := Done]
  {
    s := from.Begins(2, p, b);
    s := s.Marks(1, ProposalIdOf(from.h, p));
  }

  lemma AstrayIsUnfinished(h: Hash, s: NodeState, p: Proposal, acc: Accept)
    requires acc.proposalId == ProposalIdOf(h, p) && s.capacity.CanAccept(CHUNK_LEN, 0)
    ensures Unfinished(Marked(BeginProposal(h, s, acc.fromNode, p, 0), acc.proposalId), acc)
  {
  }

  lemma ProposerGoesAstray(from: Script, a: NodeId, p: Proposal, acc: Accept) returns (s: Script)
    requires from.Valid() && from.Threads() == map[] && from.Node().capacity.CanAccept(CHUNK_LEN, 0)
    requires acc.proposalId == ProposalIdOf(from.h, p)
    ensures s.Valid() && s.h == from.h && s.reach == from.reach
    ensures s.at.talk == from.at.talk.(heard := from.at.talk.heard + {(a, acc.proposalId)})
    ensures Unfinished(s.Node(), acc) && 3 !in s.Threads() && 4 !in s.Threads()
  {
    var mid := CheckedInTime(from, a, p);
    s := MarkedAstray(mid, acc.fromNode, p);
    AstrayIsUnfinished(from.h, mid.Node(), p, acc);
  }

  /** The other peer accepts, its chunk is retrieved, and the swap taken out of the table to be finalized. */
  lemma FinalizedAstray(from: Script, acc: Accept, data: seq<byte>) returns (s: Script, swap: PendingSwap)
    requires from.Valid() && Unfinished(from.Node(), acc) && 3 !in from.Threads() && 4 !in from.Threads()
    requires acc.returnRoot == ZERO32 && |data| == CHUNK_LEN
    ensures s.Valid() && s.h == from.h && s.reach == from.reach
    ensures s.at.talk == Talk(from.at.talk.sent + {acc.proposalId}, from.at.talk.heard)
    ensures Finalizes(s.at.sys, swap) && swap.peer == acc.fromNode && swap.proposalId == acc.proposalId
  {
    s := from.IsAccepted(3, acc);
    s := s.Retrieves(4, acc.chunkId, acc.proposalId, data);
    swap := s.Node().pending[acc.proposalId];
    s := s.Takes(4, acc.proposalId);
    assert s.Threads()[4] == FinalizeStore(swap);
  }

  /** Causality fails where an opening overtakes a commit: `me` offers a swap to `a`, which commits. Between
      the check and the mark of that commit `me` opens the same proposal with `b`, and goes on to finalize
      the swap with `b`, which follows the protocol and has not committed. */
  lemma ReopeningBreaksCausality(h: Hash, me: NodeId, a: NodeId, b: NodeId, p: Proposal, ret: ChunkId, acc: Accept,
                                 data: seq<byte>)
      returns (actions: seq<Action>, swap: PendingSwap)
    requires me != a && me != b && a != b && ret != p.chunkId && |data| == CHUNK_LEN
    requires p.fromNode == me && p.contentRoot == ZERO32 && p.signatureOk && p.lease.expiresAt > 0
    requires acc.fromNode == b && acc.proposalId == ProposalIdOf(h, p) && acc.returnRoot == ZERO32
    ensures var w := Start(me, a, b, ret);
            && AllKeyed(w) && InitialWorld(w)
            && var final := RunAll(h, w, actions);
               && Finalizes(final.nodes[me], swap)
               && swap.peer == b && b in final.nodes && (b, swap.proposalId) !in final.commits
  {
    StartIsInitial(me, a, b, ret);
    var final;
    actions, final, swap := GoesAstray(h, Start(me, a, b, ret), me, a, p, ret, acc, data);
  }

  lemma StartIsInitial(me: NodeId, a: NodeId, b: NodeId, ret: ChunkId)
    requires me != a && me != b && a != b
    ensures var w := Start(me, a, b, ret);
            && AllKeyed(w) && InitialWorld(w) && w.nodes.Keys == {me, a, b}
            && w.nodes[me] == SwapLimits.FreshSystem(me, CHUNK_LEN) && w.nodes[a] == Holder(a, ret)
  {
  }

  /** The scripts of the two nodes make a run of the world in which nobody else commits. */
  lemma GoesAstray(h: Hash, w: World, me: NodeId, a: NodeId, p: Proposal, ret: ChunkId, acc: Accept, data: seq<byte>)
      returns (actions: seq<Action>, final: World, swap: PendingSwap)
    requires AllKeyed(w) && a != me && a in w.nodes && me in w.nodes && w.commits == {}
    requires w.nodes[me] == SwapLimits.FreshSystem(me, CHUNK_LEN) && w.nodes[a] == Holder(a, ret)
    requires p.contentRoot == ZERO32 && p.signatureOk && p.lease.expiresAt > 0 && ret != p.chunkId
    requires acc.proposalId == ProposalIdOf(h, p) && acc.returnRoot == ZERO32 && |data| == CHUNK_LEN
    ensures RunAll(h, w, actions) == final && final.nodes.Keys == w.nodes.Keys
    ensures final.commits == {(a, acc.proposalId), (me, acc.proposalId)}
    ensures Finalizes(final.nodes[me], swap) && swap.peer == acc.fromNode && swap.proposalId == acc.proposalId
  {
    var peer := PeerCommits(h, a, p, ret, data);
    var mine;
    mine, swap := ProposerFinalizes(h, me, a, p, acc, data);
    actions := OnNode(a, peer.labels) + OnNode(me, mine.labels);
    CommitsAstray(w, a, me, peer, mine, acc.proposalId);
    BothPlay(h, w, a, me, peer, mine);
    final := WithNode(WithNode(w, a, peer), me, mine);
  }

  lemma ProposerFinalizes(h: Hash, me: NodeId, a: NodeId, p: Proposal, acc: Accept, data: seq<byte>)
      returns (q: Point, swap: PendingSwap)
    requires acc.proposalId == ProposalIdOf(h, p) && acc.returnRoot == ZERO32 && |data| == CHUNK_LEN
    ensures From(h, SwapLimits.FreshSystem(me, CHUNK_LEN))(q)
    ensures q.talk == Talk({acc.proposalId}, {(a, acc.proposalId)})
    ensures Finalizes(q.sys, swap) && swap.peer == acc.fromNode && swap.proposalId == acc.proposalId
  {
    var s := Curtain(h, SwapLimits.FreshSystem(me, CHUNK_LEN));
    s := ProposerGoesAstray(s, a, p, acc);
    s, swap := FinalizedAstray(s, acc, data);
    q := s.at;
  }

  /** What is sent and taken up by the two fits, and nobody else sends anything. */
  lemma CommitsAstray(w: World, a: NodeId, me: NodeId, p: Point, q: Point, pid: ProposalId)
    requires a != me && a in w.nodes && me in w.nodes && w.commits == {}
    requires p.talk == Talk({pid}, {}) && q.talk == Talk({pid}, {(a, pid)})
    ensures Authentic(w, p.talk.heard) && Authentic(WithNode(w, a, p), q.talk.heard)
    ensures var final := WithNode(WithNode(w, a, p), me, q);
            && final.nodes.Keys == w.nodes.Keys && final.nodes[me] == q.sys
            && final.commits == {(a, pid), (me, pid)}
  {
    assert PledgesOf(a, {pid}) == {(a, pid)} && PledgesOf(me, {pid}) == {(me, pid)};
  }
}
