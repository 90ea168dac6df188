/** Handlers of one node staged one after another: what the node does, remembers and sends when each of them
    runs for a while without interference. */
module SwapStaging {
  import opened Bytes
  import opened Merkle
  import opened Swap
  import opened SwapLocks
  import opened SwapRuns
  import opened SwapLockNetwork
  import SwapLimits

  /** A handler between two sections, with the node as it then is. */
  datatype Frame = Frame(node: NodeState, thread: Thread)

  ghost predicate StepTo(h: Hash, c: Choice, a: Frame, b: Frame) {
    && Keyed(a.node)
    && Next(h, a.node, a.thread, c) == b.node && Section(h, a.node, a.thread, c).1 == b.thread
  }

  /** The commits that a node has sent and those it has taken up. */
  datatype Talk = Talk(sent: set<ProposalId>, heard: set<Pledge>)

  function SentBy(f: Frame): set<ProposalId> {
    if f.thread.RetrieveCommit? && !(f.thread.pid in f.node.pending && f.node.pending[f.thread.pid].sentCommit)
    then {f.thread.pid} else {}
  }

  function Says(sys: System, l: Label): set<ProposalId> {
    if l.Step? && l.tid in sys.threads then SentBy(Frame(sys.node, sys.threads[l.tid])) else {}
  }

  function Hears(l: Label): set<Pledge> {
    if l.Spawn? && l.thread.CommitBind? then {(l.thread.sender, l.thread.pid)} else {}
  }

  /** A point of a run: the labels so far, the system they led to, and what was said. */
  datatype Point = Point(labels: seq<Label>, sys: System, talk: Talk)

  ghost function After(h: Hash, p: Point, l: Label): Point
    requires Keyed(p.sys.node)
  {
    Point(p.labels + [l], Apply(h, p.sys, l), Talk(p.talk.sent + Says(p.sys, l), p.talk.heard + Hears(l)))
  }

  /** The points of the runs in question; a set of points that is closed under steps. */
  type Reach = Point -> bool

  ghost predicate Closed(h: Hash, r: Reach) {
    forall p, l {:trigger After(h, p, l)} :: r(p) && Keyed(p.sys.node) ==> r(After(h, p, l))
  }

  datatype Script = Script(h: Hash, reach: Reach, at: Point) {
    ghost predicate Valid() {
      Closed(h, reach) && reach(at) && Keyed(at.sys.node)
    }

    function Node(): NodeState {
      at.sys.node
    }

    function Threads(): map<nat, Thread> {
      at.sys.threads
    }

    /** Since `from` only handler `tid` has run; it has come to `f`, and `talk` is what was said in all. */
    ghost predicate Ran(from: Script, tid: nat, f: Frame, talk: Talk) {
      && Valid() && h == from.h && reach == from.reach
      && Node() == f.node && Threads() == from.Threads()[tid := f.thread] && at.talk == talk
    }

    lemma Starting(tid: nat, t: Thread) returns (next: Script)
      requires Valid() && tid !in Threads() && Starts(t)
      ensures next.Ran(this, tid, Frame(Node(), t), Talk(at.talk.sent, at.talk.heard + Hears(Spawn(tid, t))))
    {
      next := this.(at := After(h, at, Spawn(tid, t)));
      assert at.talk.sent + {} == at.talk.sent;
    }

    lemma Stepping(from: Script, tid: nat, c: Choice, f: Frame, talk: Talk, f': Frame) returns (next: Script)
      requires Ran(from, tid, f, talk) && StepTo(h, c, f, f')
      ensures next.Ran(from, tid, f', talk.(sent := talk.sent + SentBy(f)))
    {
      var ts: map<nat, Thread> := from.Threads();
      next := this.(at := After(h, at, Step(tid, c)));
      assert ts[tid := f.thread][tid := f'.thread] == ts[tid := f'.thread];
      assert talk.heard + {} == talk.heard;
    }

    /** A section that sends no commit. */
    lemma Quietly(from: Script, tid: nat, c: Choice, f: Frame, talk: Talk, f': Frame) returns (next: Script)
      requires Ran(from, tid, f, talk) && StepTo(h, c, f, f') && !f.thread.RetrieveCommit?
      ensures next.Ran(from, tid, f', talk)
    {
      next := Stepping(from, tid, c, f, talk, f');
      assert talk.sent + {} == talk.sent;
    }

    /** A handler that stands between two sections. */
    lemma Resumes(tid: nat)
      requires Valid() && tid in Threads()
      ensures Ran(this, tid, Frame(Node(), Threads()[tid]), at.talk)
    {
      var ts: map<nat, Thread> := Threads();
      assert ts[tid := ts[tid]] == ts;
    }

    // -------------------------------------------------------------- a retrieval

    lemma Finding(from: Script, tid: nat, f: Frame, talk: Talk, pid: ProposalId) returns (next: Script)
      requires Ran(from, tid, f, talk) && f.thread.RetrieveFind? && |f.thread.data| == CHUNK_LEN
      requires Waiting(f.node, f.thread.chunk, pid) && f.node.pending[pid].contentRoot == ZERO32
      ensures var t := f.thread;
              var t' := RetrieveBuffer(pid, t.chunk, ZERO32, f.node.pending[pid].merkleProof, t.data);
              next.Ran(from, tid, Frame(f.node, t'), talk)
    {
      var t' := RetrieveBuffer(pid, f.thread.chunk, ZERO32, f.node.pending[pid].merkleProof, f.thread.data);
      next := Quietly(from, tid, Choice.Swap(Some(pid)), f, talk, Frame(f.node, t'));
    }

    lemma Buffering(from: Script, tid: nat, f: Frame, talk: Talk) returns (next: Script)
      requires Ran(from, tid, f, talk) && f.thread.RetrieveBuffer? && f.thread.pid in f.node.pending
      ensures var pid, data := f.thread.pid, f.thread.data;
              next.Ran(from, tid, Frame(DataIn(f.node, pid, data), RetrieveCommit(pid)), talk)
    {
      var f' := Frame(DataIn(f.node, f.thread.pid, f.thread.data), RetrieveCommit(f.thread.pid));
      next := Quietly(from, tid, NoChoice, f, talk, f');
    }

    lemma Committing(from: Script, tid: nat, f: Frame, talk: Talk) returns (next: Script)
      requires Ran(from, tid, f, talk) && f.thread.RetrieveCommit? && f.thread.pid in f.node.pending
      requires !f.node.pending[f.thread.pid].sentCommit
      ensures var pid := f.thread.pid;
              var s' := f.node.(pending := f.node.pending[pid := f.node.pending[pid].(sentCommit := true)]);
              next.Ran(from, tid, Frame(s', FinalizeTake(pid)), talk.(sent := talk.sent + {pid}))
    {
      var pid := f.thread.pid;
      var s' := f.node.(pending := f.node.pending[pid := f.node.pending[pid].(sentCommit := true)]);
      next := Stepping(from, tid, NoChoice, f, talk, Frame(s', FinalizeTake(pid)));
    }

    /** The chunk is found, buffered and our commit sent. */
    lemma Retrieves(tid: nat, chunk: ChunkId, pid: ProposalId, data: seq<byte>) returns (next: Script)
      requires Valid() && tid !in Threads() && Waiting(Node(), chunk, pid) && |data| == CHUNK_LEN
      requires Node().pending[pid].contentRoot == ZERO32 && !Node().pending[pid].sentCommit
      ensures next.Ran(this, tid, Frame(Buffered(Node(), pid, data), FinalizeTake(pid)),
                       at.talk.(sent := at.talk.sent + {pid}))
    {
      var s, talk := Node(), at.talk;
      var t := RetrieveBuffer(pid, chunk, ZERO32, s.pending[pid].merkleProof, data);
      next := Starting(tid, RetrieveFind(chunk, data));
      assert talk.heard + {} == talk.heard;
      next := next.Finding(this, tid, Frame(s, RetrieveFind(chunk, data)), talk, pid);
      next := next.Buffering(this, tid, Frame(s, t), talk);
      next := next.Committing(this, tid, Frame(DataIn(s, pid, data), RetrieveCommit(pid)), talk);
      DataThenSent(s, pid, data);
    }

    // -------------------------------------------------------------- a proposal accepted

    lemma Snapping(tid: nat, p: Proposal) returns (next: Script)
      requires Valid() && tid !in Threads()
      ensures next.Ran(this, tid, Frame(Snapped(Node()), ProposalCount(p, 0)), at.talk)
    {
      var s, talk, held := Node(), at.talk, HeldBytes(Node().chunks);
      next := Starting(tid, ProposalRead(p, 0));
      assert talk.heard + {} == talk.heard;
      next := next.Quietly(this, tid, NoChoice, Frame(s, ProposalRead(p, 0)), talk,
          Frame(s, ProposalReconcile(p, 0, held)));
      next := next.Quietly(this, tid, NoChoice, Frame(s, ProposalReconcile(p, 0, held)), talk,
          Frame(Snapped(s), ProposalCount(p, 0)));
    }

    lemma Deciding(from: Script, tid: nat, p: Proposal, s: NodeState, talk: Talk, ret: ChunkId) returns (next: Script)
      requires Ran(from, tid, Frame(s, ProposalCount(p, 0)), talk)
      requires Acceptable(s.capacity, p, PeerCount(s, p.fromNode), 0) && ReturnPick(s, p, Some(ret))
      ensures next.Ran(from, tid, Frame(s, ProposalBound(p, 0, PeerCount(s, p.fromNode), ret)), talk)
    {
      var c, k := Chunk(Some(ret)), PeerCount(s, p.fromNode);
      next := Quietly(from, tid, c, Frame(s, ProposalCount(p, 0)), talk, Frame(s, ProposalDecide(p, 0, k)));
      next := next.Quietly(from, tid, c, Frame(s, ProposalDecide(p, 0, k)), talk, Frame(s, ProposalFind(p, 0, k)));
      next := next.Quietly(from, tid, c, Frame(s, ProposalFind(p, 0, k)), talk, Frame(s, ProposalBound(p, 0, k, ret)));
    }

    lemma Admitting(from: Script, tid: nat, f: Frame, talk: Talk) returns (next: Script)
      requires Ran(from, tid, f, talk) && f.thread.ProposalBound? && |f.node.pending| < MAX_PENDING_SWAPS
      requires f.thread.now == 0 && f.node.capacity.CanAccept(CHUNK_LEN, f.thread.peerChunks)
      ensures var pid := ProposalIdOf(h, f.thread.p);
              var s' := StartPending(Granted(f.node), AccepterSwap(pid, f.thread.p, f.thread.ret, 0));
              next.Ran(from, tid, Frame(s', Done), talk)
    {
      var p, k, ret := f.thread.p, f.thread.peerChunks, f.thread.ret;
      next := Quietly(from, tid, NoChoice, f, talk, Frame(f.node, ProposalReserve(p, 0, k, ret)));
      next := next.Quietly(from, tid, NoChoice, Frame(f.node, ProposalReserve(p, 0, k, ret)), talk,
          Frame(Granted(f.node), ProposalOpen(p, 0, ret)));
      next := next.Quietly(from, tid, NoChoice, Frame(Granted(f.node), ProposalOpen(p, 0, ret)), talk,
          Frame(StartPending(Granted(f.node), AccepterSwap(ProposalIdOf(h, p), p, ret, 0)), Done));
    }

    lemma Accepts(tid: nat, p: Proposal, ret: ChunkId) returns (next: Script)
      requires Valid() && tid !in Threads() && ReturnPick(Node(), p, Some(ret)) && |Node().pending| < MAX_PENDING_SWAPS
      requires Acceptable(Snapped(Node()).capacity, p, PeerCount(Node(), p.fromNode), 0)
      ensures var s' := StartPending(Granted(Snapped(Node())), AccepterSwap(ProposalIdOf(h, p), p, ret, 0));
              next.Ran(this, tid, Frame(s', Done), at.talk)
    {
      var s := Snapped(Node());
      next := Snapping(tid, p);
      next := next.Deciding(this, tid, p, s, at.talk, ret);
      next := next.Admitting(this, tid, Frame(s, ProposalBound(p, 0, PeerCount(s, p.fromNode), ret)), at.talk);
    }

    // -------------------------------------------------------------- the proposer's handlers

    lemma Begins(tid: nat, p: Proposal, peer: NodeId) returns (next: Script)
      requires Valid() && tid !in Threads()
      ensures next.Ran(this, tid, Frame(BeginProposal(h, Node(), peer, p, 0), Done), at.talk)
    {
      next := Starting(tid, BeginOpen(p, 0, peer));
      assert at.talk.heard + {} == at.talk.heard;
      next := next.Quietly(this, tid, NoChoice, Frame(Node(), BeginOpen(p, 0, peer)), at.talk,
          Frame(BeginProposal(h, Node(), peer, p, 0), Done));
    }

    /** A commit is checked. */
    lemma Checks(tid: nat, sender: NodeId, pid: ProposalId) returns (next: Script)
      requires Valid() && tid !in Threads() && IsPendingWith(Node(), pid, sender)
      ensures next.Ran(this, tid, Frame(Node(), CommitMark(pid)),
                       at.talk.(heard := at.talk.heard + {(sender, pid)}))
    {
      next := Starting(tid, CommitBind(sender, pid));
      next := next.Quietly(this, tid, NoChoice, Frame(Node(), CommitBind(sender, pid)), next.at.talk,
          Frame(Node(), CommitMark(pid)));
    }

    /** And marked. */
    lemma Marks(tid: nat, pid: ProposalId) returns (next: Script)
      requires Valid() && tid in Threads() && Threads()[tid] == CommitMark(pid) && pid in Node().pending
      ensures next.Ran(this, tid, Frame(Marked(Node(), pid), FinalizeTake(pid)), at.talk)
    {
      Resumes(tid);
      next := Quietly(this, tid, NoChoice, Frame(Node(), CommitMark(pid)), at.talk,
          Frame(Marked(Node(), pid), FinalizeTake(pid)));
    }

    lemma Reserving(tid: nat, a: Accept) returns (next: Script)
      requires Valid() && tid !in Threads() && IsPendingWith(Node(), a.proposalId, a.fromNode)
      requires Node().capacity.CanAccept(CHUNK_LEN, 0)
      ensures next.Ran(this, tid, Frame(Granted(Node()), AcceptApply(a)), at.talk)
    {
      var s, talk := Node(), at.talk;
      next := Starting(tid, AcceptBind(a));
      assert talk.heard + {} == talk.heard;
      next := next.Quietly(this, tid, NoChoice, Frame(s, AcceptBind(a)), talk, Frame(s, AcceptReserve(a)));
      next := next.Quietly(this, tid, NoChoice, Frame(s, AcceptReserve(a)), talk, Frame(Granted(s), AcceptApply(a)));
    }

    /** An accept names the return chunk. */
    lemma IsAccepted(tid: nat, a: Accept) returns (next: Script)
      requires Valid() && tid !in Threads() && IsPendingWith(Node(), a.proposalId, a.fromNode)
      requires Node().capacity.CanAccept(CHUNK_LEN, 0)
      ensures next.Ran(this, tid, Frame(Named(Granted(Node()), a), Done), at.talk)
    {
      var s := Granted(Node());
      next := Reserving(tid, a);
      next := next.Quietly(this, tid, NoChoice, Frame(s, AcceptApply(a)), at.talk, Frame(Named(s, a), Done));
    }

    /** A complete swap is taken out of the table to be finalized. */
    lemma Takes(tid: nat, pid: ProposalId) returns (next: Script)
      requires Valid() && tid in Threads() && Threads()[tid] == FinalizeTake(pid)
      requires pid in Node().pending && Node().pending[pid].Ready()
      ensures next.Ran(this, tid, Frame(CompleteSwap(Node(), pid), FinalizeStore(Node().pending[pid])), at.talk)
    {
      Resumes(tid);
      next := Quietly(this, tid, NoChoice, Frame(Node(), FinalizeTake(pid)), at.talk,
          Frame(CompleteSwap(Node(), pid), FinalizeStore(Node().pending[pid])));
    }
  }

  // ---------------------------------------------------------------- states on the way

  ghost function Snapped(s: NodeState): NodeState {
    s.(capacity := s.capacity.Reconcile(HeldBytes(s.chunks)))
  }

  function Granted(s: NodeState): NodeState {
    s.(capacity := s.capacity.Reserve(CHUNK_LEN))
  }

  function Marked(s: NodeState, pid: ProposalId): NodeState
    requires pid in s.pending
  {
    s.(pending := s.pending[pid := s.pending[pid].(receivedCommit := true)])
  }

  function Named(s: NodeState, a: Accept): NodeState
    requires a.proposalId in s.pending
  {
    s.(pending := s.pending[a.proposalId := Accepted(s.pending[a.proposalId], a)])
  }

  // ---------------------------------------------------------------- runs of the node and of the world

  ghost function PointAfter(h: Hash, start: System, labels: seq<Label>): (p: Point)
    requires Keyed(start.node)
    ensures Keyed(p.sys.node) && p.labels == labels
  {
    if labels == [] then Point([], start, Talk({}, {}))
    else After(h, PointAfter(h, start, labels[..|labels| - 1]), labels[|labels| - 1])
  }

  ghost function From(h: Hash, start: System): Reach {
    (p: Point) => Keyed(start.node) && p == PointAfter(h, start, p.labels)
  }

  /** A script that begins here and stays within the node's own runs. */
  lemma Curtain(h: Hash, start: System) returns (s: Script)
    requires Keyed(start.node)
    ensures s.Valid() && s == Script(h, From(h, start), Point([], start, Talk({}, {})))
  {
    s := Script(h, From(h, start), Point([], start, Talk({}, {})));
    forall p: Point, l | From(h, start)(p) && Keyed(p.sys.node) ensures From(h, start)(After(h, p, l)) {
      assert (p.labels + [l])[..|p.labels|] == p.labels;
    }
  }

  lemma {:induction false} PointIsRun(h: Hash, start: System, labels: seq<Label>)
    requires Keyed(start.node)
    ensures PointAfter(h, start, labels).sys == Run(h, start, labels)
  {
    if labels != [] {
      var n := |labels| - 1;
      PointIsRun(h, start, labels[..n]);
      SwapLimits.RunAppend(h, start, labels[..n], [labels[n]]);
      SwapLimits.RunCons(h, Run(h, start, labels[..n]), labels[n], []);
      assert labels[..n] + [labels[n]] == labels && [labels[n]] + [] == [labels[n]];
    }
  }

  lemma RunsOn(h: Hash, start: System, p: Point, more: seq<Label>)
    requires Keyed(start.node) && From(h, start)(p)
    ensures Keyed(p.sys.node) && Run(h, start, p.labels + more) == Run(h, p.sys, more)
  {
    PointIsRun(h, start, p.labels);
    SwapLimits.RunAppend(h, start, p.labels, more);
  }

  function OnNode(n: NodeId, labels: seq<Label>): (actions: seq<Action>)
    ensures |actions| == |labels|
  {
    seq(|labels|, i requires 0 <= i < |labels| => Action(n, labels[i]))
  }

  function PledgesOf(n: NodeId, sent: set<ProposalId>): set<Pledge> {
    set pid | pid in sent :: (n, pid)
  }

  lemma {:induction false} RunAllAppend(h: Hash, w: World, a: seq<Action>, b: seq<Action>)
    requires AllKeyed(w)
    ensures RunAll(h, w, a + b) == RunAll(h, RunAll(h, w, a), b)
    decreases |a|
  {
    if a == [] {
      assert a + b == b;
    } else {
      RunAllAppend(h, Act(h, w, a[0]), a[1..], b);
      assert (a + b)[1..] == a[1..] + b;
    }
  }

  /** The world after one of its nodes has come to a point of its own run. */
  ghost function WithNode(w: World, n: NodeId, p: Point): World {
    World(w.nodes[n := p.sys], w.commits + PledgesOf(n, p.talk.sent))
  }

  ghost predicate Authentic(w: World, heard: set<Pledge>) {
    forall n, pid :: (n, pid) in heard ==> Pledged(w, n, pid)
  }

  lemma OneInWorld(h: Hash, w: World, n: NodeId, p: Point, l: Label)
    requires AllKeyed(w) && n in w.nodes && Keyed(p.sys.node) && Authentic(w, Hears(l))
    ensures AllKeyed(WithNode(w, n, p)) && Act(h, WithNode(w, n, p), Action(n, l)) == WithNode(w, n, After(h, p, l))
  {
    var now, next := WithNode(w, n, p), WithNode(w, n, After(h, p, l));
    assert now.nodes.Keys == w.nodes.Keys;
    assert now.nodes[n := Apply(h, p.sys, l)] == next.nodes;
    assert PledgesOf(n, p.talk.sent + Says(p.sys, l)) == PledgesOf(n, p.talk.sent) + PledgesOf(n, Says(p.sys, l));
    assert Allowed(now, Action(n, l));
  }

  /** A node's own run is a run of the world, as long as the commits it takes up were sent. */
  lemma {:induction false} PlaysInWorld(h: Hash, w: World, n: NodeId, labels: seq<Label>)
    requires AllKeyed(w) && n in w.nodes
    requires Authentic(w, PointAfter(h, w.nodes[n], labels).talk.heard)
    ensures RunAll(h, w, OnNode(n, labels)) == WithNode(w, n, PointAfter(h, w.nodes[n], labels))
  {
    if labels == [] {
      assert w.nodes[n := w.nodes[n]] == w.nodes && w.commits + PledgesOf(n, {}) == w.commits;
    } else {
      var k := |labels| - 1;
      PlaysInWorld(h, w, n, labels[..k]);
      OneInWorld(h, w, n, PointAfter(h, w.nodes[n], labels[..k]), labels[k]);
      LastAction(h, w, n, labels);
    }
  }

  lemma LastAction(h: Hash, w: World, n: NodeId, labels: seq<Label>)
    requires AllKeyed(w) && labels != []
    ensures var k := |labels| - 1;
            RunAll(h, w, OnNode(n, labels)) == Act(h, RunAll(h, w, OnNode(n, labels[..k])), Action(n, labels[k]))
  {
    var k := |labels| - 1;
    var a := Action(n, labels[k]);
    assert OnNode(n, labels) == OnNode(n, labels[..k]) + [a];
    RunAllAppend(h, w, OnNode(n, labels[..k]), [a]);
    OneAction(h, RunAll(h, w, OnNode(n, labels[..k])), a);
  }

  lemma PointPlays(h: Hash, w: World, n: NodeId, p: Point)
    requires AllKeyed(w) && n in w.nodes && From(h, w.nodes[n])(p) && Authentic(w, p.talk.heard)
    ensures AllKeyed(WithNode(w, n, p)) && RunAll(h, w, OnNode(n, p.labels)) == WithNode(w, n, p)
  {
    PlaysInWorld(h, w, n, p.labels);
  }

  /** One node, then another, which takes up only what the first has sent. */
  lemma BothPlay(h: Hash, w: World, a: NodeId, b: NodeId, p: Point, q: Point)
    requires AllKeyed(w) && a != b && a in w.nodes && b in w.nodes
    requires From(h, w.nodes[a])(p) && From(h, w.nodes[b])(q)
    requires Authentic(w, p.talk.heard) && Authentic(WithNode(w, a, p), q.talk.heard)
    ensures RunAll(h, w, OnNode(a, p.labels) + OnNode(b, q.labels)) == WithNode(WithNode(w, a, p), b, q)
  {
    PointPlays(h, w, a, p);
    PointPlays(h, WithNode(w, a, p), b, q);
    RunAllAppend(h, w, OnNode(a, p.labels), OnNode(b, q.labels));
  }

  lemma OneAction(h: Hash, w: World, a: Action)
    requires AllKeyed(w)
    ensures RunAll(h, w, [a]) == Act(h, w, a)
  {
    assert [a][1..] == [];
    assert RunAll(h, Act(h, w, a), []) == Act(h, w, a);
  }
}
