/** Where the swap promises end: a concrete run in which a reservation loses its owner. */
module SwapLimits {
  import opened Merkle
  import opened Swap
  import opened SwapLocks
  import Sums

  lemma RunCons(h: Hash, sys: System, l: Label, rest: seq<Label>)
    requires Keyed(sys.node)
    ensures Run(h, sys, [l] + rest) == Run(h, Apply(h, sys, l), rest)
  {
    assert ([l] + rest)[1..] == rest;
  }

  function FreshNode(me: NodeId, maxBytes: nat): NodeState {
    NodeState(me, map[], map[], [], [], Capacity(maxBytes, 0, 0, 100), map[], map[], map[])
  }

  function FreshSystem(me: NodeId, maxBytes: nat): System {
    System(FreshNode(me, maxBytes), map[], Past({}, {}, {}, {}, []))
  }

  ghost function OpenThenAccept(h: Hash, p: Proposal, peer: NodeId, a: Accept): seq<Label> {
    [Spawn(0, BeginOpen(p, 0, peer))] + ([Step(0, NoChoice)] +
    ([Spawn(1, AcceptBind(a))] + ([Step(1, NoChoice)] + ([Step(1, NoChoice)] + []))))
  }

  /** The timeout sweep removes and releases the entry before the accept is applied. */
  ghost function SweepThenApply(pid: ProposalId): seq<Label> {
    [Spawn(2, ExpireSweep(2, 1))] + ([Step(2, Order([pid]))] + ([Step(2, NoChoice)] +
    ([Step(2, NoChoice)] + ([Step(1, NoChoice)] + []))))
  }

  lemma {:induction false} RunAppend(h: Hash, sys: System, a: seq<Label>, b: seq<Label>)
    requires Keyed(sys.node)
    ensures Run(h, sys, a + b) == Run(h, Run(h, sys, a), b)
    decreases |a|
  {
    if a == [] {
      assert a + b == b;
    } else {
      RunAppend(h, Apply(h, sys, a[0]), a[1..], b);
      assert (a + b)[1..] == a[1..] + b;
    }
  }

  ghost function HalfWay(h: Hash, me: NodeId, p: Proposal, peer: NodeId, a: Accept): System {
    var pid := ProposalIdOf(h, p);
    System(NodeState(me, map[pid := ProposerSwap(pid, peer, p.chunkId, 0)], map[], [], [],
                     Capacity(CHUNK_LEN, 0, CHUNK_LEN, 100), map[], map[], map[]),
           map[0 := Done, 1 := AcceptApply(a)], Past({pid}, {}, {}, {}, []))
  }

  /** The system with the proposal opened and the threads as given. */
  ghost function OpenedSystem(h: Hash, me: NodeId, p: Proposal, peer: NodeId, threads: map<nat, Thread>): System {
    var pid := ProposalIdOf(h, p);
    System(FreshNode(me, CHUNK_LEN).(pending := map[pid := ProposerSwap(pid, peer, p.chunkId, 0)]), threads,
        Past({pid}, {}, {}, {}, []))
  }

  lemma BeginStep(h: Hash, me: NodeId, p: Proposal, peer: NodeId)
    ensures Apply(h, FreshSystem(me, CHUNK_LEN).(threads := map[0 := BeginOpen(p, 0, peer)]), Step(0, NoChoice))
         == OpenedSystem(h, me, p, peer, map[0 := Done])
  {
  }

  lemma BindStep(h: Hash, me: NodeId, p: Proposal, peer: NodeId, a: Accept)
    requires a.proposalId == ProposalIdOf(h, p) && a.fromNode == peer
    ensures Apply(h, OpenedSystem(h, me, p, peer, map[0 := Done, 1 := AcceptBind(a)]), Step(1, NoChoice))
         == OpenedSystem(h, me, p, peer, map[0 := Done, 1 := AcceptReserve(a)])
  {
  }

  lemma ReserveStep(h: Hash, me: NodeId, p: Proposal, peer: NodeId, a: Accept)
    ensures Apply(h, OpenedSystem(h, me, p, peer, map[0 := Done, 1 := AcceptReserve(a)]), Step(1, NoChoice))
            == HalfWay(h, me, p, peer, a)
  {
  }

  lemma FirstHalf(h: Hash, me: NodeId, p: Proposal, peer: NodeId, a: Accept)
    requires a.proposalId == ProposalIdOf(h, p) && a.fromNode == peer
    ensures Run(h, FreshSystem(me, CHUNK_LEN), OpenThenAccept(h, p, peer, a)) == HalfWay(h, me, p, peer, a)
  {
    var s0 := FreshSystem(me, CHUNK_LEN);
    var s1 := s0.(threads := map[0 := BeginOpen(p, 0, peer)]);
    var s2 := OpenedSystem(h, me, p, peer, map[0 := Done]);
    var s3 := OpenedSystem(h, me, p, peer, map[0 := Done, 1 := AcceptBind(a)]);
    var s4 := OpenedSystem(h, me, p, peer, map[0 := Done, 1 := AcceptReserve(a)]);
    BeginStep(h, me, p, peer);
    BindStep(h, me, p, peer, a);
    ReserveStep(h, me, p, peer, a);
    var l4 := [Step(1, NoChoice)] + [];
    var l3 := [Step(1, NoChoice)] + l4;
    var l2 := [Spawn(1, AcceptBind(a))] + l3;
    var l1 := [Step(0, NoChoice)] + l2;
    RunCons(h, s0, Spawn(0, BeginOpen(p, 0, peer)), l1);
    RunCons(h, s1, Step(0, NoChoice), l2);
    RunCons(h, s2, Spawn(1, AcceptBind(a)), l3);
    RunCons(h, s3, Step(1, NoChoice), l4);
    RunCons(h, s4, Step(1, NoChoice), []);
  }

  /** The node after the sweep, with the sweep's thread at `t` and the accept's at `u`. */
  ghost function Swept(h: Hash, me: NodeId, p: Proposal, t: Thread, u: Thread): System {
    var pid := ProposalIdOf(h, p);
    System(NodeState(me, map[], map[], [], [pid], Capacity(CHUNK_LEN, 0, CHUNK_LEN, 100), map[], map[], map[]),
           map[0 := Done, 1 := u, 2 := t], Past({pid}, {pid}, {}, {}, []))
  }

  lemma SweepStep(h: Hash, me: NodeId, p: Proposal, peer: NodeId, a: Accept)
    ensures var s0 := HalfWay(h, me, p, peer, a);
            var s1 := s0.(threads := s0.threads[2 := ExpireSweep(2, 1)]);
            var entry := ProposerSwap(ProposalIdOf(h, p), peer, p.chunkId, 0);
            Apply(h, s1, Step(2, Order([ProposalIdOf(h, p)]))) == Swept(h, me, p, Releasing([entry]), AcceptApply(a))
  {
    SweepEffect(h, HalfWay(h, me, p, peer, a).node, ProposalIdOf(h, p));
  }

  /** Sweeping a table whose only entry is old takes that entry. */
  lemma SweepEffect(h: Hash, node: NodeState, pid: ProposalId)
    requires pid in node.pending && node.pending == map[pid := node.pending[pid]] && node.pending[pid].startedAt == 0
             && node.aborted == []
    ensures Section(h, node, ExpireSweep(2, 1), Order([pid])) == (Remove([pid]), Releasing([node.pending[pid]]))
    ensures Sums.KeySet([pid]) == {pid} && LogAll([], [pid]) == [pid] && node.pending - {pid} == map[]
  {
    assert LogAll([], [pid]) == LogAll(LogId([], pid), []);
    assert ExpiryOrder(node, 2, 1, [pid]);
    assert Sums.Values(node.pending, [pid]) == [node.pending[pid]];
  }

  lemma ReleaseStep(h: Hash, me: NodeId, p: Proposal, entry: PendingSwap, a: Accept)
    requires entry.reservedBytes == 0
    ensures Apply(h, Swept(h, me, p, Releasing([entry]), AcceptApply(a)), Step(2, NoChoice))
         == Swept(h, me, p, Releasing([]), AcceptApply(a))
  {
    assert [entry][1..] == [];
    var threads := map[0 := Done, 1 := AcceptApply(a), 2 := Releasing([entry])];
    assert threads[2 := Releasing([])] == map[0 := Done, 1 := AcceptApply(a), 2 := Releasing([])];
  }

  lemma SweepEnds(h: Hash, me: NodeId, p: Proposal, a: Accept)
    ensures Apply(h, Swept(h, me, p, Releasing([]), AcceptApply(a)), Step(2, NoChoice))
         == Swept(h, me, p, Done, AcceptApply(a))
  {
    var threads := map[0 := Done, 1 := AcceptApply(a), 2 := Releasing([])];
    assert threads[2 := Done] == map[0 := Done, 1 := AcceptApply(a), 2 := Done];
  }

  lemma ApplyLate(h: Hash, me: NodeId, p: Proposal, a: Accept)
    requires a.proposalId == ProposalIdOf(h, p)
    ensures Apply(h, Swept(h, me, p, Done, AcceptApply(a)), Step(1, NoChoice)) == Swept(h, me, p, Done, Done)
  {
    var threads := map[0 := Done, 1 := AcceptApply(a), 2 := Done];
    assert threads[1 := Done] == map[0 := Done, 1 := Done, 2 := Done];
  }

  lemma SecondHalf(h: Hash, me: NodeId, p: Proposal, peer: NodeId, a: Accept)
    requires a.proposalId == ProposalIdOf(h, p)
    ensures var final := Run(h, HalfWay(h, me, p, peer, a), SweepThenApply(ProposalIdOf(h, p)));
            final.node.pending == map[] && final.node.capacity.reservedBytes == CHUNK_LEN
            && final.threads == map[0 := Done, 1 := Done, 2 := Done]
  {
    var pid := ProposalIdOf(h, p);
    var entry := ProposerSwap(pid, peer, p.chunkId, 0);
    var s0 := HalfWay(h, me, p, peer, a);
    var s1 := s0.(threads := s0.threads[2 := ExpireSweep(2, 1)]);
    var s2 := Swept(h, me, p, Releasing([entry]), AcceptApply(a));
    var s3 := Swept(h, me, p, Releasing([]), AcceptApply(a));
    var s4 := Swept(h, me, p, Done, AcceptApply(a));
    SweepStep(h, me, p, peer, a);
    ReleaseStep(h, me, p, entry, a);
    SweepEnds(h, me, p, a);
    ApplyLate(h, me, p, a);
    var l4 := [Step(1, NoChoice)] + [];
    var l3 := [Step(2, NoChoice)] + l4;
    var l2 := [Step(2, NoChoice)] + l3;
    var l1 := [Step(2, Order([pid]))] + l2;
    RunCons(h, s0, Spawn(2, ExpireSweep(2, 1)), l1);
    RunCons(h, s1, Step(2, Order([pid])), l2);
    RunCons(h, s2, Step(2, NoChoice), l3);
    RunCons(h, s3, Step(2, NoChoice), l4);
    RunCons(h, s4, Step(1, NoChoice), []);
  }

  /** An accept that races the timeout sweep leaves a full chunk reserved with no pending swap and
      no handler to release it, although the proposal was opened once and accepted once. */
  lemma AcceptRacingTimeoutLeaks(h: Hash, me: NodeId, p: Proposal, peer: NodeId, a: Accept)
    requires a.proposalId == ProposalIdOf(h, p) && a.fromNode == peer
    ensures Initial(FreshSystem(me, CHUNK_LEN))
    ensures var final := Run(h, FreshSystem(me, CHUNK_LEN),
            OpenThenAccept(h, p, peer, a) + SweepThenApply(a.proposalId));
            && final.node.pending == map[] && final.node.capacity.reservedBytes == CHUNK_LEN
            && forall tid :: tid in final.threads ==> final.threads[tid].Done?
  {
    FirstHalf(h, me, p, peer, a);
    SecondHalf(h, me, p, peer, a);
    RunAppend(h, FreshSystem(me, CHUNK_LEN), OpenThenAccept(h, p, peer, a), SweepThenApply(a.proposalId));
  }
}
