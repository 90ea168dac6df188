/** The byte counter at lock granularity: by how much it departs from the bytes held when the sections of
    swap handlers and the node's other tasks interleave. */
module StorageLocks {
  import opened Bytes
  import opened Merkle
  import opened Swap
  import opened SwapLocks
  import opened SwapStaging
  import SwapLimits
  import SwapSafety
  import Sums

  /** Bytes stored already that a handler has yet to count. */
  function Due(t: Thread): nat {
    if t.FinalizeRelease? && t.isNew then t.swap.reservedBytes else 0
  }

  ghost function DueBytes(sys: System): nat {
    Sums.Sum(sys.threads, t => Due(t))
  }

  /** How far the counter, with what is still due, is above what is held. */
  ghost function Excess(sys: System): int {
    sys.node.capacity.currentBytes + DueBytes(sys) - HeldBytes(sys.node.chunks)
  }

  /** What one section adds to that: a snap puts in what was read earlier in place of the counter, and a
      new chunk is held with its length but will be counted with its reservation. */
  function SectionDrift(s: NodeState, t: Thread): int {
    match t
    case ProposalReconcile(_, _, actual) => actual - s.capacity.currentBytes
    case FinalizeStore(swap) => if swap.theirChunk in s.chunks then 0 else swap.reservedBytes - |swap.theirData|
    case _ => 0
  }

  ghost function Drift(sys: System, l: Label): int {
    match l
    case Spawn(_, _) => 0
    case Step(tid, _) => if tid in sys.threads then SectionDrift(sys.node, sys.threads[tid]) else 0
    case Elsewhere(bytes, chunks, _) =>
      (bytes - sys.node.capacity.currentBytes) - (HeldBytes(chunks) - HeldBytes(sys.node.chunks))
  }

  ghost function TotalDrift(h: Hash, sys: System, labels: seq<Label>): int
    requires Keyed(sys.node)
    decreases |labels|
  {
    if labels == [] then 0 else Drift(sys, labels[0]) + TotalDrift(h, Apply(h, sys, labels[0]), labels[1..])
  }

  /** The sections that touch the counter or the holder. */
  predicate Counts(t: Thread) {
    || t.ProposalReconcile? || t.ProposalReserve? || t.AcceptReserve? || t.Releasing?
    || t.FinalizeStore? || t.FinalizeRelease?
  }

  ghost predicate Balances(h: Hash, s: NodeState, t: Thread, c: Choice)
    requires Applicable(s, Section(h, s, t, c).0)
  {
    var (e, t') := Section(h, s, t, c);
    var s' := Perform(s, e);
    s'.capacity.currentBytes + Due(t') - HeldBytes(s'.chunks)
      == s.capacity.currentBytes + Due(t) - HeldBytes(s.chunks) + SectionDrift(s, t)
  }

  lemma StoringBalances(h: Hash, s: NodeState, t: Thread, c: Choice)
    requires t.FinalizeStore? && Applicable(s, Section(h, s, t, c).0)
    ensures Balances(h, s, t, c)
  {
    Sums.SumUpdate(s.chunks, LengthOf, t.swap.theirChunk, t.swap.theirData);
  }

  lemma CountingBalances(h: Hash, s: NodeState, t: Thread, c: Choice)
    requires Counts(t) && Applicable(s, Section(h, s, t, c).0)
    ensures Balances(h, s, t, c)
  {
    if t.FinalizeStore? {
      StoringBalances(h, s, t, c);
    }
  }

  lemma OpeningBalances(h: Hash, s: NodeState, t: Thread, c: Choice)
    requires !Counts(t) && Opening(t) && Applicable(s, Section(h, s, t, c).0)
    ensures Balances(h, s, t, c)
  {
  }

  lemma ClosingBalances(h: Hash, s: NodeState, t: Thread, c: Choice)
    requires !Counts(t) && !Opening(t) && Applicable(s, Section(h, s, t, c).0)
    ensures Balances(h, s, t, c)
  {
  }

  lemma SectionBalances(h: Hash, s: NodeState, t: Thread, c: Choice)
    requires Applicable(s, Section(h, s, t, c).0)
    ensures Balances(h, s, t, c)
  {
    if Counts(t) {
      CountingBalances(h, s, t, c);
    } else if Opening(t) {
      OpeningBalances(h, s, t, c);
    } else {
      ClosingBalances(h, s, t, c);
    }
  }

  lemma StepDrifts(h: Hash, sys: System, l: Label)
    requires Keyed(sys.node)
    ensures Excess(Apply(h, sys, l)) == Excess(sys) + Drift(sys, l)
  {
    var w := t => Due(t);
    match l {
      case Spawn(tid, t) =>
        if tid !in sys.threads { Sums.SumUpdate(sys.threads, w, tid, t); }
      case Step(tid, c) =>
        if tid in sys.threads {
          var t := sys.threads[tid];
          SectionApplicable(h, sys.node, t, c);
          Sums.SumRemove(sys.threads, w, tid);
          Sums.SumUpdate(sys.threads, w, tid, Section(h, sys.node, t, c).1);
          SectionBalances(h, sys.node, t, c);
        }
      case Elsewhere(bytes, chunks, leases) =>
    }
  }

  /** In every interleaving the counter with what is still due is above the bytes held by exactly what the
      steps have drifted; so once nothing is due, counter and holder agree if and only if that is nothing. */
  lemma {:induction false} CounterConservation(h: Hash, sys: System, labels: seq<Label>)
    requires Keyed(sys.node)
    ensures var final := Run(h, sys, labels);
            && Excess(final) == Excess(sys) + TotalDrift(h, sys, labels)
            && (DueBytes(final) == 0 ==>
                  (final.node.capacity.currentBytes == HeldBytes(final.node.chunks)
                   <==> Excess(sys) + TotalDrift(h, sys, labels) == 0))
    decreases |labels|
  {
    if labels != [] {
      StepDrifts(h, sys, labels[0]);
      CounterConservation(h, Apply(h, sys, labels[0]), labels[1..]);
    }
  }

  /** In a disciplined run no section of a swap handler drifts but the snap. */
  lemma OnlySnapsDrift(h: Hash, start: System, labels: seq<Label>, tid: nat, c: Choice)
    requires Initial(start) && SwapSafety.DisciplinedRun(h, start, labels)
    requires tid in Run(h, start, labels).threads && Drift(Run(h, start, labels), Step(tid, c)) != 0
    ensures Run(h, start, labels).threads[tid].ProposalReconcile?
  {
    var sys := Run(h, start, labels);
    SwapSafety.RunKeepsSafe(h, start, labels);
    assert SwapSafety.ThreadOk(h, sys.node, sys.past, sys.threads[tid]);
  }

  /** The snap of a balanced node leaves it balanced if and only if what was read earlier and what is still
      due make up what is held now; with a reading that is still current, if and only if nothing is due. */
  lemma SnapKeepsIff(h: Hash, sys: System, tid: nat, c: Choice)
    requires Keyed(sys.node) && Excess(sys) == 0 && tid in sys.threads && sys.threads[tid].ProposalReconcile?
    ensures var actual, held := sys.threads[tid].actual, HeldBytes(sys.node.chunks);
            && (Excess(Apply(h, sys, Step(tid, c))) == 0 <==> actual + DueBytes(sys) == held)
            && (actual == held ==> (Excess(Apply(h, sys, Step(tid, c))) == 0 <==> DueBytes(sys) == 0))
  {
    StepDrifts(h, sys, Step(tid, c));
  }

  /** A snap between the store and the release of a finished swap counts its chunk twice: what starts
      balanced, with nothing due, ends with the chunk's reservation too much. */
  lemma SnapCountsTwice(h: Hash, sys: System, i: nat, j: nat, p: Proposal, now: nat)
    requires Keyed(sys.node) && i != j && i in sys.threads && j !in sys.threads && sys.threads[i].FinalizeStore?
    requires var swap := sys.threads[i].swap;
             swap.theirChunk !in sys.node.chunks && swap.reservedBytes == |swap.theirData|
    requires Excess(sys) == 0 == DueBytes(sys)
    ensures var snap := [Spawn(j, ProposalRead(p, now))] + ([Step(j, NoChoice)] + ([Step(j, NoChoice)] + []));
            Excess(Run(h, sys, [Step(i, NoChoice)] + snap)) == sys.threads[i].swap.reservedBytes
  {
    var swap := sys.threads[i].swap;
    var l1, l2, l3 := Step(i, NoChoice), Spawn(j, ProposalRead(p, now)), Step(j, NoChoice);
    var s1 := Apply(h, sys, l1);
    StoreStep(h, sys, i);
    var s2 := Apply(h, s1, l2);
    StepDrifts(h, s1, l2);
    var s3 := Apply(h, s2, l3);
    StepDrifts(h, s2, l3);
    assert s3.threads[j] == ProposalReconcile(p, now, HeldBytes(s1.node.chunks)) && s3.node == s1.node;
    StepDrifts(h, s3, l3);
    SwapLimits.RunCons(h, sys, l1, [l2] + ([l3] + ([l3] + [])));
    SwapLimits.RunCons(h, s1, l2, [l3] + ([l3] + []));
    SwapLimits.RunCons(h, s2, l3, [l3] + []);
    SwapLimits.RunCons(h, s3, l3, []);
  }

  /** Storing makes the reservation due and leaves the counter alone. */
  lemma StoreStep(h: Hash, sys: System, i: nat)
    requires Keyed(sys.node) && i in sys.threads && sys.threads[i].FinalizeStore?
    requires var swap := sys.threads[i].swap;
             swap.theirChunk !in sys.node.chunks && swap.reservedBytes == |swap.theirData|
    requires Excess(sys) == 0 == DueBytes(sys)
    ensures var next, swap := Apply(h, sys, Step(i, NoChoice)), sys.threads[i].swap;
            && Excess(next) == 0 && next.threads == sys.threads[i := FinalizeRelease(swap, true)]
            && next.node.capacity == sys.node.capacity
            && HeldBytes(next.node.chunks) == sys.node.capacity.currentBytes + swap.reservedBytes
  {
    StepDrifts(h, sys, Step(i, NoChoice));
    Sums.SumUpdate(sys.node.chunks, LengthOf, sys.threads[i].swap.theirChunk, sys.threads[i].swap.theirData);
  }

  // ---------------------------------------------------------------- from the start

  /** A swap is opened and the peer's commit marked. */
  lemma Commits(from: Script, p: Proposal, peer: NodeId) returns (s: Script)
    requires from.Valid() && from.Threads() == map[]
    ensures var pid := ProposalIdOf(from.h, p);
            && s.Valid() && s.h == from.h && s.reach == from.reach
            && s.Node() == Marked(BeginProposal(from.h, from.Node(), peer, p, 0), pid)
            && s.Threads() == map[0 := Done, 1 := FinalizeTake(pid)]
  {
    s := from.Begins(0, p, peer);
    s := s.Checks(1, peer, ProposalIdOf(from.h, p));
    s := s.Marks(1, ProposalIdOf(from.h, p));
  }

  /** The peer's accept names the return chunk, the chunk is retrieved, and the swap is about to be stored. */
  lemma ComesToStore(from: Script, a: Accept, data: seq<byte>) returns (s: Script)
    requires from.Valid() && IsPendingWith(from.Node(), a.proposalId, a.fromNode) && a.returnRoot == ZERO32
    requires 2 !in from.Threads() && 3 !in from.Threads() && |data| == CHUNK_LEN
    requires from.Node().capacity.CanAccept(CHUNK_LEN, 0)
    requires var swap := from.Node().pending[a.proposalId];
             swap.contentRoot == ZERO32 && swap.receivedCommit && !swap.receivedChunk && !swap.sentCommit
    ensures s.Valid() && s.h == from.h && s.reach == from.reach && s.Node().chunks == from.Node().chunks
    ensures s.Node().capacity.currentBytes == from.Node().capacity.currentBytes
    ensures s.Threads().Keys == from.Threads().Keys + {2, 3}
    ensures s.Threads()[2] == Done && forall tid :: tid in from.Threads() ==> s.Threads()[tid] == from.Threads()[tid]
    ensures var t := s.Threads()[3];
            t.FinalizeStore? && t.swap.reservedBytes == |t.swap.theirData| == CHUNK_LEN
  {
    s := from.IsAccepted(2, a);
    s := s.Retrieves(3, a.chunkId, a.proposalId, data);
    s := s.Takes(3, a.proposalId);
  }

  lemma NothingDue(sys: System)
    requires forall tid :: tid in sys.threads ==> Due(sys.threads[tid]) == 0
    ensures DueBytes(sys) == 0
  {
    Sums.SumOfNothing(sys.threads, t => Due(t));
  }

  /** A node without chunks comes to store a swap, balanced and with nothing due. */
  lemma ReadyToStore(from: Script, p: Proposal, a: Accept, data: seq<byte>) returns (s: Script)
    requires from.Valid() && from.Threads() == map[] && from.Node().chunks == map[]
    requires from.Node().capacity.currentBytes == 0 && from.Node().capacity.CanAccept(CHUNK_LEN, 0)
    requires a.proposalId == ProposalIdOf(from.h, p) && a.returnRoot == ZERO32 && |data| == CHUNK_LEN
    ensures s.Valid() && s.h == from.h && s.reach == from.reach && s.Threads().Keys == {0, 1, 2, 3}
    ensures Excess(s.at.sys) == 0 == DueBytes(s.at.sys) && s.Node().chunks == map[]
    ensures var t := s.Threads()[3]; t.FinalizeStore? && t.swap.reservedBytes == |t.swap.theirData| == CHUNK_LEN
  {
    s := Commits(from, p, a.fromNode);
    s := ComesToStore(s, a, data);
    NothingDue(s.at.sys);
  }

  /** Such a node, snapped between store and release. */
  lemma SnapsTwice(h: Hash, start: System, at: Point, p: Proposal) returns (labels: seq<Label>)
    requires Keyed(start.node) && From(h, start)(at) && Keyed(at.sys.node) && at.sys.threads.Keys == {0, 1, 2, 3}
    requires Excess(at.sys) == 0 == DueBytes(at.sys) && at.sys.node.chunks == map[]
    requires var t := at.sys.threads[3]; t.FinalizeStore? && t.swap.reservedBytes == |t.swap.theirData| == CHUNK_LEN
    ensures Excess(Run(h, start, labels)) == CHUNK_LEN
  {
    var more := SnapLabels(h, at.sys, p);
    labels := at.labels + more;
    RunsOn(h, start, at, more);
  }

  lemma SnapLabels(h: Hash, sys: System, p: Proposal) returns (labels: seq<Label>)
    requires Keyed(sys.node) && sys.threads.Keys == {0, 1, 2, 3} && sys.node.chunks == map[]
    requires Excess(sys) == 0 == DueBytes(sys)
    requires var t := sys.threads[3]; t.FinalizeStore? && t.swap.reservedBytes == |t.swap.theirData| == CHUNK_LEN
    ensures Excess(Run(h, sys, labels)) == CHUNK_LEN
  {
    var snap := [Spawn(4, ProposalRead(p, 0))] + ([Step(4, NoChoice)] + ([Step(4, NoChoice)] + []));
    SnapCountsTwice(h, sys, 3, 4, p, 0);
    labels := [Step(3, NoChoice)] + snap;
  }

  /** It happens to a node that has just started: one swap and one proposal from outside are enough. */
  lemma SnapFromTheStart(h: Hash, me: NodeId, p: Proposal, a: Accept, data: seq<byte>) returns (labels: seq<Label>)
    requires a.proposalId == ProposalIdOf(h, p) && a.returnRoot == ZERO32 && |data| == CHUNK_LEN
    ensures var start := SwapLimits.FreshSystem(me, CHUNK_LEN);
            Initial(start) && Excess(start) == 0 && Excess(Run(h, start, labels)) == CHUNK_LEN
  {
    var start := SwapLimits.FreshSystem(me, CHUNK_LEN);
    NothingDue(start);
    var s := Curtain(h, start);
    s := ReadyToStore(s, p, a, data);
    labels := SnapsTwice(h, start, s.at, p);
  }
}
