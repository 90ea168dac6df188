/** The two accounts of lost reservations, by section and by handler, are one. */
module SwapLeaks {
  import opened Merkle
  import opened Swap
  import opened SwapLocks
  import opened SwapRuns
  import opened SwapEvents

  /** The thread in which a handler call starts, and what its walks will find. */
  function ThreadOf(ev: Event): Thread {
    match ev
    case Begin(peer, own, now) => BeginOpen(own, now, peer)
    case Proposed(p, now, _, _) => ProposalRead(p, now)
    case AcceptIn(a) => AcceptBind(a)
    case CommitIn(sender, pid) => CommitBind(sender, pid)
    case AbortIn(sender, pid) => AbortBind(sender, pid)
    case Retrieved(chunk, data, _) => RetrieveFind(chunk, data)
    case Expiry(now, timeout, _) => ExpireSweep(now, timeout)
  }

  function ChoiceOf(ev: Event): Choice {
    match ev
    case Proposed(_, _, ret, _) => Chunk(ret)
    case Retrieved(_, _, waiting) => Choice.Swap(waiting)
    case Expiry(_, _, order) => Order(order)
    case _ => NoChoice
  }

  lemma BeginAlone(h: Hash, s: NodeState, peer: NodeId, own: Proposal, now: nat, c: Choice)
    requires Keyed(s)
    ensures Complete(h, s, BeginOpen(own, now, peer), c) == BeginProposal(h, s, peer, own, now)
  {
    var s' := BeginProposal(h, s, peer, own, now);
    Unfold(h, s, BeginOpen(own, now, peer), c, s', Done);
    DoneAlone(h, s', c);
  }

  /** Every handler call is its sections run alone. */
  lemma HandlerIsItsSections(h: Hash, s: NodeState, ev: Event)
    requires Keyed(s) && Possible(s, ev)
    ensures Complete(h, s, ThreadOf(ev), ChoiceOf(ev)) == Handle(h, s, ev)
  {
    var c := ChoiceOf(ev);
    match ev
    case Begin(peer, own, now) => BeginAlone(h, s, peer, own, now, c);
    case Proposed(p, now, ret, token) => ProposalAlone(h, s, p, now, ret, token);
    case AcceptIn(a) => AcceptAlone(h, s, a, c);
    case CommitIn(sender, pid) => CommitAlone(h, s, sender, pid, c);
    case AbortIn(sender, pid) => AbortAlone(h, s, sender, pid, c);
    case Retrieved(chunk, data, waiting) => RetrievalAlone(h, s, chunk, data, waiting);
    case Expiry(now, timeout, order) => ExpiryAlone(h, s, now, timeout, order);
  }

  /** What the sections of a handler left alone lose between them. */
  ghost function CompleteLeak(h: Hash, s: NodeState, t: Thread, c: Choice): nat
    requires Keyed(s)
    decreases Stage(t), Left(t)
  {
    if t.Done? then 0
    else
      var t' := Section(h, s, t, c).1;
      SectionProgresses(h, s, t, c);
      if t' == t then 0 else SectionLeak(h, s, t) + CompleteLeak(h, Next(h, s, t, c), t', c)
  }

  /** A thread that waits for a walk to find something answers for nothing. */
  lemma WaitingOwnsNothing(h: Hash, s: NodeState, t: Thread, c: Choice)
    requires Section(h, s, t, c).1 == t
    ensures Owned(t) == 0
  {
  }

  lemma {:induction false} CompleteConserves(h: Hash, s: NodeState, t: Thread, c: Choice, rest: nat)
    requires Keyed(s) && s.capacity.reservedBytes == PendingBytes(s) + Owned(t) + rest
    ensures var final := Complete(h, s, t, c);
            final.capacity.reservedBytes == PendingBytes(final) + rest + CompleteLeak(h, s, t, c)
    decreases Stage(t), Left(t)
  {
    if !t.Done? {
      var (e, t') := Section(h, s, t, c);
      SectionProgresses(h, s, t, c);
      if t' == t {
        WaitingOwnsNothing(h, s, t, c);
      } else {
        SectionApplicable(h, s, t, c);
        SectionBalance(h, s, e, t, t', c, rest);
        CompleteConserves(h, Next(h, s, t, c), t', c, rest + SectionLeak(h, s, t));
      }
    }
  }

  /** A handler call leaks exactly what its sections, run alone, leak between them. */
  lemma LeaksAgree(h: Hash, s: NodeState, ev: Event, leaked: nat)
    requires Keyed(s) && Possible(s, ev) && Exceeds(s, leaked)
    ensures CompleteLeak(h, s, ThreadOf(ev), ChoiceOf(ev)) == HandlerLeak(h, s, ev)
  {
    assert Owned(ThreadOf(ev)) == 0;
    CompleteConserves(h, s, ThreadOf(ev), ChoiceOf(ev), leaked);
    HandlerIsItsSections(h, s, ev);
    HandlerConserves(h, s, ev, leaked);
  }
}
