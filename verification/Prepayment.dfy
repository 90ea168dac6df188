/** A sponsor's prepayment gate: rate limit, strikes, capacity and the registry of seeds. */
module Prepayment {
  import opened Bytes
  import opened FifoTable
  import Accounting

  type NodeId = Accounting.NodeId
  type ContentId = Bytes32
  type Pair = (NodeId, ContentId)

  const MAX_SPONSORED_SEEDS: nat := 5
  const PREPAY_RATE_LIMIT_SECS: nat := 3600
  const MAX_PREPAY_ATTEMPTS: nat := 1024
  const ATTEMPT_TTL_SECS: nat := 86_400
  const STRIKES: nat := 3

  datatype Seed = Seed(
    contentIds: seq<ContentId>, totalPrepaid: nat, heartbeats: nat, renewals: nat,
    violations: nat, lastSeen: nat, misbehaving: bool)

  datatype Books = Books(
    totalServed: nat, totalReceived: nat, peers: Accounting.Peers,
    seeds: map<NodeId, Seed>, attempts: map<Pair, nat>)

  // ---------------------------------------------------------------- parts

  predicate WithinRate(attempts: map<Pair, nat>, pair: Pair, now: nat) {
    pair !in attempts || SatSub(now, attempts[pair]) >= PREPAY_RATE_LIMIT_SECS
  }

  function Pruned(attempts: map<Pair, nat>, now: nat): map<Pair, nat> {
    map pair | pair in attempts && SatSub(now, attempts[pair]) <= ATTEMPT_TTL_SECS :: attempts[pair]
  }

  /** A full table loses one entry, whichever the map yields first. */
  predicate Evicts(attempts: map<Pair, nat>, now: nat, victim: Option<Pair>) {
    if |Pruned(attempts, now)| >= MAX_PREPAY_ATTEMPTS then victim.Some? && victim.value in Pruned(attempts, now)
    else victim.None?
  }

  function WithAttempt(attempts: map<Pair, nat>, pair: Pair, now: nat, victim: Option<Pair>): map<Pair, nat> {
    var kept := if victim.Some? then Pruned(attempts, now) - {victim.value} else Pruned(attempts, now);
    kept[pair := now]
  }

  function Honest(seeds: map<NodeId, Seed>): set<NodeId> {
    set s | s in seeds && !seeds[s].misbehaving
  }

  predicate CanSponsor(b: Books) {
    |Honest(b.seeds)| < MAX_SPONSORED_SEEDS
  }

  function Struck(seeds: map<NodeId, Seed>, seed: NodeId): map<NodeId, Seed> {
    if seed !in seeds then seeds
    else
      var s := seeds[seed].(violations := seeds[seed].violations + 1);
      seeds[seed := if s.violations >= STRIKES then s.(misbehaving := true) else s]
  }

  function Renewed(s: Seed, content: ContentId, bytes: nat, now: nat): Seed {
    s.(contentIds := if content in s.contentIds then s.contentIds else s.contentIds + [content],
       totalPrepaid := s.totalPrepaid + bytes, renewals := s.renewals + 1, lastSeen := now)
  }

  /** A known seed is renewed, a new one registered if there is room. */
  function Registered(b: Books, seed: NodeId, content: ContentId, bytes: nat, now: nat): Option<map<NodeId, Seed>> {
    if seed in b.seeds then Some(b.seeds[seed := Renewed(b.seeds[seed], content, bytes, now)])
    else if !CanSponsor(b) then None
    else Some(b.seeds[seed := Seed([content], bytes, 0, 0, 0, now, false)])
  }

  /** A peer's account, a blank one if there is none yet. */
  function AccountOf(peers: Accounting.Peers, peer: NodeId): Accounting.PeerCredit {
    if peer in peers then peers[peer] else Accounting.PeerCredit(0, 0, 0, 0, 0, 0, 0)
  }

  function Credited(peers: Accounting.Peers, seed: NodeId, bytes: nat): Accounting.Peers {
    var account := AccountOf(peers, seed);
    peers[seed := account.(prepaidBytes := account.prepaidBytes + bytes)]
  }

  /** Surplus is required, except for the very first sponsorship of a node without history. */
  predicate HasRoom(b: Books) {
    b.totalServed > b.totalReceived || (b.totalServed == 0 && b.totalReceived == 0 && Honest(b.seeds) == {})
  }

  datatype Claim = Claim(from: NodeId, content: ContentId, bytes: nat, valid: bool)

  /** The whole gate. A refused rate counts as a strike; an attempt is recorded before the last checks. */
  function Handle(b: Books, backupOnly: bool, claim: Claim, now: nat, victim: Option<Pair>): (Books, bool) {
    var pair := (claim.from, claim.content);
    if backupOnly || !claim.valid then (b, false)
    else if claim.from in b.seeds && b.seeds[claim.from].misbehaving then (b, false)
    else if !WithinRate(b.attempts, pair, now) then (b.(seeds := Struck(b.seeds, claim.from)), false)
    else
      var noted := b.(attempts := WithAttempt(b.attempts, pair, now, victim));
      if !HasRoom(noted) then (noted, false)
      else if claim.from !in noted.seeds && !CanSponsor(noted) then (noted, false)
      else
        var paid := noted.(peers := Credited(noted.peers, claim.from, claim.bytes));
        match Registered(paid, claim.from, claim.content, claim.bytes, now)
        case None => (paid, false)
        case Some(seeds) => (paid.(seeds := seeds), true)
  }

  // ---------------------------------------------------------------- the node's state

  class SponsorBook {
    var totalServed: nat
    var totalReceived: nat
    var peers: Accounting.Peers
    var seeds: map<NodeId, Seed>
    var attempts: map<Pair, nat>

    function State(): Books
      reads this
    {
      Books(totalServed, totalReceived, peers, seeds, attempts)
    }

    constructor ()
      ensures State() == Books(0, 0, map[], map[], map[])
    {
      totalServed, totalReceived, peers, seeds, attempts := 0, 0, map[], map[], map[];
    }

    method SponsorSeedCount() returns (n: nat)
      ensures n == |Honest(seeds)|
    {
      var table := seeds;
      ghost var honest := Honest(table);
      var todo := table.Keys;
      ghost var done: set<NodeId> := {};
      n := 0;
      while todo != {}
        invariant todo !! done && todo + done == table.Keys
        invariant n == |honest * done|
        decreases |todo|
      {
        var id :| id in todo;
        CountOne(honest, done, id);
        if !table[id].misbehaving {
          n := n + 1;
        }
        todo, done := todo - {id}, done + {id};
      }
      assert honest * done == honest;
    }

    method RecordPrepayAttempt(pair: Pair, now: nat) returns (ghost victim: Option<Pair>)
      modifies this`attempts
      ensures Evicts(old(attempts), now, victim)
      ensures attempts == WithAttempt(old(attempts), pair, now, victim)
    {
      attempts := Pruned(attempts, now);
      victim := None;
      if |attempts| >= MAX_PREPAY_ATTEMPTS {
        assert |attempts.Keys| > 0;
        var k :| k in attempts;
        victim := Some(k);
        attempts := attempts - {k};
      }
      attempts := attempts[pair := now];
    }

    method RecordSeedViolation(seed: NodeId)
      modifies this`seeds
      ensures seeds == Struck(old(seeds), seed)
    {
      if seed in seeds {
        var info := seeds[seed];
        info := info.(violations := info.violations + 1);
        if info.violations >= STRIKES {
          info := info.(misbehaving := true);
        }
        seeds := seeds[seed := info];
      }
    }

    method RegisterSponsoredSeed(seed: NodeId, content: ContentId, bytes: nat, now: nat) returns (ok: bool)
      modifies this`seeds
      ensures match Registered(old(State()), seed, content, bytes, now)
              case None => !ok && seeds == old(seeds)
              case Some(s) => ok && seeds == s
    {
      if seed in seeds {
        var info := seeds[seed];
        if content !in info.contentIds {
          info := info.(contentIds := info.contentIds + [content]);
        }
        info := info.(totalPrepaid := info.totalPrepaid + bytes, renewals := info.renewals + 1, lastSeen := now);
        seeds := seeds[seed := info];
        return true;
      }
      var count := SponsorSeedCount();
      if count >= MAX_SPONSORED_SEEDS {
        return false;
      }
      seeds := seeds[seed := Seed([content], bytes, 0, 0, 0, now, false)];
      ok := true;
    }

    method HandlePrepayment(backupOnly: bool, claim: Claim, now: nat)
          returns (accepted: bool, ghost victim: Option<Pair>)
      modifies this
      ensures (State(), accepted) == Handle(old(State()), backupOnly, claim, now, victim)
      ensures Recorded(old(State()), backupOnly, claim, now) ==> Evicts(old(attempts), now, victim)
    {
      victim := None;
      if backupOnly {
        return false, None;
      }
      if !claim.valid {
        return false, None;
      }
      var pair := (claim.from, claim.content);
      if claim.from in seeds && seeds[claim.from].misbehaving {
        return false, None;
      }
      if !WithinRate(attempts, pair, now) {
        RecordSeedViolation(claim.from);
        return false, None;
      }
      victim := RecordPrepayAttempt(pair, now);
      var count := SponsorSeedCount();
      if !(totalServed > totalReceived) {
        var isFresh := totalServed == 0 && totalReceived == 0;
        if !(isFresh && count == 0) {
          return false, victim;
        }
      }
      if claim.from !in seeds && count >= MAX_SPONSORED_SEEDS {
        return false, victim;
      }
      peers := Credited(peers, claim.from, claim.bytes);
      accepted := RegisterSponsoredSeed(claim.from, claim.content, claim.bytes, now);
    }
  }

  lemma CountOne(chosen: set<NodeId>, done: set<NodeId>, id: NodeId)
    requires id !in done
    ensures |chosen * (done + {id})| == |chosen * done| + if id in chosen then 1 else 0
  {
    if id in chosen {
      assert chosen * (done + {id}) == chosen * done + {id};
    } else {
      assert chosen * (done + {id}) == chosen * done;
    }
  }

  /** The claim gets as far as the attempt table. */
  predicate Recorded(b: Books, backupOnly: bool, claim: Claim, now: nat) {
    && !backupOnly && claim.valid
    && !(claim.from in b.seeds && b.seeds[claim.from].misbehaving)
    && WithinRate(b.attempts, (claim.from, claim.content), now)
  }

  // ---------------------------------------------------------------- runs

  datatype Event =
    | Prepay(claim: Claim, now: nat, backupOnly: bool, victim: Option<Pair>)
    | Heartbeat(seed: NodeId, now: nat)
    | Served(peer: NodeId, bytes: nat, now: nat)
    | Received(peer: NodeId, bytes: nat, now: nat)
    | Challenged(peer: NodeId, passed: bool, now: nat)
    | OwnPrepayment(sponsor: NodeId, bytes: nat)
    | Reconciled(entries: seq<Accounting.Entry>, now: nat)
    | Cleanup(now: nat)

  /** The hourly cleanup of accounts: seven days, and one more for a partitioned peer. */
  const CLEANUP: Accounting.PrunePolicy := Accounting.PrunePolicy(7 * 86_400, 3600, 86_400)

  function Step(b: Books, e: Event): Books {
    match e
    case Prepay(claim, now, backupOnly, victim) => Handle(b, backupOnly, claim, now, victim).0
    case Heartbeat(seed, now) =>
      if seed in b.seeds
      then b.(seeds := b.seeds[seed := b.seeds[seed].(heartbeats := b.seeds[seed].heartbeats + 1, lastSeen := now)])
      else b
    case Served(peer, bytes, now) =>
      var account := AccountOf(b.peers, peer);
      b.(totalServed := b.totalServed + bytes, peers := b.peers[peer := account.(
           bytesServed := account.bytesServed + bytes, netCredit := account.netCredit + bytes, lastInteraction := now)])
    case Received(peer, bytes, now) =>
      var account := AccountOf(b.peers, peer);
      b.(totalReceived := b.totalReceived + bytes, peers := b.peers[peer := account.(
           bytesReceived := account.bytesReceived + bytes, netCredit := account.netCredit - bytes,
           lastInteraction := now)])
    case Challenged(peer, passed, now) =>
      var account := AccountOf(b.peers, peer);
      b.(peers := b.peers[peer := account.(
           successfulChallenges := account.successfulChallenges + if passed then 1 else 0,
           failedChallenges := account.failedChallenges + if passed then 0 else 1, lastInteraction := now)])
    case OwnPrepayment(sponsor, bytes) => b.(peers := Credited(b.peers, sponsor, bytes))
    case Reconciled(entries, now) => b.(peers := Accounting.Merge(b.peers, entries, now))
    case Cleanup(now) => b.(peers := Accounting.WithoutStale(b.peers, CLEANUP, now))
  }

  predicate Accepted(b: Books, e: Event) {
    e.Prepay? && Handle(b, e.backupOnly, e.claim, e.now, e.victim).1
  }

  /** The eviction is one the map could have made. */
  predicate Faithful(b: Books, e: Event) {
    e.Prepay? && Recorded(b, e.backupOnly, e.claim, e.now) ==> Evicts(b.attempts, e.now, e.victim)
  }

  /** At most five honest seeds, a bounded attempt table, and three strikes exactly. */
  ghost predicate Sound(b: Books) {
    && |Honest(b.seeds)| <= MAX_SPONSORED_SEEDS
    && |b.attempts| <= MAX_PREPAY_ATTEMPTS
    && forall s :: s in b.seeds ==> (b.seeds[s].misbehaving <==> b.seeds[s].violations >= STRIKES)
  }

  lemma AttemptKeeps(attempts: map<Pair, nat>, pair: Pair, now: nat, victim: Option<Pair>)
    requires |attempts| <= MAX_PREPAY_ATTEMPTS && Evicts(attempts, now, victim)
    ensures |WithAttempt(attempts, pair, now, victim)| <= MAX_PREPAY_ATTEMPTS
  {
    var pruned := Pruned(attempts, now);
    Cardinality(pruned.Keys, attempts.Keys);
    var kept := if victim.Some? then pruned - {victim.value} else pruned;
    if victim.Some? {
      assert kept.Keys == pruned.Keys - {victim.value};
    }
    assert kept[pair := now].Keys == kept.Keys + {pair};
  }

  lemma StrikeKeeps(b: Books, seed: NodeId)
    requires Sound(b)
    ensures Sound(b.(seeds := Struck(b.seeds, seed)))
  {
    assert Honest(Struck(b.seeds, seed)) <= Honest(b.seeds);
    Cardinality(Honest(Struck(b.seeds, seed)), Honest(b.seeds));
  }

  lemma RegisterKeeps(b: Books, seed: NodeId, content: ContentId, bytes: nat, now: nat)
    requires Sound(b) && Registered(b, seed, content, bytes, now).Some?
    ensures Sound(b.(seeds := Registered(b, seed, content, bytes, now).value))
  {
    if seed in b.seeds {
      HonestSame(b.seeds, seed, Renewed(b.seeds[seed], content, bytes, now));
    } else {
      HonestMore(b.seeds, seed, Seed([content], bytes, 0, 0, 0, now, false));
    }
  }

  lemma HonestSame(seeds: map<NodeId, Seed>, id: NodeId, s: Seed)
    requires id in seeds && s.misbehaving == seeds[id].misbehaving
    ensures Honest(seeds[id := s]) == Honest(seeds)
  {
  }

  lemma HonestMore(seeds: map<NodeId, Seed>, id: NodeId, s: Seed)
    requires id !in seeds
    ensures |Honest(seeds[id := s])| <= |Honest(seeds)| + 1
  {
    Cardinality(Honest(seeds[id := s]), Honest(seeds) + {id});
  }

  lemma HandleKeeps(b: Books, backupOnly: bool, claim: Claim, now: nat, victim: Option<Pair>)
    requires Sound(b) && (Recorded(b, backupOnly, claim, now) ==> Evicts(b.attempts, now, victim))
    ensures Sound(Handle(b, backupOnly, claim, now, victim).0)
  {
    if Recorded(b, backupOnly, claim, now) {
      AttemptKeeps(b.attempts, (claim.from, claim.content), now, victim);
      var noted := b.(attempts := WithAttempt(b.attempts, (claim.from, claim.content), now, victim));
      var paid := noted.(peers := Credited(noted.peers, claim.from, claim.bytes));
      assert Sound(noted) && Sound(paid);
      if Registered(paid, claim.from, claim.content, claim.bytes, now).Some? {
        RegisterKeeps(paid, claim.from, claim.content, claim.bytes, now);
      }
    } else {
      StrikeKeeps(b, claim.from);
    }
  }

  /** No credit without registration, and a seed once misbehaving is never accepted or forgiven. */
  lemma HandleIsSafe(b: Books, backupOnly: bool, claim: Claim, now: nat, victim: Option<Pair>)
    ensures var (after, ok) := Handle(b, backupOnly, claim, now, victim);
            && (after.peers != b.peers ==> ok)
            && (ok ==>
                  && claim.from in after.seeds
                  && claim.content in after.seeds[claim.from].contentIds
                  && !after.seeds[claim.from].misbehaving)
            && (ok ==> after.peers == Credited(b.peers, claim.from, claim.bytes))
            && (forall s :: s in b.seeds && b.seeds[s].misbehaving ==> s in after.seeds && after.seeds[s].misbehaving)
  {
  }

  function Run(b: Books, es: seq<Event>): Books
    decreases |es|
  {
    if es == [] then b else Run(Step(b, es[0]), es[1..])
  }

  predicate FaithfulRun(b: Books, es: seq<Event>)
    decreases |es|
  {
    es == [] || (Faithful(b, es[0]) && FaithfulRun(Step(b, es[0]), es[1..]))
  }

  lemma StepKeeps(b: Books, e: Event)
    requires Sound(b) && Faithful(b, e)
    ensures Sound(Step(b, e))
  {
    match e
    case Prepay(claim, now, backupOnly, victim) => HandleKeeps(b, backupOnly, claim, now, victim);
    case Heartbeat(seed, now) =>
      if seed in b.seeds {
        HonestSame(b.seeds, seed, Step(b, e).seeds[seed]);
      }
    case _ =>
  }

  /** The limits hold over every run. */
  lemma {:induction false} GateInvariant(b: Books, es: seq<Event>)
    requires Sound(b) && FaithfulRun(b, es)
    ensures Sound(Run(b, es))
    decreases |es|
  {
    if es != [] {
      StepKeeps(b, es[0]);
      GateInvariant(Step(b, es[0]), es[1..]);
    }
  }

  /** Misbehaving is for ever, and closes the gate. */
  lemma {:induction false} MisbehavingIsPermanent(b: Books, es: seq<Event>, seed: NodeId, later: Event)
    requires seed in b.seeds && b.seeds[seed].misbehaving
    ensures seed in Run(b, es).seeds && Run(b, es).seeds[seed].misbehaving
    ensures Accepted(Run(b, es), later) ==> later.claim.from != seed
    decreases |es|
  {
    if es != [] {
      if es[0].Prepay? {
        HandleIsSafe(b, es[0].backupOnly, es[0].claim, es[0].now, es[0].victim);
      }
      MisbehavingIsPermanent(Step(b, es[0]), es[1..], seed, later);
    }
  }

  // ---------------------------------------------------------------- the gate in plain terms

  /** The claim comes less than an hour after the last attempt on record for its seed and content. */
  predicate TooOften(b: Books, claim: Claim, now: nat) {
    (claim.from, claim.content) in b.attempts && now < b.attempts[(claim.from, claim.content)] + 3600
  }

  predicate Flagged(b: Books, seed: NodeId) {
    seed in b.seeds && b.seeds[seed].misbehaving
  }

  /** The sponsor has served more than it received, or has no history and sponsors nobody; and it has room for
      one more seed, or knows this one. */
  predicate CanAfford(b: Books, seed: NodeId) {
    && (b.totalServed > b.totalReceived
        || (b.totalServed == 0 == b.totalReceived && forall s :: s in b.seeds ==> b.seeds[s].misbehaving))
    && (seed in b.seeds || |set s | s in b.seeds && !b.seeds[s].misbehaving| < 5)
  }

  /** Accepted, exactly. */
  lemma AcceptedIff(b: Books, e: Event)
    requires e.Prepay?
    ensures Accepted(b, e) <==>
            && !e.backupOnly && e.claim.valid && !Flagged(b, e.claim.from)
            && !TooOften(b, e.claim, e.now) && CanAfford(b, e.claim.from)
  {
    var seed := e.claim.from;
    var noted := b.(attempts := WithAttempt(b.attempts, PairOf(e.claim), e.now, e.victim));
    assert Honest(b.seeds) == set s | s in b.seeds && !b.seeds[s].misbehaving;
    assert Honest(b.seeds) == {} <==> forall s :: s in b.seeds ==> b.seeds[s].misbehaving by {
      if Honest(b.seeds) != {} {
        var s :| s in Honest(b.seeds);
      }
      if s :| s in b.seeds && !b.seeds[s].misbehaving {
        assert s in Honest(b.seeds);
      }
    }
    assert noted.seeds == b.seeds;
  }

  /** What is kept about a seed through every event: its contents, and its counts only go up, each by what the
      event is about. */
  lemma SeedRecord(b: Books, e: Event, seed: NodeId)
    requires seed in b.seeds
    ensures var was := b.seeds[seed];
            && seed in Step(b, e).seeds
            && var now := Step(b, e).seeds[seed];
               && (forall c :: c in was.contentIds ==> c in now.contentIds)
               && now.heartbeats == was.heartbeats + (if e.Heartbeat? && e.seed == seed then 1 else 0)
               && now.renewals == was.renewals + (if Accepted(b, e) && e.claim.from == seed then 1 else 0)
               && now.violations == was.violations + (if IsStrike(b, e, seed) then 1 else 0)
               && (Accepted(b, e) && e.claim.from == seed ==>
                     e.claim.content in now.contentIds && now.lastSeen == e.now)
               && (e.Heartbeat? && e.seed == seed ==> now.lastSeen == e.now)
  {
  }

  /** A claim from the seed that comes too often is a strike, unless the seed is flagged already. */
  predicate IsStrike(b: Books, e: Event, seed: NodeId) {
    && e.Prepay? && e.claim.from == seed && !e.backupOnly && e.claim.valid
    && !Flagged(b, seed) && TooOften(b, e.claim, e.now)
  }

  /** Strikes of a seed over a run. */
  function Strikes(b: Books, es: seq<Event>, seed: NodeId): nat
    decreases |es|
  {
    if es == [] then 0 else (if IsStrike(b, es[0], seed) then 1 else 0) + Strikes(Step(b, es[0]), es[1..], seed)
  }

  /** Over every run a registered seed's violations are its strikes, and it is flagged exactly from the third. */
  lemma {:induction false} ThreeStrikes(b: Books, es: seq<Event>, seed: NodeId)
    requires seed in b.seeds && (b.seeds[seed].misbehaving <==> b.seeds[seed].violations >= 3)
    ensures seed in Run(b, es).seeds
    ensures var now := Run(b, es).seeds[seed];
            && now.violations == b.seeds[seed].violations + Strikes(b, es, seed)
            && (now.misbehaving <==> now.violations >= 3)
    decreases |es|
  {
    if es != [] {
      SeedRecord(b, es[0], seed);
      ThreeStrikes(Step(b, es[0]), es[1..], seed);
    }
  }

  /** Recording an attempt leaves none on record that is more than a day old, and loses no other one, but one
      victim of a full table. */
  lemma AttemptsAreRecent(b: Books, e: Event, pair: Pair)
    requires e.Prepay? && Recorded(b, e.backupOnly, e.claim, e.now)
    ensures var after := Step(b, e).attempts;
            && PairOf(e.claim) in after && after[PairOf(e.claim)] == e.now
            && (pair != PairOf(e.claim) ==>
                  && (pair in after <==>
                        pair in b.attempts && e.now <= b.attempts[pair] + 86_400 && e.victim != Some(pair))
                  && (pair in after ==> after[pair] == b.attempts[pair]))
  {
    assert Step(b, e).attempts == WithAttempt(b.attempts, PairOf(e.claim), e.now, e.victim);
  }

  // ---------------------------------------------------------------- traffic

  /** Traffic: bytes served and received, challenges passed and failed. */
  datatype Tally = Tally(served: nat, received: nat, passed: nat, failed: nat) {
    function Plus(t: Tally): Tally {
      Tally(served + t.served, received + t.received, passed + t.passed, failed + t.failed)
    }
  }

  /** The traffic of one event with a peer, or with anybody if none is named. */
  function TallyOf(e: Event, peer: Option<NodeId>): Tally {
    match e
    case Served(p, bytes, _) => Tally(if Concerns(p, peer) then bytes else 0, 0, 0, 0)
    case Received(p, bytes, _) => Tally(0, if Concerns(p, peer) then bytes else 0, 0, 0)
    case Challenged(p, passed, _) =>
      var n := if Concerns(p, peer) then 1 else 0;
      if passed then Tally(0, 0, n, 0) else Tally(0, 0, 0, n)
    case _ => Tally(0, 0, 0, 0)
  }

  predicate Concerns(p: NodeId, peer: Option<NodeId>) {
    peer.None? || peer.value == p
  }

  function TallyAll(es: seq<Event>, peer: Option<NodeId>): Tally {
    if es == [] then Tally(0, 0, 0, 0)
    else TallyOf(es[0], peer).Plus(TallyAll(es[1..], peer))
  }

  /** The time of the last traffic with the peer. */
  function LastTraffic(es: seq<Event>, peer: NodeId, before: nat): nat {
    if es == [] then before else LastTraffic(es[1..], peer, TrafficTime(es[0], peer, before))
  }

  function TrafficTime(e: Event, peer: NodeId, before: nat): nat {
    if (e.Served? || e.Received? || e.Challenged?) && e.peer == peer then e.now else before
  }

  predicate Counts(was: Accounting.PeerCredit, now: Accounting.PeerCredit, t: Tally) {
    && now.bytesServed == was.bytesServed + t.served && now.bytesReceived == was.bytesReceived + t.received
    && now.netCredit == was.netCredit + t.served - t.received
    && now.successfulChallenges == was.successfulChallenges + t.passed
    && now.failedChallenges == was.failedChallenges + t.failed
  }

  lemma TrafficStep(b: Books, e: Event, peer: NodeId)
    requires !e.Reconciled? && !e.Cleanup?
    ensures var was, now := AccountOf(b.peers, peer), AccountOf(Step(b, e).peers, peer);
            && Counts(was, now, TallyOf(e, Some(peer)))
            && now.lastInteraction == TrafficTime(e, peer, was.lastInteraction)
  {
    if e.Prepay? {
      ClaimKeepsTraffic(b, e, peer);
    }
  }

  lemma ClaimKeepsTraffic(b: Books, e: Event, peer: NodeId)
    requires e.Prepay?
    ensures var was, now := AccountOf(b.peers, peer), AccountOf(Step(b, e).peers, peer);
            now == was.(prepaidBytes := now.prepaidBytes)
    ensures Step(b, e).totalServed == b.totalServed && Step(b, e).totalReceived == b.totalReceived
  {
  }

  lemma TotalsStep(b: Books, e: Event)
    ensures Step(b, e).totalServed == b.totalServed + TallyOf(e, None).served
    ensures Step(b, e).totalReceived == b.totalReceived + TallyOf(e, None).received
  {
    if e.Prepay? {
      ClaimKeepsTraffic(b, e, e.claim.from);
    }
  }

  lemma CountsOn(a: Accounting.PeerCredit, b: Accounting.PeerCredit, c: Accounting.PeerCredit, s: Tally, t: Tally)
    requires Counts(a, b, s) && Counts(b, c, t)
    ensures Counts(a, c, s.Plus(t))
  {
  }

  /** Between reconciliations and cleanups every account is exactly the traffic with its peer: what was served, what
      was received, the difference as its net credit, the challenges by outcome, and the time of the last of them;
      prepayments move none of these. */
  lemma {:induction false} TrafficIsCounted(b: Books, es: seq<Event>, peer: NodeId)
    requires forall e :: e in es ==> !e.Reconciled? && !e.Cleanup?
    ensures var was, now := AccountOf(b.peers, peer), AccountOf(Run(b, es).peers, peer);
            && Counts(was, now, TallyAll(es, Some(peer)))
            && now.lastInteraction == LastTraffic(es, peer, was.lastInteraction)
    decreases |es|
  {
    if es != [] {
      var next := Step(b, es[0]);
      TrafficStep(b, es[0], peer);
      TrafficIsCounted(next, es[1..], peer);
      CountsOn(AccountOf(b.peers, peer), AccountOf(next.peers, peer), AccountOf(Run(next, es[1..]).peers, peer),
               TallyOf(es[0], Some(peer)), TallyAll(es[1..], Some(peer)));
    }
  }

  /** The totals that the gate compares are all bytes ever served and received, over every run. */
  lemma {:induction false} TotalsAreCounted(b: Books, es: seq<Event>)
    ensures Run(b, es).totalServed == b.totalServed + TallyAll(es, None).served
    ensures Run(b, es).totalReceived == b.totalReceived + TallyAll(es, None).received
    decreases |es|
  {
    if es != [] {
      TotalsStep(b, es[0]);
      TotalsAreCounted(Step(b, es[0]), es[1..]);
    }
  }

  // ---------------------------------------------------------------- conservation

  /** What a seed has been credited with, and what its registrations add up to. */
  function PrepaidBy(b: Books, seed: NodeId): nat {
    AccountOf(b.peers, seed).prepaidBytes
  }

  function RegisteredBy(b: Books, seed: NodeId): nat {
    if seed in b.seeds then b.seeds[seed].totalPrepaid else 0
  }

  function Gained(b: Books, e: Event, seed: NodeId): nat {
    if Accepted(b, e) && e.claim.from == seed then e.claim.bytes else 0
  }

  /** What the run's accepted claims of one seed add up to. */
  function AcceptedBytes(b: Books, es: seq<Event>, seed: NodeId): nat
    decreases |es|
  {
    if es == [] then 0 else Gained(b, es[0], seed) + AcceptedBytes(Step(b, es[0]), es[1..], seed)
  }

  // ---------------------------------------------------------------- what else moves a credit

  /** The account is there and is old enough for the cleanup to drop it. */
  predicate Stale(b: Books, now: nat, seed: NodeId) {
    seed in b.peers && SatSub(now, b.peers[seed].lastInteraction) >= 8 * 86_400
  }

  /** The cleanup's two limits come to one: eight days without an interaction. */
  lemma CleanupDropsStale(b: Books, now: nat, seed: NodeId)
    ensures seed in Step(b, Cleanup(now)).peers <==> seed in b.peers && !Stale(b, now, seed)
    ensures seed in Step(b, Cleanup(now)).peers ==> Step(b, Cleanup(now)).peers[seed] == b.peers[seed]
  {
  }

  /** An admissible entry for the peer, later than ours. */
  predicate Newer(b: Books, e: Accounting.Entry, now: nat, seed: NodeId) {
    && e.peer == seed && Accounting.Admissible(e.credit, now)
    && (seed in b.peers ==> e.credit.lastInteraction > b.peers[seed].lastInteraction)
  }

  /** Entry `i` is the first of the latest among the newer ones for the peer. */
  predicate TakesOver(b: Books, entries: seq<Accounting.Entry>, now: nat, seed: NodeId, i: nat) {
    && i < |entries| && Newer(b, entries[i], now, seed)
    && forall j :: 0 <= j < |entries| && j != i && Newer(b, entries[j], now, seed) ==>
         if j < i then entries[j].credit.lastInteraction < entries[i].credit.lastInteraction
         else entries[j].credit.lastInteraction <= entries[i].credit.lastInteraction
  }

  /** Reconciliation leaves the peer's account alone if no entry for it is newer; otherwise exactly one entry
      takes it over. */
  lemma {:induction false} ReconciledAccount(b: Books, entries: seq<Accounting.Entry>, now: nat, seed: NodeId)
      returns (winner: Option<nat>)
    ensures var after := Accounting.Merge(b.peers, entries, now);
            match winner
            case Some(i) => TakesOver(b, entries, now, seed, i) && seed in after && after[seed] == entries[i].credit
            case None =>
              && (forall e :: e in entries ==> !Newer(b, e, now, seed))
              && (seed in after <==> seed in b.peers) && (seed in after ==> after[seed] == b.peers[seed])
  {
    winner := None;
    if entries != [] {
      var n := |entries| - 1;
      var before := ReconciledAccount(b, entries[..n], now, seed);
      winner := before;
      if Newer(b, entries[n], now, seed) &&
         (before.None? || entries[n].credit.lastInteraction > entries[before.value].credit.lastInteraction) {
        winner := Some(n);
      }
    }
  }

  /** The event moves the credit of a seed otherwise than by an accepted claim, as can be seen before it
      happens. */
  predicate Disturbs(b: Books, e: Event, seed: NodeId) {
    match e
    case OwnPrepayment(sponsor, bytes) => sponsor == seed && bytes > 0
    case Reconciled(entries, now) =>
      exists i :: 0 <= i < |entries| && TakesOver(b, entries, now, seed, i)
                  && entries[i].credit.prepaidBytes != PrepaidBy(b, seed)
    case Cleanup(now) => Stale(b, now, seed) && PrepaidBy(b, seed) > 0
    case _ => false
  }

  /** Only one entry can take an account over. */
  lemma OneTakesOver(b: Books, entries: seq<Accounting.Entry>, now: nat, seed: NodeId, i: nat, j: nat)
    requires TakesOver(b, entries, now, seed, i) && TakesOver(b, entries, now, seed, j)
    ensures i == j
  {
  }

  lemma ReconciliationMovesIff(b: Books, entries: seq<Accounting.Entry>, now: nat, seed: NodeId)
    ensures PrepaidBy(Step(b, Reconciled(entries, now)), seed) != PrepaidBy(b, seed)
            <==> Disturbs(b, Reconciled(entries, now), seed)
  {
    var winner := ReconciledAccount(b, entries, now, seed);
    forall i: nat | TakesOver(b, entries, now, seed, i) ensures winner == Some(i) {
      if winner.Some? {
        OneTakesOver(b, entries, now, seed, i, winner.value);
      }
    }
  }

  lemma StepBalances(b: Books, e: Event, seed: NodeId)
    ensures RegisteredBy(Step(b, e), seed) == RegisteredBy(b, seed) + Gained(b, e, seed)
    ensures PrepaidBy(Step(b, e), seed) == PrepaidBy(b, seed) + Gained(b, e, seed) <==> !Disturbs(b, e, seed)
  {
    match e
    case Prepay(claim, now, backupOnly, victim) => HandleIsSafe(b, backupOnly, claim, now, victim);
    case Reconciled(entries, now) => ReconciliationMovesIff(b, entries, now, seed);
    case Cleanup(now) => CleanupDropsStale(b, now, seed);
    case _ =>
  }

  /** At every point of the run the credit is what it was and what has been accepted since. */
  predicate FollowsAcceptance(b: Books, es: seq<Event>, seed: NodeId, credit: nat)
    decreases |es|
  {
    && PrepaidBy(b, seed) == credit
    && (es == [] || FollowsAcceptance(Step(b, es[0]), es[1..], seed, credit + Gained(b, es[0], seed)))
  }

  predicate Undisturbed(b: Books, es: seq<Event>, seed: NodeId)
    decreases |es|
  {
    es == [] || (!Disturbs(b, es[0], seed) && Undisturbed(Step(b, es[0]), es[1..], seed))
  }

  /** Over every run of claims, heartbeats, traffic, challenges, own prepayments, reconciliations and
      cleanups: what a seed is registered with grows by exactly what was accepted from it; and its credit
      does so at every point of the run if and only if no event of the run disturbs it: no own prepayment to
      it, no reconciliation that takes its account over with another credit, no cleanup of it after eight
      silent days. */
  lemma {:induction false} CreditIsAcceptedTotal(b: Books, es: seq<Event>, seed: NodeId)
    ensures RegisteredBy(Run(b, es), seed) == RegisteredBy(b, seed) + AcceptedBytes(b, es, seed)
    ensures FollowsAcceptance(b, es, seed, PrepaidBy(b, seed)) <==> Undisturbed(b, es, seed)
    ensures Undisturbed(b, es, seed) ==>
              PrepaidBy(Run(b, es), seed) == PrepaidBy(b, seed) + AcceptedBytes(b, es, seed)
    decreases |es|
  {
    if es != [] {
      StepBalances(b, es[0], seed);
      CreditIsAcceptedTotal(Step(b, es[0]), es[1..], seed);
    }
  }

  /** A prepayment is no interaction: an account that it made is stale from the start, and the next cleanup
      of any clock beyond eight days drops it. The seed stays registered and is credited with nothing. */
  lemma CleanupForgetsPrepayment(claim: Claim, at: nat, now: nat)
    requires claim.valid && claim.bytes > 0 && now >= 8 * 86_400
    ensures var b, es := Books(0, 0, map[], map[], map[]), [Prepay(claim, at, false, None), Cleanup(now)];
            && AcceptedBytes(b, es, claim.from) == claim.bytes == RegisteredBy(Run(b, es), claim.from)
            && PrepaidBy(Run(b, es), claim.from) == 0
  {
    var b, e1, e2 := Books(0, 0, map[], map[], map[]), Prepay(claim, at, false, None), Cleanup(now);
    assert Accepted(b, e1);
    var mid := Step(b, e1);
    assert [e1, e2] == [e1] + [e2] && [e2] == [e2] + [];
    RunFirst(b, e1, [e2]);
    RunFirst(mid, e2, []);
    CleanupDropsStale(mid, now, claim.from);
    CreditIsAcceptedTotal(b, [e1, e2], claim.from);
  }

  /** A prepayment does not move the time of the account, so a copy of the account made without it may
      count as newer: the seed stays registered with its bytes and is credited with none. */
  lemma ReconciliationForgetsPrepayment(claim: Claim)
    requires claim.valid && claim.bytes > 0
    ensures var stale := Accounting.Entry(claim.from, Accounting.PeerCredit(0, 0, 0, 1, 0, 0, 0));
            var es := [Prepay(claim, 0, false, None), Reconciled([stale], 0)];
            var after := Run(Books(0, 0, map[], map[], map[]), es);
            PrepaidBy(after, claim.from) == 0 && RegisteredBy(after, claim.from) == claim.bytes
  {
    var b := Books(0, 0, map[], map[], map[]);
    var stale := Accounting.Entry(claim.from, Accounting.PeerCredit(0, 0, 0, 1, 0, 0, 0));
    var e1, e2 := Prepay(claim, 0, false, None), Reconciled([stale], 0);
    assert Accepted(b, e1);
    assert [e1, e2] == [e1] + [e2] && [e2] == [e2] + [];
    RunFirst(b, e1, [e2]);
    RunFirst(Step(b, e1), e2, []);
    var peers := Step(b, e1).peers;
    assert Accounting.Merge(peers, [stale][..0], 0) == peers;
  }

  // ---------------------------------------------------------------- an hour apart

  function Clock(e: Event, now: nat): nat {
    if e.Prepay? then e.now else now
  }

  /** Prepayments read a clock that never goes back. */
  predicate Timely(es: seq<Event>, now: nat)
    decreases |es|
  {
    es == [] || (now <= Clock(es[0], now) && Timely(es[1..], Clock(es[0], now)))
  }

  /** The clock after a run. */
  function ClockAfter(es: seq<Event>, now: nat): nat
    decreases |es|
  {
    if es == [] then now else ClockAfter(es[1..], Clock(es[0], now))
  }

  function PairOf(claim: Claim): Pair {
    (claim.from, claim.content)
  }

  /** Whether the last event that touched the pair in the attempt table took it out for lack of room. */
  function Dropped(b: Books, e: Event, pair: Pair, before: bool): bool {
    if !e.Prepay? || !Recorded(b, e.backupOnly, e.claim, e.now) then before
    else if PairOf(e.claim) == pair then false
    else before || e.victim == Some(pair)
  }

  function DroppedBy(b: Books, es: seq<Event>, pair: Pair, before: bool): bool
    decreases |es|
  {
    if es == [] then before else DroppedBy(Step(b, es[0]), es[1..], pair, Dropped(b, es[0], pair, before))
  }

  /** Within the hour: the pair is missing, or known with a time since then. */
  predicate Remembers(b: Books, pair: Pair, since: nat, now: nat, dropped: bool) {
    if dropped then pair !in b.attempts else pair in b.attempts && since <= b.attempts[pair] <= now
  }

  lemma RemembersStep(b: Books, e: Event, pair: Pair, since: nat, now: nat, dropped: bool)
    requires Remembers(b, pair, since, now, dropped)
    requires since <= now <= Clock(e, now) < since + PREPAY_RATE_LIMIT_SECS
    ensures Remembers(Step(b, e), pair, since, Clock(e, now), Dropped(b, e, pair, dropped))
  {
    if e.Prepay? && Recorded(b, e.backupOnly, e.claim, e.now) {
      assert Step(b, e).attempts == WithAttempt(b.attempts, PairOf(e.claim), e.now, e.victim);
    }
  }

  lemma {:induction false} RunRemembers(b: Books, es: seq<Event>, pair: Pair, since: nat, now: nat, dropped: bool)
    requires Remembers(b, pair, since, now, dropped) && since <= now && Timely(es, now)
    requires ClockAfter(es, now) < since + PREPAY_RATE_LIMIT_SECS
    ensures Remembers(Run(b, es), pair, since, ClockAfter(es, now), DroppedBy(b, es, pair, dropped))
    ensures ClockAfter(es, now) >= now
    decreases |es|
  {
    if es != [] {
      ClockGoesOn(es[1..], Clock(es[0], now));
      RemembersStep(b, es[0], pair, since, now, dropped);
      RunRemembers(Step(b, es[0]), es[1..], pair, since, Clock(es[0], now), Dropped(b, es[0], pair, dropped));
    }
  }

  lemma {:induction false} ClockGoesOn(es: seq<Event>, now: nat)
    requires Timely(es, now)
    ensures ClockAfter(es, now) >= now
    decreases |es|
  {
    if es != [] {
      ClockGoesOn(es[1..], Clock(es[0], now));
    }
  }

  /** The rate limit, exactly: within the hour after a recorded attempt, whatever happens in between, the
      pair may be tried again if and only if the last event that touched it was its eviction. */
  lemma RateOpenIffDropped(b: Books, first: Event, between: seq<Event>, at: nat)
    requires first.Prepay? && Recorded(b, first.backupOnly, first.claim, first.now)
    requires Timely(between, first.now) && ClockAfter(between, first.now) <= at
    requires at < first.now + PREPAY_RATE_LIMIT_SECS
    ensures var pair, start := PairOf(first.claim), Step(b, first);
            WithinRate(Run(start, between).attempts, pair, at) <==> DroppedBy(start, between, pair, false)
  {
    RunRemembers(Step(b, first), between, PairOf(first.claim), first.now, first.now, false);
  }

  /** So two accepted prepayments of one seed for one content, with anything in between, are at least an
      hour apart unless the full table dropped the pair. */
  lemma HourApart(b: Books, first: Event, between: seq<Event>, second: Event)
    requires Accepted(b, first) && Accepted(Run(Step(b, first), between), second)
    requires PairOf(first.claim) == PairOf(second.claim)
    requires Timely(between, first.now) && ClockAfter(between, first.now) <= second.now
    ensures second.now >= first.now + PREPAY_RATE_LIMIT_SECS
            || DroppedBy(Step(b, first), between, PairOf(first.claim), false)
  {
    if second.now < first.now + PREPAY_RATE_LIMIT_SECS {
      RateOpenIffDropped(b, first, between, second.now);
    }
  }

  // ---------------------------------------------------------------- twice within the hour

  /** A seed prepays for one content at time 0. */
  function Attempt(seed: NodeId, i: nat, victim: Option<Pair>): Event {
    Prepay(Claim(seed, IdNo(i), 1, true), 0, false, victim)
  }

  function Tried(seed: NodeId, k: nat): set<Pair> {
    set i: nat | i < k :: (seed, IdNo(i))
  }

  /** Exactly the first `k` contents have been tried, at time 0, by a seed that may go on. */
  ghost predicate Filled(b: Books, seed: NodeId, k: nat) {
    && b.attempts.Keys == Tried(seed, k)
    && (forall pair :: pair in b.attempts ==> b.attempts[pair] == 0)
    && |b.attempts| == k && b.totalServed > b.totalReceived
    && (if k == 0 then b.seeds == map[] else seed in b.seeds && !b.seeds[seed].misbehaving)
  }

  lemma NotYetTried(b: Books, seed: NodeId, k: nat)
    requires Filled(b, seed, k) && k < U16_LIMIT
    ensures (seed, IdNo(k)) !in b.attempts && Pruned(b.attempts, 0) == b.attempts
  {
    if (seed, IdNo(k)) in b.attempts {
      var i: nat :| i < k && (seed, IdNo(i)) == (seed, IdNo(k));
      IdsDiffer(i, k);
    }
  }

  lemma FillOne(b: Books, seed: NodeId, k: nat)
    requires Filled(b, seed, k) && k < MAX_PREPAY_ATTEMPTS
    ensures var e := Attempt(seed, k, None);
            Faithful(b, e) && Accepted(b, e) && Filled(Step(b, e), seed, k + 1)
  {
    NotYetTried(b, seed, k);
    TriedMore(b.attempts, seed, k);
    assert Step(b, Attempt(seed, k, None)).attempts == b.attempts[(seed, IdNo(k)) := 0];
  }

  lemma TriedMore(attempts: map<Pair, nat>, seed: NodeId, k: nat)
    requires attempts.Keys == Tried(seed, k) && (seed, IdNo(k)) !in attempts
    ensures var more := attempts[(seed, IdNo(k)) := 0];
            more.Keys == Tried(seed, k + 1) && |more| == |attempts| + 1
  {
    assert attempts[(seed, IdNo(k)) := 0].Keys == attempts.Keys + {(seed, IdNo(k))};
    assert Tried(seed, k + 1) == Tried(seed, k) + {(seed, IdNo(k))};
  }

  lemma RunFirst(b: Books, e: Event, rest: seq<Event>)
    ensures Run(b, [e] + rest) == Run(Step(b, e), rest)
    ensures FaithfulRun(b, [e] + rest) <==> Faithful(b, e) && FaithfulRun(Step(b, e), rest)
  {
    assert ([e] + rest)[1..] == rest;
  }

  /** The seed goes on until `n` contents are in the table. */
  lemma {:induction false} FillAll(b: Books, seed: NodeId, k: nat, n: nat) returns (es: seq<Event>, full: Books)
    requires Filled(b, seed, k) && k <= n <= MAX_PREPAY_ATTEMPTS
    ensures FaithfulRun(b, es) && Run(b, es) == full && Filled(full, seed, n)
    decreases n - k
  {
    if k == n {
      es, full := [], b;
    } else {
      var next := FillNext(b, seed, k);
      var rest;
      rest, full := FillAll(next, seed, k + 1, n);
      es := [Attempt(seed, k, None)] + rest;
      RunFirst(b, Attempt(seed, k, None), rest);
    }
  }

  lemma FillNext(b: Books, seed: NodeId, k: nat) returns (next: Books)
    requires Filled(b, seed, k) && k < MAX_PREPAY_ATTEMPTS
    ensures Filled(next, seed, k + 1) && next == Step(b, Attempt(seed, k, None)) && Faithful(b, Attempt(seed, k, None))
  {
    FillOne(b, seed, k);
    next := Step(b, Attempt(seed, k, None));
  }

  /** Eviction is enough: a seed that fills the table with other contents has one claim accepted, the
      attempt evicted by the next one, and the same claim accepted again at the same time. */
  lemma TwiceAfterEviction(seed: NodeId) returns (es: seq<Event>)
    ensures var n := MAX_PREPAY_ATTEMPTS;
            var start := Run(Books(1, 0, map[], map[], map[]), es);
            var first, other := Attempt(seed, n - 1, None), Attempt(seed, n, Some((seed, IdNo(n - 1))));
            var again := Attempt(seed, n - 1, Some((seed, IdNo(0))));
            && FaithfulRun(Books(1, 0, map[], map[], map[]), es)
            && Faithful(start, first) && Accepted(start, first)
            && Faithful(Step(start, first), other)
            && Faithful(Step(Step(start, first), other), again) && Accepted(Step(Step(start, first), other), again)
            && again.claim == first.claim && again.now == first.now
  {
    var n := MAX_PREPAY_ATTEMPTS;
    var empty := Books(1, 0, map[], map[], map[]);
    assert Tried(seed, 0) == {};
    var start;
    es, start := FillAll(empty, seed, 0, n - 1);
    FillOne(start, seed, n - 1);
    EvictedByNext(Step(start, Attempt(seed, n - 1, None)), seed);
  }

  /** The pair of content `gone` has left a full table of attempts of time 0. */
  predicate Missing(b: Books, seed: NodeId, gone: nat) {
    && (seed, IdNo(gone)) !in b.attempts && (seed, IdNo(0)) in b.attempts
    && |b.attempts| == MAX_PREPAY_ATTEMPTS && (forall pair :: pair in b.attempts ==> b.attempts[pair] == 0)
    && b.totalServed > b.totalReceived && seed in b.seeds && !b.seeds[seed].misbehaving
  }

  lemma EvictedByOther(b: Books, seed: NodeId)
    requires Filled(b, seed, MAX_PREPAY_ATTEMPTS)
    ensures var n := MAX_PREPAY_ATTEMPTS;
            var other := Attempt(seed, n, Some((seed, IdNo(n - 1))));
            Faithful(b, other) && Missing(Step(b, other), seed, n - 1)
  {
    var n := MAX_PREPAY_ATTEMPTS;
    NotYetTried(b, seed, n);
    var last, next := (seed, IdNo(n - 1)), (seed, IdNo(n));
    assert last in b.attempts && (seed, IdNo(0)) in b.attempts;
    if IdNo(n) == IdNo(n - 1) {
      IdsDiffer(n, n - 1);
    }
    if IdNo(0) == IdNo(n - 1) {
      IdsDiffer(0, n - 1);
    }
    var swapped := (b.attempts - {last})[next := 0];
    assert Step(b, Attempt(seed, n, Some(last))).attempts == swapped;
    assert swapped.Keys == (b.attempts.Keys - {last}) + {next};
  }

  lemma AcceptedAgain(b: Books, seed: NodeId, gone: nat)
    requires Missing(b, seed, gone)
    ensures var again := Attempt(seed, gone, Some((seed, IdNo(0))));
            Faithful(b, again) && Accepted(b, again)
  {
    assert Pruned(b.attempts, 0) == b.attempts;
  }

  lemma EvictedByNext(b: Books, seed: NodeId)
    requires Filled(b, seed, MAX_PREPAY_ATTEMPTS)
    ensures var n := MAX_PREPAY_ATTEMPTS;
            var other := Attempt(seed, n, Some((seed, IdNo(n - 1))));
            var again := Attempt(seed, n - 1, Some((seed, IdNo(0))));
            Faithful(b, other) && Faithful(Step(b, other), again) && Accepted(Step(b, other), again)
  {
    var n := MAX_PREPAY_ATTEMPTS;
    EvictedByOther(b, seed);
    AcceptedAgain(Step(b, Attempt(seed, n, Some((seed, IdNo(n - 1))))), seed, n - 1);
  }
}
