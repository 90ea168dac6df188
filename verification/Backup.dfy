/** Backup nodes: dormant copies that take over when their primary has fallen silent. */
module Backup {
  import opened Bytes
  import opened Swap
  import opened Storage

  type ContentId = Bytes32

  const DEFAULT_LEASE_DURATION_SECS: nat := 86400

  datatype Entry = Entry(primary: Option<NodeId>, isActive: bool, lastHeartbeat: nat, chunkIds: seq<ChunkId>)

  datatype Policy = Policy(timeout: nat, permanentTakeover: bool)

  /** What one tick reads from the rest of the node. */
  datatype Sight = Sight(resolved: Option<NodeId>, activity: map<NodeId, nat>, held: set<ChunkId>, now: nat)

  datatype Machine = Machine(
    entries: map<ContentId, Entry>, anyActive: bool, serving: bool, leases: map<ChunkId, Lease>)

  // ---------------------------------------------------------------- one tick

  function AutoEntry(chunk: ChunkId, now: nat): Entry {
    Entry(None, false, now, [chunk])
  }

  /** Every held chunk is tracked, under its own id unless it already is. */
  function Tracked(entries: map<ContentId, Entry>, held: set<ChunkId>, now: nat): map<ContentId, Entry> {
    map c | c in entries.Keys + held :: if c in entries then entries[c] else AutoEntry(c, now)
  }

  function WithHeld(entries: map<ContentId, Entry>, sight: Sight): map<ContentId, Entry> {
    Tracked(entries, sight.held, sight.now)
  }

  /** The primary is filled in once known, and anything heard from it is a heartbeat. */
  function Heard(e: Entry, sight: Sight): Entry {
    var primary := if e.primary.None? then sight.resolved else e.primary;
    var known := e.(primary := primary);
    if primary.Some? && primary.value in sight.activity && sight.activity[primary.value] > e.lastHeartbeat
    then known.(lastHeartbeat := sight.activity[primary.value]) else known
  }

  predicate Silent(e: Entry, policy: Policy, now: nat) {
    SatSub(now, e.lastHeartbeat) > policy.timeout
  }

  function Ticked(e: Entry, policy: Policy, sight: Sight): Entry {
    var heard := Heard(e, sight);
    if !heard.isActive && heard.primary.Some? && Silent(heard, policy, sight.now)
    then heard.(isActive := true) else heard
  }

  /** The tick renews the leases of this entry's chunks. */
  predicate Renews(e: Entry, policy: Policy, sight: Sight) {
    if e.isActive then policy.permanentTakeover else Heard(e, sight).primary.Some?
  }

  predicate Activates(e: Entry, policy: Policy, sight: Sight) {
    !e.isActive && Ticked(e, policy, sight).isActive
  }

  function TickEntries(entries: map<ContentId, Entry>, policy: Policy, sight: Sight): map<ContentId, Entry> {
    map c | c in entries :: Ticked(entries[c], policy, sight)
  }

  /** Some entry the tick renews has the chunk. */
  predicate Tracks(entries: map<ContentId, Entry>, policy: Policy, sight: Sight, chunk: ChunkId) {
    exists c :: c in entries && chunk in entries[c].chunkIds && Renews(entries[c], policy, sight)
  }

  function Renewed(entries: map<ContentId, Entry>, policy: Policy, sight: Sight, leases: map<ChunkId, Lease>)
      : set<ChunkId>
  {
    set id | id in leases && Tracks(entries, policy, sight, id)
  }

  function Extend(leases: map<ChunkId, Lease>, ids: set<ChunkId>, expiry: nat): map<ChunkId, Lease> {
    map id | id in leases ::
      if id in ids && leases[id].expiresAt < expiry then leases[id].(expiresAt := expiry) else leases[id]
  }

  function Activated(entries: map<ContentId, Entry>, policy: Policy, sight: Sight): set<ContentId> {
    set c | c in entries && Activates(entries[c], policy, sight)
  }

  function Tick(m: Machine, policy: Policy, sight: Sight): Machine {
    var entries := WithHeld(m.entries, sight);
    var any := Activated(entries, policy, sight) != {};
    Machine(
      TickEntries(entries, policy, sight), m.anyActive || any, m.serving || any,
      Extend(m.leases, Renewed(entries, policy, sight, m.leases), sight.now + DEFAULT_LEASE_DURATION_SECS))
  }

  function Register(m: Machine, content: ContentId, primary: NodeId, chunkIds: seq<ChunkId>, now: nat): Machine {
    m.(entries := m.entries[content := Entry(Some(primary), false, now, chunkIds)])
  }

  // ---------------------------------------------------------------- the node's methods

  class BackupNode {
    var entries: map<ContentId, Entry>
    var anyActive: bool
    var serving: bool
    var leases: map<ChunkId, Lease>

    function State(): Machine
      reads this
    {
      Machine(entries, anyActive, serving, leases)
    }

    constructor ()
      ensures State() == Machine(map[], false, false, map[])
    {
      entries, anyActive, serving, leases := map[], false, false, map[];
    }

    method RegisterBackupContent(content: ContentId, primary: NodeId, chunkIds: seq<ChunkId>, now: nat)
      modifies this
      ensures State() == Register(old(State()), content, primary, chunkIds, now)
    {
      entries := entries[content := Entry(Some(primary), false, now, chunkIds)];
    }

    method TrackHeld(sight: Sight)
      modifies this`entries
      ensures entries == WithHeld(old(entries), sight)
    {
      var todo := sight.held;
      ghost var before := entries;
      TrackNothing(before, sight.held - todo, sight.now);
      while todo != {}
        invariant todo <= sight.held
        invariant entries == Tracked(before, sight.held - todo, sight.now)
        decreases |todo|
      {
        var chunk :| chunk in todo;
        Sums.TakeOne(todo, sight.held, chunk);
        TrackMore(before, sight.held - todo, chunk, sight.now);
        if chunk !in entries {
          entries := entries[chunk := AutoEntry(chunk, sight.now)];
        }
        todo := todo - {chunk};
      }
      assert sight.held - todo == sight.held;
    }

    /** Visits every entry once; the ids to renew are collected on the way. */
    method TickAll(policy: Policy, sight: Sight) returns (activated: set<ContentId>, renew: set<ChunkId>)
      modifies this`entries
      ensures entries == TickEntries(old(entries), policy, sight)
      ensures activated == Activated(old(entries), policy, sight)
      ensures forall id :: id in renew <==> Tracks(old(entries), policy, sight, id)
    {
      var before := entries;
      var todo := before.Keys;
      activated, renew := {}, {};
      VisitedNone(before, policy, sight);
      while todo != {}
        invariant Visited(before, todo, policy, sight, entries, activated, renew)
        decreases |todo|
      {
        var c :| c in todo;
        VisitedMore(before, todo, policy, sight, entries, activated, renew, c);
        entries := entries[c := Ticked(before[c], policy, sight)];
        activated := activated + if Activates(before[c], policy, sight) then {c} else {};
        renew := renew + if Renews(before[c], policy, sight) then set id | id in before[c].chunkIds else {};
        todo := todo - {c};
      }
      VisitedAll(before, policy, sight, entries, activated, renew);
    }

    method HealthTick(policy: Policy, sight: Sight) returns (count: nat)
      modifies this
      ensures State() == Tick(old(State()), policy, sight)
      ensures count == |Activated(WithHeld(old(entries), sight), policy, sight)|
    {
      TrackHeld(sight);
      ghost var tracked := entries;
      var activated, renew := TickAll(policy, sight);
      if activated != {} {
        anyActive := true;
        serving := true;
      }
      ExtendBy(leases, renew, Renewed(tracked, policy, sight, leases), sight.now + DEFAULT_LEASE_DURATION_SECS);
      leases := Extend(leases, renew, sight.now + DEFAULT_LEASE_DURATION_SECS);
      count := |activated|;
    }
  }

  lemma TrackNothing(entries: map<ContentId, Entry>, none: set<ChunkId>, now: nat)
    requires none == {}
    ensures Tracked(entries, none, now) == entries
  {
  }

  lemma TrackMore(entries: map<ContentId, Entry>, done: set<ChunkId>, chunk: ChunkId, now: nat)
    ensures var t := Tracked(entries, done, now);
            Tracked(entries, done + {chunk}, now) == if chunk in t then t else t[chunk := AutoEntry(chunk, now)]
  {
  }

  /** The table when all but `todo` have been visited. */
  function Halfway(before: map<ContentId, Entry>, todo: set<ContentId>, policy: Policy, sight: Sight)
      : map<ContentId, Entry>
  {
    map c | c in before :: if c in todo then before[c] else Ticked(before[c], policy, sight)
  }

  lemma HalfwayMore(before: map<ContentId, Entry>, todo: set<ContentId>, c: ContentId, policy: Policy, sight: Sight)
    requires c in before
    ensures Halfway(before, todo - {c}, policy, sight)
            == Halfway(before, todo, policy, sight)[c := Ticked(before[c], policy, sight)]
  {
  }

  /** Where the loop over the entries stands when all but `todo` have been visited. */
  ghost predicate Visited(before: map<ContentId, Entry>, todo: set<ContentId>, policy: Policy, sight: Sight,
                          entries: map<ContentId, Entry>, activated: set<ContentId>, renew: set<ChunkId>) {
    && todo <= before.Keys
    && entries == Halfway(before, todo, policy, sight)
    && activated == Activated(before - todo, policy, sight)
    && forall id :: id in renew <==> Tracks(before - todo, policy, sight, id)
  }

  lemma VisitedNone(before: map<ContentId, Entry>, policy: Policy, sight: Sight)
    ensures Visited(before, before.Keys, policy, sight, before, {}, {})
  {
    assert before - before.Keys == map[];
  }

  lemma VisitedMore(before: map<ContentId, Entry>, todo: set<ContentId>, policy: Policy, sight: Sight,
                    entries: map<ContentId, Entry>, activated: set<ContentId>, renew: set<ChunkId>, c: ContentId)
    requires Visited(before, todo, policy, sight, entries, activated, renew) && c in todo
    ensures |todo - {c}| < |todo|
    ensures Visited(before, todo - {c}, policy, sight, entries[c := Ticked(before[c], policy, sight)],
                    activated + if Activates(before[c], policy, sight) then {c} else {},
                    renew + if Renews(before[c], policy, sight) then set id | id in before[c].chunkIds else {})
  {
    Sums.TakeOne(todo, before.Keys, c);
    HalfwayMore(before, todo, c, policy, sight);
    CollectMore(before, todo, c, policy, sight);
  }

  lemma VisitedAll(before: map<ContentId, Entry>, policy: Policy, sight: Sight,
                   entries: map<ContentId, Entry>, activated: set<ContentId>, renew: set<ChunkId>)
    requires Visited(before, {}, policy, sight, entries, activated, renew)
    ensures entries == TickEntries(before, policy, sight) && activated == Activated(before, policy, sight)
    ensures forall id :: id in renew <==> Tracks(before, policy, sight, id)
  {
    assert before - {} == before;
  }

  lemma CollectMore(before: map<ContentId, Entry>, todo: set<ContentId>, c: ContentId, policy: Policy, sight: Sight)
    requires c in before && c in todo
    ensures Activated(before - (todo - {c}), policy, sight)
         == Activated(before - todo, policy, sight) + if Activates(before[c], policy, sight) then {c} else {}
    ensures forall id :: Tracks(before - (todo - {c}), policy, sight, id) <==>
              Tracks(before - todo, policy, sight, id) || (Renews(before[c], policy, sight) && id in before[c].chunkIds)
  {
    var more, less := before - (todo - {c}), before - todo;
    forall id: ChunkId
      ensures Tracks(more, policy, sight, id) <==>
                Tracks(less, policy, sight, id) || (Renews(before[c], policy, sight) && id in before[c].chunkIds)
    {
      if Tracks(less, policy, sight, id) {
        var x :| x in less && id in less[x].chunkIds && Renews(less[x], policy, sight);
        assert x in more && more[x] == less[x];
      }
      if Renews(before[c], policy, sight) && id in before[c].chunkIds {
        assert c in more;
      }
      if Tracks(more, policy, sight, id) {
        var x :| x in more && id in more[x].chunkIds && Renews(more[x], policy, sight);
        assert x == c || x in less;
      }
    }
  }

  lemma ExtendBy(leases: map<ChunkId, Lease>, a: set<ChunkId>, b: set<ChunkId>, expiry: nat)
    requires forall id :: id in leases ==> (id in a <==> id in b)
    ensures Extend(leases, a, expiry) == Extend(leases, b, expiry)
  {
  }

  // ---------------------------------------------------------------- a tick in plain terms

  /** The entry for a content before a tick; a held chunk that is not tracked yet counts as a silent newcomer. */
  function EntryBefore(m: Machine, sight: Sight, c: ContentId): Entry
    requires c in m.entries || c in sight.held
  {
    if c in m.entries then m.entries[c] else Entry(None, false, sight.now, [c])
  }

  /** Its own primary, else the one resolved now. */
  function PrimaryOf(e: Entry, sight: Sight): Option<NodeId> {
    match e.primary
    case Some(p) => Some(p)
    case None => sight.resolved
  }

  /** Nothing heard from the primary within the timeout: neither the last heartbeat nor what is read now. */
  predicate FellSilent(e: Entry, p: NodeId, policy: Policy, sight: Sight) {
    && sight.now > e.lastHeartbeat + policy.timeout
    && (p in sight.activity ==> sight.now > sight.activity[p] + policy.timeout)
  }

  /** A tick, exactly: it tracks what it tracked and what is held; an entry keeps its chunks and its own primary
      and takes the resolved one only for a missing one; its heartbeat is the later of the two it has; and it
      is active if and only if it was, or its primary is known and has fallen silent. */
  lemma TickIsExact(m: Machine, policy: Policy, sight: Sight, c: ContentId)
    ensures c in Tick(m, policy, sight).entries <==> c in m.entries || c in sight.held
    ensures c in m.entries || c in sight.held ==>
              var before, after := EntryBefore(m, sight, c), Tick(m, policy, sight).entries[c];
              var p := PrimaryOf(before, sight);
              && after.chunkIds == before.chunkIds && after.primary == p
              && (after.isActive <==> before.isActive || (p.Some? && FellSilent(before, p.value, policy, sight)))
              && after.lastHeartbeat >= before.lastHeartbeat
              && (p.Some? && p.value in sight.activity ==> after.lastHeartbeat >= sight.activity[p.value])
              && (after.lastHeartbeat == before.lastHeartbeat
                  || (p.Some? && p.value in sight.activity && after.lastHeartbeat == sight.activity[p.value]))
  {
  }

  /** The entry stands for the chunk in this tick: a dormant one with a known primary always, an active one only
      where takeovers are permanent. */
  predicate StandsFor(m: Machine, policy: Policy, sight: Sight, c: ContentId, chunk: ChunkId) {
    && (c in m.entries || c in sight.held)
    && var e := EntryBefore(m, sight, c);
       && chunk in e.chunkIds
       && (if e.isActive then policy.permanentTakeover else PrimaryOf(e, sight).Some?)
  }

  /** The leases, exactly: one for which some entry stands runs for a day from now at least; nothing else about
      any lease changes, and no lease comes or goes. */
  lemma LeasesAreExact(m: Machine, policy: Policy, sight: Sight, chunk: ChunkId)
    ensures var after := Tick(m, policy, sight).leases;
            && (chunk in after <==> chunk in m.leases)
            && (chunk in m.leases ==>
                  var day := sight.now + 86_400;
                  var stands := exists c :: StandsFor(m, policy, sight, c, chunk);
                  after[chunk] == if stands && m.leases[chunk].expiresAt < day
                                  then m.leases[chunk].(expiresAt := day) else m.leases[chunk])
  {
    var entries := WithHeld(m.entries, sight);
    if c :| StandsFor(m, policy, sight, c, chunk) {
      assert c in entries && entries[c] == EntryBefore(m, sight, c) && Renews(entries[c], policy, sight);
    }
    if Tracks(entries, policy, sight, chunk) {
      var c :| c in entries && chunk in entries[c].chunkIds && Renews(entries[c], policy, sight);
      assert StandsFor(m, policy, sight, c, chunk);
    }
  }

  /** The entry is active now and was not, or was not tracked. */
  predicate TurnsActive(before: Machine, after: Machine, c: ContentId) {
    c in after.entries && after.entries[c].isActive && !(c in before.entries && before.entries[c].isActive)
  }

  /** Serving goes on with a tick that turns an entry active, and with nothing else. */
  lemma ServingIsExact(m: Machine, policy: Policy, sight: Sight)
    ensures var after := Tick(m, policy, sight);
            && (after.serving <==> m.serving || exists c :: TurnsActive(m, after, c))
            && (after.anyActive <==> m.anyActive || exists c :: TurnsActive(m, after, c))
  {
    var entries, after := WithHeld(m.entries, sight), Tick(m, policy, sight);
    if c :| TurnsActive(m, after, c) {
      assert c in Activated(entries, policy, sight);
    }
    if Activated(entries, policy, sight) != {} {
      var c :| c in Activated(entries, policy, sight);
      assert TurnsActive(m, after, c);
    }
  }

  // ---------------------------------------------------------------- runs

  datatype Event =
    | TickAt(sight: Sight)
    | Registered(content: ContentId, primary: NodeId, chunkIds: seq<ChunkId>, now: nat)
    | LeasesSet(leases: map<ChunkId, Lease>)

  function Step(m: Machine, policy: Policy, e: Event): Machine {
    match e
    case TickAt(sight) => Tick(m, policy, sight)
    case Registered(content, primary, chunkIds, now) => Register(m, content, primary, chunkIds, now)
    case LeasesSet(leases) => m.(leases := leases)
  }

  function Run(m: Machine, policy: Policy, es: seq<Event>): Machine {
    if es == [] then m else Step(Run(m, policy, es[..|es| - 1]), policy, es[|es| - 1])
  }

  /** An entry is activated by the event. */
  predicate ActivatedBy(m: Machine, policy: Policy, e: Event, c: ContentId) {
    e.TickAt? && c in WithHeld(m.entries, e.sight) && Activates(WithHeld(m.entries, e.sight)[c], policy, e.sight)
  }

  predicate Activating(m: Machine, policy: Policy, e: Event) {
    e.TickAt? && Activated(WithHeld(m.entries, e.sight), policy, e.sight) != {}
  }

  /** Some tick of the run has activated an entry. */
  predicate SomeActivation(m: Machine, policy: Policy, es: seq<Event>) {
    es != [] &&
    (SomeActivation(m, policy, es[..|es| - 1]) || Activating(Run(m, policy, es[..|es| - 1]), policy, es[|es| - 1]))
  }

  lemma ServingStep(m: Machine, policy: Policy, e: Event)
    ensures Step(m, policy, e).serving == (m.serving || Activating(m, policy, e))
    ensures Step(m, policy, e).anyActive == (m.anyActive || Activating(m, policy, e))
  {
  }

  /** Serving is on exactly when some tick has activated an entry. */
  lemma {:induction false} ServingIffActivated(m: Machine, policy: Policy, es: seq<Event>)
    requires !m.serving && !m.anyActive
    ensures Run(m, policy, es).serving <==> SomeActivation(m, policy, es)
    ensures Run(m, policy, es).anyActive == Run(m, policy, es).serving
  {
    if es != [] {
      ServingIffActivated(m, policy, es[..|es| - 1]);
      ServingStep(Run(m, policy, es[..|es| - 1]), policy, es[|es| - 1]);
    }
  }

  predicate Reregisters(e: Event, c: ContentId) {
    e.Registered? && e.content == c
  }

  predicate NotReregistered(es: seq<Event>, c: ContentId) {
    forall i :: 0 <= i < |es| ==> !Reregisters(es[i], c)
  }

  /** What an entry keeps while it is not registered anew. */
  predicate Descends(was: Entry, now: Entry) {
    && now.chunkIds == was.chunkIds
    && now.lastHeartbeat >= was.lastHeartbeat
    && (was.primary.Some? ==> now.primary == was.primary)
    && (was.isActive ==> now.isActive)
  }

  lemma EntryStep(m: Machine, policy: Policy, e: Event, c: ContentId)
    requires c in m.entries && !Reregisters(e, c)
    ensures c in Step(m, policy, e).entries
    ensures Descends(m.entries[c], Step(m, policy, e).entries[c])
  {
  }

  lemma StillNotReregistered(es: seq<Event>, i: nat, c: ContentId)
    requires i < |es| && NotReregistered(es[i..], c)
    ensures NotReregistered(es[..|es| - 1][i..], c) && !Reregisters(es[|es| - 1], c)
  {
    var n := |es| - 1;
    assert es[i..][n - i] == es[n];
    assert es[..n][i..] == es[i..][..n - i];
  }

  /** While an entry is not registered anew its heartbeat never goes back, and neither a known primary
      nor being active is forgotten. */
  lemma {:induction false} EntryKept(m: Machine, policy: Policy, es: seq<Event>, i: nat, c: ContentId)
    requires i <= |es| && c in Run(m, policy, es[..i]).entries && NotReregistered(es[i..], c)
    ensures c in Run(m, policy, es).entries
    ensures Descends(Run(m, policy, es[..i]).entries[c], Run(m, policy, es).entries[c])
    decreases |es|
  {
    if i == |es| {
      assert es[..i] == es;
    } else {
      var n := |es| - 1;
      assert es[..n][..i] == es[..i];
      StillNotReregistered(es, i, c);
      EntryKept(m, policy, es[..n], i, c);
      EntryStep(Run(m, policy, es[..n]), policy, es[n], c);
    }
  }

  /** Tick `i` of the run read activity of `p`, which was (or became) the entry's primary then, and
      the entry has not been registered anew since. */
  predicate HeardSince(m: Machine, policy: Policy, es: seq<Event>, i: nat, c: ContentId, p: NodeId) {
    && i < |es| && es[i].TickAt? && p in es[i].sight.activity
    && c in Run(m, policy, es[..i + 1]).entries && Run(m, policy, es[..i + 1]).entries[c].primary == Some(p)
    && NotReregistered(es[i + 1..], c)
  }

  /** A tick leaves no entry with a heartbeat older than what it read from the entry's primary. */
  lemma TickHears(m: Machine, policy: Policy, sight: Sight, c: ContentId, p: NodeId)
    requires c in Tick(m, policy, sight).entries && Tick(m, policy, sight).entries[c].primary == Some(p)
    requires p in sight.activity
    ensures sight.activity[p] <= Tick(m, policy, sight).entries[c].lastHeartbeat
  {
  }

  lemma ReadingKept(m: Machine, policy: Policy, es: seq<Event>, i: nat, c: ContentId, p: NodeId)
    requires HeardSince(m, policy, es, i, c, p)
    ensures c in Run(m, policy, es).entries && Run(m, policy, es).entries[c].primary == Some(p)
    ensures es[i].sight.activity[p] <= Run(m, policy, es).entries[c].lastHeartbeat
  {
    assert es[..i + 1][..i] == es[..i];
    TickHears(Run(m, policy, es[..i]), policy, es[i].sight, c, p);
    EntryKept(m, policy, es, i + 1, c);
  }

  predicate SilentSince(now: nat, reading: nat, policy: Policy) {
    SatSub(now, reading) > policy.timeout
  }

  /** Every reading of `p` in the run is no later than what the last tick reads. */
  predicate NeverBack(es: seq<Event>, last: Sight, p: NodeId) {
    forall i :: 0 <= i < |es| && es[i].TickAt? && p in es[i].sight.activity ==>
      p in last.activity && es[i].sight.activity[p] <= last.activity[p]
  }

  /** Whatever the run before it, an entry that a tick activates has a known primary (resolved in that
      very tick, perhaps) that was silent longer than the timeout by this tick's reading, by every
      reading since the entry knew it, by every earlier reading too if readings never go back, and
      since every time at which the entry was tracked with the registration it still has. */
  lemma ActivationMeansSilence(m: Machine, policy: Policy, es: seq<Event>, last: Event, c: ContentId)
    requires ActivatedBy(Run(m, policy, es), policy, last, c)
    ensures var sight := last.sight;
            var heard := Heard(WithHeld(Run(m, policy, es).entries, sight)[c], sight);
            && heard.primary.Some?
            && var p := heard.primary.value;
            && (p in sight.activity ==> SilentSince(sight.now, sight.activity[p], policy))
            && (forall i: nat :: HeardSince(m, policy, es, i, c, p) ==>
                  SilentSince(sight.now, es[i].sight.activity[p], policy))
            && (NeverBack(es, sight, p) ==>
                  forall i :: 0 <= i < |es| && es[i].TickAt? && p in es[i].sight.activity ==>
                    SilentSince(sight.now, es[i].sight.activity[p], policy))
            && (forall i :: 0 <= i <= |es| && c in Run(m, policy, es[..i]).entries && NotReregistered(es[i..], c) ==>
                  SilentSince(sight.now, Run(m, policy, es[..i]).entries[c].lastHeartbeat, policy))
  {
    var sight := last.sight;
    var heard := Heard(WithHeld(Run(m, policy, es).entries, sight)[c], sight);
    var p := heard.primary.value;
    forall i: nat | HeardSince(m, policy, es, i, c, p) ensures SilentSince(sight.now, es[i].sight.activity[p], policy) {
      ReadingKept(m, policy, es, i, c, p);
    }
    forall i | 0 <= i <= |es| && c in Run(m, policy, es[..i]).entries && NotReregistered(es[i..], c)
      ensures SilentSince(sight.now, Run(m, policy, es[..i]).entries[c].lastHeartbeat, policy)
    {
      EntryKept(m, policy, es, i, c);
    }
  }

  /** An activated entry stays active until it is registered anew. */
  lemma ActiveStays(m: Machine, policy: Policy, es: seq<Event>, i: nat, c: ContentId)
    requires i < |es| && ActivatedBy(Run(m, policy, es[..i]), policy, es[i], c) && NotReregistered(es[i + 1..], c)
    ensures c in Run(m, policy, es).entries && Run(m, policy, es).entries[c].isActive
  {
    assert es[..i + 1][..i] == es[..i];
    EntryKept(m, policy, es, i + 1, c);
  }

  /** Nothing is heard of the primary later than `t`, and the content is not registered anew. */
  predicate QuietSince(es: seq<Event>, c: ContentId, p: NodeId, t: nat) {
    forall i :: 0 <= i < |es| ==>
      && !Reregisters(es[i], c)
      && (es[i].TickAt? && p in es[i].sight.activity ==> es[i].sight.activity[p] <= t)
  }

  lemma {:induction false} QuietEntry(m: Machine, policy: Policy, c: ContentId, p: NodeId, ids: seq<ChunkId>, t: nat,
                                      es: seq<Event>)
    requires QuietSince(es, c, p, t)
    ensures var after := Run(Register(m, c, p, ids, t), policy, es).entries;
            c in after && after[c].primary == Some(p) && after[c].lastHeartbeat == t && after[c].chunkIds == ids
  {
    if es != [] {
      var n := |es| - 1;
      QuietEntry(m, policy, c, p, ids, t, es[..n]);
      if es[n].TickAt? {
        TickIsExact(Run(Register(m, c, p, ids, t), policy, es[..n]), policy, es[n].sight, c);
      }
    }
  }

  /** Content registered at `t` whose primary is not heard of again is taken over by the first tick later than
      the timeout after `t`, whatever else happens, and stays so. */
  lemma SilentPrimaryIsReplaced(m: Machine, policy: Policy, c: ContentId, p: NodeId, ids: seq<ChunkId>, t: nat,
                                es: seq<Event>, sight: Sight)
    requires QuietSince(es, c, p, t) && (p in sight.activity ==> sight.activity[p] <= t)
    requires sight.now > t + policy.timeout
    ensures var after := Run(Register(m, c, p, ids, t), policy, es + [TickAt(sight)]);
            c in after.entries && after.entries[c].isActive && after.entries[c].chunkIds == ids
  {
    QuietEntry(m, policy, c, p, ids, t, es);
    var before := Run(Register(m, c, p, ids, t), policy, es);
    assert (es + [TickAt(sight)])[..|es|] == es;
    TickIsExact(before, policy, sight, c);
  }

  /** An entry made before its primary was known can be resolved and activated in one tick. */
  lemma ResolvedAndActivatedAtOnce(policy: Policy, c: ContentId, p: NodeId)
    ensures var m := Machine(map[c := AutoEntry(c, 0)], false, false, map[]);
            ActivatedBy(m, policy, TickAt(Sight(Some(p), map[], {}, policy.timeout + 1)), c)
  {
  }

  // ---------------------------------------------------------------- leases

  /** After a tick a lease runs for at least one more full duration exactly when it did already or
      some entry the tick renews has the chunk. */
  lemma TickProtects(m: Machine, policy: Policy, sight: Sight, chunk: ChunkId)
    requires chunk in m.leases
    ensures var after := Tick(m, policy, sight);
            var full := sight.now + DEFAULT_LEASE_DURATION_SECS;
            && chunk in after.leases
            && (after.leases[chunk].expiresAt >= full <==>
                  m.leases[chunk].expiresAt >= full || Tracks(WithHeld(m.entries, sight), policy, sight, chunk))
  {
    var entries := WithHeld(m.entries, sight);
    assert chunk in Renewed(entries, policy, sight, m.leases) <==> Tracks(entries, policy, sight, chunk);
  }

  /** With permanent takeover every entry whose primary is known is renewed, dormant or active, one
      that the tick itself makes for a held chunk included. */
  lemma PermanentTakeoverRenews(m: Machine, policy: Policy, sight: Sight, c: ContentId, chunk: ChunkId)
    requires policy.permanentTakeover && c in WithHeld(m.entries, sight)
    requires chunk in WithHeld(m.entries, sight)[c].chunkIds
    requires WithHeld(m.entries, sight)[c].primary.Some? || sight.resolved.Some?
    ensures Tracks(WithHeld(m.entries, sight), policy, sight, chunk)
  {
  }

  /** Other work on the leases leaves the chunk's lease at least this long. */
  predicate LeaseKept(es: seq<Event>, chunk: ChunkId, expiry: nat) {
    forall i :: 0 <= i < |es| && es[i].LeasesSet? ==> chunk in es[i].leases && es[i].leases[chunk].expiresAt >= expiry
  }

  lemma {:induction false} LeaseStaysLong(m: Machine, policy: Policy, es: seq<Event>, chunk: ChunkId, expiry: nat)
    requires chunk in m.leases && m.leases[chunk].expiresAt >= expiry && LeaseKept(es, chunk, expiry)
    ensures chunk in Run(m, policy, es).leases && Run(m, policy, es).leases[chunk].expiresAt >= expiry
  {
    if es != [] {
      LeaseStaysLong(m, policy, es[..|es| - 1], chunk, expiry);
    }
  }

  /** With permanent takeover and a known primary, after a tick and whatever else happens that does not
      shorten the lease, a sweep within one lease duration of the tick (grace included) does not take a
      tracked chunk. */
  lemma {:induction false} TakeoverKeepsChunks(
      m: Machine, policy: Policy, sight: Sight, es: seq<Event>, c: ContentId, chunk: ChunkId, sweepAt: nat)
    requires policy.permanentTakeover && c in WithHeld(m.entries, sight)
    requires chunk in WithHeld(m.entries, sight)[c].chunkIds
    requires WithHeld(m.entries, sight)[c].primary.Some? || sight.resolved.Some?
    requires chunk in m.leases && LeaseKept(es, chunk, sight.now + DEFAULT_LEASE_DURATION_SECS)
    requires sweepAt <= sight.now + DEFAULT_LEASE_DURATION_SECS + GRACE_PERIOD_SECS
    ensures chunk !in ExpiredLeases(Run(Tick(m, policy, sight), policy, es).leases, sweepAt)
  {
    PermanentTakeoverRenews(m, policy, sight, c, chunk);
    TickProtects(m, policy, sight, chunk);
    LeaseStaysLong(Tick(m, policy, sight), policy, es, chunk, sight.now + DEFAULT_LEASE_DURATION_SECS);
  }
}
