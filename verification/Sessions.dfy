/** Concurrent reassembly sessions in a bounded first-in-first-out table. */
module Sessions {
  import opened FifoTable
  import Fragment

  const MAX_REASSEMBLER_MESSAGES: nat := 64

  type MessageId = nat
  type Sessions = Table<MessageId, Fragment.Reassembly>

  function GetOrCreate(t: Sessions, id: MessageId, now: nat): (s: Sessions)
    ensures id in s.entries
  {
    if id in t.entries then t else Insert(t, MAX_REASSEMBLER_MESSAGES, id, Fragment.Fresh(now))
  }

  /** Junk never opens a session; anything else goes to the session of its own message. */
  function AddTo(t: Sessions, id: MessageId, f: Fragment.Fragment, now: nat): (Sessions, bool) {
    if !Fragment.WellNumbered(f) then (t, false)
    else
      var ready := GetOrCreate(t, id, now);
      var (r, isNew) := Fragment.Add(ready.entries[id], f);
      (ready.(entries := ready.entries[id := r]), isNew)
  }

  function Expired(t: Sessions, now: nat, timeout: nat): set<MessageId> {
    set id | id in t.entries && Fragment.IsExpired(t.entries[id], now, timeout)
  }

  class ReassemblyManager {
    var sessions: map<MessageId, Fragment.Reassembly>
    var order: seq<MessageId>

    function State(): Sessions
      reads this
    {
      Table(sessions, order)
    }

    constructor ()
      ensures State() == Table(map[], [])
    {
      sessions, order := map[], [];
    }

    method GetOrCreateSession(id: MessageId, now: nat)
      modifies this
      ensures State() == GetOrCreate(old(State()), id, now)
    {
      if id !in sessions {
        if |sessions| >= MAX_REASSEMBLER_MESSAGES {
          if order != [] {
            sessions := sessions - {order[0]};
            order := order[1..];
          }
        }
        sessions := sessions[id := Fragment.Fresh(now)];
        order := order + [id];
      }
    }

    method AddFragment(id: MessageId, f: Fragment.Fragment, now: nat) returns (isNew: bool)
      modifies this
      ensures (State(), isNew) == AddTo(old(State()), id, f, now)
    {
      if f.total == 0 || f.total > Fragment.MAX_FRAGMENTS_PER_MESSAGE || f.id >= f.total {
        return false;
      }
      GetOrCreateSession(id, now);
      var (r, taken) := Fragment.Add(sessions[id], f);
      sessions := sessions[id := r];
      isNew := taken;
    }

    method Remove(id: MessageId) returns (existed: bool)
      modifies this
      ensures existed == (id in old(sessions))
      ensures State() == if existed then RemoveAll(old(State()), {id}) else old(State())
    {
      existed := id in sessions;
      if existed {
        sessions := sessions - {id};
        order := Without(order, {id});
      }
    }

    /** The expired ids are visited in no particular order. */
    method CleanupExpired(now: nat, timeout: nat) returns (n: nat)
      modifies this
      ensures State() == RemoveAll(old(State()), Expired(old(State()), now, timeout))
      ensures n == |Expired(old(State()), now, timeout)|
    {
      var expired := Expired(State(), now, timeout);
      n := |expired|;
      var left := RemoveEach(State(), expired);
      sessions, order := left.entries, left.order;
    }
  }

  /** Cleanup, exactly: a session stays, as it is, if and only if it was opened less than the timeout ago. */
  lemma CleanupIsExact(t: Sessions, now: nat, timeout: nat, id: MessageId)
    ensures var after := RemoveAll(t, Expired(t, now, timeout)).entries;
            && (id in after <==> id in t.entries && timeout > 0 && now < t.entries[id].createdAt + timeout)
            && (id in after ==> after[id] == t.entries[id])
  {
  }

  // ---------------------------------------------------------------- runs

  datatype Event =
    | Feed(now: nat, id: MessageId, f: Fragment.Fragment)
    | Remove(id: MessageId)
    | Cleanup(now: nat, timeout: nat)

  function Step(t: Sessions, e: Event): Sessions {
    match e
    case Feed(now, id, f) => AddTo(t, id, f, now).0
    case Remove(id) => RemoveAll(t, {id})
    case Cleanup(now, timeout) => RemoveAll(t, Expired(t, now, timeout))
  }

  function Run(t: Sessions, es: seq<Event>): Sessions
    decreases |es|
  {
    if es == [] then t else Run(Step(t, es[0]), es[1..])
  }

  ghost predicate Ordered(t: Sessions) {
    Mirror(t, MAX_REASSEMBLER_MESSAGES)
  }

  // ---------------------------------------------------------------- oldest first

  ghost function Ages(t: Sessions): map<MessageId, nat> {
    map k | k in t.entries :: t.entries[k].createdAt
  }

  /** Sessions stand in the queue in order of creation, none from the future. */
  ghost predicate Aged(t: Sessions, now: nat) {
    && Ordered(t)
    && Sorted(t.order, Ages(t))
    && (forall k :: k in t.entries ==> t.entries[k].createdAt <= now)
  }

  /** A run read off a clock that never goes back. */
  predicate Timely(es: seq<Event>, now: nat)
    decreases |es|
  {
    es == [] ||
    if es[0].Remove? then Timely(es[1..], now)
    else now <= es[0].now && Timely(es[1..], es[0].now)
  }

  lemma RemoveKeepsAge(t: Sessions, dead: set<MessageId>, now: nat)
    requires Aged(t, now)
    ensures Aged(RemoveAll(t, dead), now)
  {
    RemoveKeeps(t, dead, MAX_REASSEMBLER_MESSAGES);
    WithoutMembers(t.order, dead);
    WithoutSorted(t.order, dead, Ages(t));
    SortedSame(Without(t.order, dead), Ages(t), Ages(RemoveAll(t, dead)));
  }

  lemma CreateKeepsAge(t: Sessions, id: MessageId, now: nat)
    requires Aged(t, now)
    ensures Aged(GetOrCreate(t, id, now), now)
  {
    if id !in t.entries {
      InsertKeeps(t, MAX_REASSEMBLER_MESSAGES, id, Fragment.Fresh(now));
      RoomKeeps(t, MAX_REASSEMBLER_MESSAGES);
      var room, s := MakeRoom(t, MAX_REASSEMBLER_MESSAGES), GetOrCreate(t, id, now);
      SortedSame(room.order, Ages(t), Ages(s));
      SortedAppend(room.order, id, Ages(s));
    }
  }

  lemma FeedKeepsAge(t: Sessions, id: MessageId, f: Fragment.Fragment, now: nat)
    requires Aged(t, now)
    ensures Aged(AddTo(t, id, f, now).0, now)
  {
    if Fragment.WellNumbered(f) {
      CreateKeepsAge(t, id, now);
      var ready := GetOrCreate(t, id, now);
      var s := AddTo(t, id, f, now).0;
      UpdateKeeps(ready, MAX_REASSEMBLER_MESSAGES, id, s.entries[id]);
      SortedSame(s.order, Ages(ready), Ages(s));
    }
  }

  lemma StepKeepsAge(t: Sessions, e: Event, now: nat)
    requires Aged(t, now) && (e.Remove? || now <= e.now)
    ensures Aged(Step(t, e), if e.Remove? then now else e.now)
  {
    match e
    case Feed(later, id, f) =>
      assert Aged(t, later);
      FeedKeepsAge(t, id, f, later);
    case Remove(id) => RemoveKeepsAge(t, {id}, now);
    case Cleanup(later, timeout) => RemoveKeepsAge(t, Expired(t, later, timeout), now);
  }

  ghost function Clock(es: seq<Event>, now: nat): nat
    decreases |es|
  {
    if es == [] then now else Clock(es[1..], if es[0].Remove? then now else es[0].now)
  }

  lemma {:induction false} RunKeepsAge(t: Sessions, es: seq<Event>, now: nat)
    requires Aged(t, now) && Timely(es, now)
    ensures Aged(Run(t, es), Clock(es, now))
    decreases |es|
  {
    if es != [] {
      StepKeepsAge(t, es[0], now);
      RunKeepsAge(Step(t, es[0]), es[1..], if es[0].Remove? then now else es[0].now);
    }
  }

  /** Only a full table loses a session to a new one, and it loses one of the oldest. */
  lemma EvictsOldest(t: Sessions, id: MessageId, f: Fragment.Fragment, now: nat, clock: nat, victim: MessageId,
        k: MessageId)
    requires Aged(t, clock) && victim in t.entries && victim !in Step(t, Feed(now, id, f)).entries && k in t.entries
    ensures |t.entries| == MAX_REASSEMBLER_MESSAGES && id !in t.entries
    ensures t.entries[victim].createdAt <= t.entries[k].createdAt
  {
    assert victim == t.order[0];
    assert k in t.order && t.order == [victim] + t.order[1..];
  }

  /** In every run from the empty table the queue mirrors the map within the bound, and a session
      that another message's fragment pushes out is one of the oldest of a full table. */
  lemma SessionTableInvariant(es: seq<Event>, id: MessageId, f: Fragment.Fragment, now: nat, victim: MessageId,
        k: MessageId)
    requires Timely(es, 0)
    ensures var t := Run(Table(map[], []), es);
            && Ordered(t)
            && (victim in t.entries && k in t.entries && victim !in Step(t, Feed(now, id, f)).entries ==>
                  && |t.entries| == MAX_REASSEMBLER_MESSAGES
                  && id !in t.entries
                  && t.entries[victim].createdAt <= t.entries[k].createdAt)
  {
    var empty: Sessions := Table(map[], []);
    RunKeepsAge(empty, es, 0);
    var t := Run(empty, es);
    if victim in t.entries && k in t.entries && victim !in Step(t, Feed(now, id, f)).entries {
      EvictsOldest(t, id, f, now, Clock(es, 0), victim, k);
    }
  }

  // ---------------------------------------------------------------- independence

  /** The fragments of one message, in order of arrival. */
  function Own(es: seq<Event>, id: MessageId): seq<Fragment.Fragment> {
    if es == [] then []
    else (if es[0].Feed? && es[0].id == id then [es[0].f] else []) + Own(es[1..], id)
  }

  /** The session is never evicted, removed or expired. */
  predicate Stays(t: Sessions, es: seq<Event>, id: MessageId)
    decreases |es|
  {
    id in t.entries && (es == [] || Stays(Step(t, es[0]), es[1..], id))
  }

  lemma StepElsewhere(t: Sessions, e: Event, id: MessageId)
    requires id in t.entries && id in Step(t, e).entries
    ensures Step(t, e).entries[id] == Fragment.Feed(t.entries[id], Own([e], id))
  {
    if e.Feed? && e.id == id {
      assert Own([e], id) == [e.f];
      assert Fragment.Feed(t.entries[id], [e.f]) == Fragment.Add(t.entries[id], e.f).0;
    } else {
      assert Own([e], id) == [];
    }
  }

  lemma {:induction false} FeedConcat(r: Fragment.Reassembly, a: seq<Fragment.Fragment>, b: seq<Fragment.Fragment>)
    ensures Fragment.Feed(r, a + b) == Fragment.Feed(Fragment.Feed(r, a), b)
    decreases |a|
  {
    if a == [] {
      assert a + b == b;
    } else {
      assert (a + b)[1..] == a[1..] + b;
      FeedConcat(Fragment.Add(r, a[0]).0, a[1..], b);
    }
  }

  lemma OwnFirst(es: seq<Event>, id: MessageId)
    requires es != []
    ensures Own(es, id) == Own([es[0]], id) + Own(es[1..], id)
  {
    assert Own([es[0]][1..], id) == [];
  }

  lemma {:induction false} StayingSession(t: Sessions, es: seq<Event>, id: MessageId)
    requires Stays(t, es, id)
    ensures id in Run(t, es).entries
    ensures Run(t, es).entries[id] == Fragment.Feed(t.entries[id], Own(es, id))
    decreases |es|
  {
    if es != [] {
      StepElsewhere(t, es[0], id);
      StayingSession(Step(t, es[0]), es[1..], id);
      OwnFirst(es, id);
      FeedConcat(t.entries[id], Own([es[0]], id), Own(es[1..], id));
    }
  }

  /** From its first fragment, for as long as it stays, a session holds what a reassembler fed only
      its own fragments would hold, whatever happens to the other sessions. */
  lemma SessionIsLoneReassembler(t: Sessions, now: nat, id: MessageId, f: Fragment.Fragment, es: seq<Event>)
    requires id !in t.entries && Stays(Step(t, Feed(now, id, f)), es, id)
    ensures Run(t, [Feed(now, id, f)] + es).entries.Keys >= {id}
    ensures Run(t, [Feed(now, id, f)] + es).entries[id] == Fragment.Feed(Fragment.Fresh(now), [f] + Own(es, id))
  {
    var first := Feed(now, id, f);
    StayingSession(Step(t, first), es, id);
    assert ([first] + es)[1..] == es;
    assert ([f] + Own(es, id))[1..] == Own(es, id);
  }
}
