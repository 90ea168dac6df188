/** The requester's table of pending chunk retrievals. */
module Retrieval {
  import opened Bytes
  import opened FifoTable
  import Delivery
  import Fragment

  const MAX_PENDING_RETRIEVALS: nat := 64

  type ChunkId = Bytes32

  datatype Pending = Pending(reassembly: Fragment.Reassembly, createdAt: nat)

  type Retrievals = Table<ChunkId, Pending>

  datatype RetrievalError = InvalidFragment | NoMatchingRetrieval | ReassemblyFailed | InvalidResponse

  /** Asking again refreshes the age and the queue position and keeps what has arrived. */
  function Start(t: Retrievals, id: ChunkId, now: nat): Retrievals {
    if id in t.entries then
      Table(t.entries[id := t.entries[id].(createdAt := now)], Without(t.order, {id}) + [id])
    else
      Insert(t, MAX_PENDING_RETRIEVALS, id, Pending(Fragment.Fresh(now), now))
  }

  function Expired(t: Retrievals, now: nat, timeout: nat): set<ChunkId> {
    set id | id in t.entries && SatSub(now, t.entries[id].createdAt) >= timeout
  }

  function Candidates(t: Retrievals, f: Fragment.Fragment): set<ChunkId> {
    set id | id in t.entries && Fragment.CanAccept(t.entries[id].reassembly, f)
  }

  function Taken(t: Retrievals, target: ChunkId, f: Fragment.Fragment): Retrievals
    requires target in t.entries
  {
    var p := t.entries[target];
    t.(entries := t.entries[target := p.(reassembly := Fragment.Add(p.reassembly, f).0)])
  }

  /** A fragment goes into `target`, one of the sessions that can take it. When that completes the
      session, both the session and the chunk named in the response are dropped. `parse` reads the
      chunk id of a response. */
  function Process(t: Retrievals, body: seq<byte>, target: Option<ChunkId>, parse: seq<byte> -> Option<ChunkId>)
    : (Retrievals, Result<Option<ChunkId>, RetrievalError>)
    requires target.Some? ==> target.value in t.entries
  {
    match Fragment.Decode(body)
    case Err(_) => (t, Err(InvalidFragment))
    case Ok(f) =>
      if !Fragment.WellNumbered(f) then (t, Err(InvalidFragment))
      else if target.None? then (t, Err(NoMatchingRetrieval))
      else
        var next := Taken(t, target.value, f);
        if !Fragment.Add(t.entries[target.value].reassembly, f).1 then (next, Err(NoMatchingRetrieval))
        else if !Fragment.IsComplete(next.entries[target.value].reassembly) then (next, Ok(None))
        else Settle(next, target.value, Fragment.Reassemble(next.entries[target.value].reassembly), parse)
  }

  /** A complete session is answered and dropped, unless its bytes are no response. */
  function Settle(t: Retrievals, target: ChunkId, joined: Result<seq<byte>, Fragment.FragmentError>,
                  parse: seq<byte> -> Option<ChunkId>): (Retrievals, Result<Option<ChunkId>, RetrievalError>)
  {
    match joined
    case Err(_) => (t, Err(ReassemblyFailed))
    case Ok(data) =>
      match parse(data)
      case None => (t, Err(InvalidResponse))
      case Some(id) => (RemoveAll(t, {id, target}), Ok(Some(id)))
  }

  /** The scan finds some session that can take the fragment, or there is none. */
  predicate Found(t: Retrievals, body: seq<byte>, target: Option<ChunkId>) {
    match Fragment.Decode(body)
    case Err(_) => target == None
    case Ok(f) =>
      if Candidates(t, f) == {} then target == None
      else target.Some? && target.value in Candidates(t, f)
  }

  class RetrievalManager {
    var pending: map<ChunkId, Pending>
    var order: seq<ChunkId>

    function State(): Retrievals
      reads this
    {
      Table(pending, order)
    }

    constructor ()
      ensures State() == Table(map[], [])
    {
      pending, order := map[], [];
    }

    method StartRetrieval(id: ChunkId, now: nat)
      modifies this
      ensures State() == Start(old(State()), id, now)
    {
      if id in pending {
        order := Without(order, {id});
        order := order + [id];
        pending := pending[id := pending[id].(createdAt := now)];
        return;
      }
      if |pending| >= MAX_PENDING_RETRIEVALS {
        if order != [] {
          pending := pending - {order[0]};
          order := order[1..];
        }
      }
      pending := pending[id := Pending(Fragment.Fresh(now), now)];
      order := order + [id];
    }

    method CleanupExpired(now: nat, timeout: nat) returns (n: nat)
      modifies this
      ensures State() == RemoveAll(old(State()), Expired(old(State()), now, timeout))
      ensures n == |Expired(old(State()), now, timeout)|
    {
      var expired := Expired(State(), now, timeout);
      n := |expired|;
      var left := RemoveEach(State(), expired);
      pending, order := left.entries, left.order;
    }

    method ProcessFragment(body: seq<byte>, parse: seq<byte> -> Option<ChunkId>)
      returns (result: Result<Option<ChunkId>, RetrievalError>, ghost target: Option<ChunkId>)
      modifies this
      ensures Found(old(State()), body, target)
      ensures (State(), result) == Process(old(State()), body, target, parse)
    {
      target := None;
      var decoded := Fragment.Decode(body);
      if decoded.Err? {
        return Err(InvalidFragment), None;
      }
      var f := decoded.value;
      if f.total == 0 || f.total > Fragment.MAX_FRAGMENTS_PER_MESSAGE || f.id >= f.total {
        assert Candidates(State(), f) == {};
        return Err(InvalidFragment), None;
      }
      if Candidates(State(), f) == {} {
        return Err(NoMatchingRetrieval), None;
      }
      var id :| id in Candidates(State(), f);
      target := Some(id);
      var (r, isNew) := Fragment.Add(pending[id].reassembly, f);
      pending := pending[id := pending[id].(reassembly := r)];
      if !isNew {
        return Err(NoMatchingRetrieval), target;
      }
      if Fragment.IsComplete(r) {
        result := Finish(id, Fragment.Reassemble(r), parse);
      } else {
        result := Ok(None);
      }
    }

    method Finish(target: ChunkId, joined: Result<seq<byte>, Fragment.FragmentError>,
          parse: seq<byte> -> Option<ChunkId>)
      returns (result: Result<Option<ChunkId>, RetrievalError>)
      modifies this
      ensures (State(), result) == Settle(old(State()), target, joined, parse)
    {
      if joined.Err? {
        return Err(ReassemblyFailed);
      }
      var response := parse(joined.value);
      if response.None? {
        return Err(InvalidResponse);
      }
      var id := response.value;
      pending := pending - {id};
      order := Without(order, {id});
      if id != target {
        pending := pending - {target};
        order := Without(order, {target});
        RemoveTwice(old(State()), {id}, {target});
        assert {id} + {target} == {id, target};
      } else {
        assert {id} == {id, target};
      }
      result := Ok(Some(id));
    }
  }

  // ---------------------------------------------------------------- the operations in plain terms

  /** Asking, exactly: a retrieval under way keeps all that has arrived and is the youngest again; a new one starts
      with nothing; every other retrieval stays as it was, but for the front of the queue when a full table has to
      make room. */
  lemma AskingIsExact(t: Retrievals, id: ChunkId, now: nat, other: ChunkId)
    requires Mirror(t, MAX_PENDING_RETRIEVALS)
    ensures var after := Start(t, id, now);
            && id in after.entries && after.entries[id].createdAt == now && after.order[|after.order| - 1] == id
            && after.entries[id].reassembly ==
               (if id in t.entries then t.entries[id].reassembly else Fragment.Reassembly(None, map[], now))
            && (other != id ==>
                  && (other in after.entries <==>
                        other in t.entries && !(id !in t.entries && |t.entries| == 64 && other == t.order[0]))
                  && (other in after.entries ==> after.entries[other] == t.entries[other]))
  {
    if id !in t.entries && |t.entries| >= 64 {
      MirrorCount(t, MAX_PENDING_RETRIEVALS);
    }
  }

  /** Cleanup, exactly: a retrieval stays, as it is, if and only if it was asked for less than the timeout ago. */
  lemma CleanupIsExact(t: Retrievals, now: nat, timeout: nat, id: ChunkId)
    ensures var after := RemoveAll(t, Expired(t, now, timeout)).entries;
            && (id in after <==> id in t.entries && timeout > 0 && now < t.entries[id].createdAt + timeout)
            && (id in after ==> after[id] == t.entries[id])
  {
  }

  /** The one retrieval of a table after some parts of its response have arrived. */
  ghost function Lone(id: ChunkId, pieces: seq<seq<byte>>, order: seq<Fragment.u32>, now: nat): Retrievals
    requires Delivery.Deliverable(pieces) && Delivery.Numbered(order, |pieces|)
  {
    var entries: map<ChunkId, Pending> := map[id := Pending(Delivery.Holding(pieces, order, now), now)];
    Table(entries, [id])
  }

  lemma LoneTarget(id: ChunkId, pieces: seq<seq<byte>>, order: seq<Fragment.u32>, next: Fragment.u32, now: nat)
    requires Delivery.Deliverable(pieces) && Delivery.Numbered(order, |pieces|) && next < |pieces|
    ensures Candidates(Lone(id, pieces, order, now), Delivery.Part(pieces, next)) == if next in order then {} else {id}
  {
    Delivery.HoldingGrows(pieces, order, next, now);
  }

  lemma LoneTakes(id: ChunkId, pieces: seq<seq<byte>>, order: seq<Fragment.u32>, next: Fragment.u32, now: nat)
    requires Delivery.Deliverable(pieces) && Delivery.Numbered(order, |pieces|) && next < |pieces|
    ensures Delivery.Numbered(order + [next], |pieces|)
    ensures Taken(Lone(id, pieces, order, now), id, Delivery.Part(pieces, next)) ==
            Lone(id, pieces, order + [next], now)
  {
    Delivery.HoldingGrows(pieces, order, next, now);
  }

  lemma LoneSettles(id: ChunkId, pieces: seq<seq<byte>>, order: seq<Fragment.u32>, now: nat,
                    parse: seq<byte> -> Option<ChunkId>)
    requires Delivery.Deliverable(pieces) && Delivery.Numbered(order, |pieces|) && Delivery.Covers(order, |pieces|)
    ensures var t := Lone(id, pieces, order, now);
            Settle(t, id, Fragment.Reassemble(t.entries[id].reassembly), parse) ==
            match parse(Delivery.Join(pieces))
            case None => (t, Err(InvalidResponse))
            case Some(named) => (Table(map[], []), Ok(Some(named)))
  {
    Delivery.HoldingJoins(pieces, order, now);
    forall named: ChunkId ensures RemoveAll(Lone(id, pieces, order, now), {named, id}) == Table(map[], []) {
      var t := Lone(id, pieces, order, now);
      assert t.entries - {named, id} == map[];
      assert Without(t.order[1..], {named, id}) == [];
    }
  }

  /** A single retrieval and the parts of its response, in any order with repeats: a new one is taken, a repeated
      one matches no retrieval and changes nothing; the one that completes the response is answered with what the
      response says, and the table is then empty. */
  lemma LoneRetrieval(id: ChunkId, pieces: seq<seq<byte>>, order: seq<Fragment.u32>, next: Fragment.u32, now: nat,
                      target: Option<ChunkId>, parse: seq<byte> -> Option<ChunkId>)
    requires Delivery.Deliverable(pieces) && Delivery.Numbered(order, |pieces|) && next < |pieces|
    requires Found(Lone(id, pieces, order, now), Fragment.Encode(Delivery.Part(pieces, next)), target)
    ensures Delivery.Numbered(order + [next], |pieces|)
    ensures var t, more := Lone(id, pieces, order, now), Lone(id, pieces, order + [next], now);
            Process(t, Fragment.Encode(Delivery.Part(pieces, next)), target, parse) ==
            if next in order then (t, Err(NoMatchingRetrieval))
            else if !Delivery.Covers(order + [next], |pieces|) then (more, Ok(None))
            else
              match parse(Delivery.Join(pieces))
              case None => (more, Err(InvalidResponse))
              case Some(named) => (Table(map[], []), Ok(Some(named)))
  {
    var t, f := Lone(id, pieces, order, now), Delivery.Part(pieces, next);
    LoneFound(id, pieces, order, next, now, target);
    Delivery.HoldingGrows(pieces, order, next, now);
    if next in order {
      ProcessNobody(t, Fragment.Encode(f), f, parse);
    } else {
      LoneTaken(id, pieces, order, next, now);
      ProcessTakes(t, Fragment.Encode(f), f, id, parse);
      if Delivery.Covers(order + [next], |pieces|) {
        LoneSettles(id, pieces, order + [next], now, parse);
      }
    }
  }

  lemma LoneFound(id: ChunkId, pieces: seq<seq<byte>>, order: seq<Fragment.u32>, next: Fragment.u32, now: nat,
                  target: Option<ChunkId>)
    requires Delivery.Deliverable(pieces) && Delivery.Numbered(order, |pieces|) && next < |pieces|
    requires Found(Lone(id, pieces, order, now), Fragment.Encode(Delivery.Part(pieces, next)), target)
    ensures Fragment.Decode(Fragment.Encode(Delivery.Part(pieces, next))) == Ok(Delivery.Part(pieces, next))
    ensures target == if next in order then None else Some(id)
  {
    Fragment.EncodeRoundTrip(Delivery.Part(pieces, next));
    LoneTarget(id, pieces, order, next, now);
  }

  lemma LoneTaken(id: ChunkId, pieces: seq<seq<byte>>, order: seq<Fragment.u32>, next: Fragment.u32, now: nat)
    requires Delivery.Deliverable(pieces) && Delivery.Numbered(order, |pieces|) && next < |pieces| && next !in order
    ensures Delivery.Numbered(order + [next], |pieces|)
    ensures var t, f := Lone(id, pieces, order, now), Delivery.Part(pieces, next);
            && Fragment.Add(t.entries[id].reassembly, f).1
            && Taken(t, id, f) == Lone(id, pieces, order + [next], now)
            && (Fragment.IsComplete(Taken(t, id, f).entries[id].reassembly) <==>
                  Delivery.Covers(order + [next], |pieces|))
  {
    LoneTakes(id, pieces, order, next, now);
    Delivery.HoldingGrows(pieces, order, next, now);
    Delivery.HoldingCounts(pieces, order + [next], now);
  }

  lemma ProcessNobody(t: Retrievals, body: seq<byte>, f: Fragment.Fragment, parse: seq<byte> -> Option<ChunkId>)
    requires Fragment.Decode(body) == Ok(f) && Fragment.WellNumbered(f)
    ensures Process(t, body, None, parse) == (t, Err(NoMatchingRetrieval))
  {
  }

  lemma ProcessTakes(t: Retrievals, body: seq<byte>, f: Fragment.Fragment, id: ChunkId,
                     parse: seq<byte> -> Option<ChunkId>)
    requires Fragment.Decode(body) == Ok(f) && Fragment.WellNumbered(f) && id in t.entries
    requires Fragment.Add(t.entries[id].reassembly, f).1
    ensures var next := Taken(t, id, f);
            Process(t, body, Some(id), parse) ==
            if !Fragment.IsComplete(next.entries[id].reassembly) then (next, Ok(None))
            else Settle(next, id, Fragment.Reassemble(next.entries[id].reassembly), parse)
  {
  }

  // ---------------------------------------------------------------- runs

  datatype Event =
    | Ask(now: nat, id: ChunkId)
    | Cleanup(now: nat, timeout: nat)
    | Fragment(body: seq<byte>, target: Option<ChunkId>)

  /** A fragment whose target the scan could not have chosen changes nothing. */
  function Step(t: Retrievals, e: Event, parse: seq<byte> -> Option<ChunkId>): Retrievals {
    match e
    case Ask(now, id) => Start(t, id, now)
    case Cleanup(now, timeout) => RemoveAll(t, Expired(t, now, timeout))
    case Fragment(body, target) => if Found(t, body, target) then Process(t, body, target, parse).0 else t
  }

  function Run(t: Retrievals, es: seq<Event>, parse: seq<byte> -> Option<ChunkId>): Retrievals
    decreases |es|
  {
    if es == [] then t else Run(Step(t, es[0], parse), es[1..], parse)
  }

  /** Every reassembly in the table is one that fragments could have produced. */
  ghost predicate Healthy(t: Retrievals) {
    && Mirror(t, MAX_PENDING_RETRIEVALS)
    && forall id :: id in t.entries ==> Fragment.Sane(t.entries[id].reassembly)
  }

  lemma StartKeeps(t: Retrievals, id: ChunkId, now: nat)
    requires Healthy(t)
    ensures Healthy(Start(t, id, now))
  {
    if id in t.entries {
      MoveKeeps(t, MAX_PENDING_RETRIEVALS, id);
      UpdateKeeps(t.(order := Without(t.order, {id}) + [id]), MAX_PENDING_RETRIEVALS, id,
          t.entries[id].(createdAt := now));
    } else {
      InsertKeeps(t, MAX_PENDING_RETRIEVALS, id, Pending(Fragment.Fresh(now), now));
    }
  }

  lemma TakenKeeps(t: Retrievals, target: ChunkId, f: Fragment.Fragment)
    requires Healthy(t) && target in t.entries
    ensures Healthy(Taken(t, target, f))
  {
    UpdateKeeps(t, MAX_PENDING_RETRIEVALS, target, Taken(t, target, f).entries[target]);
  }

  lemma SettleKeeps(t: Retrievals, target: ChunkId, joined: Result<seq<byte>, Fragment.FragmentError>,
                    parse: seq<byte> -> Option<ChunkId>)
    requires Healthy(t)
    ensures Healthy(Settle(t, target, joined, parse).0)
  {
    if joined.Ok? && parse(joined.value).Some? {
      RemoveKeeps(t, {parse(joined.value).value, target}, MAX_PENDING_RETRIEVALS);
    }
  }

  lemma ProcessKeeps(t: Retrievals, body: seq<byte>, target: Option<ChunkId>, parse: seq<byte> -> Option<ChunkId>)
    requires Healthy(t) && (target.Some? ==> target.value in t.entries)
    ensures Healthy(Process(t, body, target, parse).0)
  {
    var decoded := Fragment.Decode(body);
    if decoded.Ok? && target.Some? {
      TakenKeeps(t, target.value, decoded.value);
      var next := Taken(t, target.value, decoded.value);
      SettleKeeps(next, target.value, Fragment.Reassemble(next.entries[target.value].reassembly), parse);
    }
  }

  lemma StepKeeps(t: Retrievals, e: Event, parse: seq<byte> -> Option<ChunkId>)
    requires Healthy(t)
    ensures Healthy(Step(t, e, parse))
  {
    match e
    case Ask(now, id) => StartKeeps(t, id, now);
    case Cleanup(now, timeout) => RemoveKeeps(t, Expired(t, now, timeout), MAX_PENDING_RETRIEVALS);
    case Fragment(body, target) => if Found(t, body, target) { ProcessKeeps(t, body, target, parse); }
  }

  /** The session the scan chose always takes the fragment and, once complete, always joins. */
  lemma ChosenSessionTakes(t: Retrievals, body: seq<byte>, target: ChunkId, parse: seq<byte> -> Option<ChunkId>)
    requires Healthy(t) && Found(t, body, Some(target))
    ensures Process(t, body, Some(target), parse).1 != Err(NoMatchingRetrieval)
    ensures Process(t, body, Some(target), parse).1 != Err(ReassemblyFailed)
  {
    var f := Fragment.Decode(body).value;
    var r := t.entries[target].reassembly;
    Fragment.ReassemblerInvariant(r, [], f);
    Fragment.ReassemblerInvariant(r, [f], f);
    assert Fragment.Feed(r, [f]) == Fragment.Add(r, f).0;
  }

  /** Over every run the queue mirrors the table within its bound, and the two error paths after a
      successful scan are dead. */
  lemma {:induction false} RetrievalTableInvariant(
      t: Retrievals, es: seq<Event>, parse: seq<byte> -> Option<ChunkId>, body: seq<byte>, target: Option<ChunkId>)
    requires Healthy(t)
    ensures var final := Run(t, es, parse);
            && Healthy(final)
            && (target.Some? && Found(final, body, target) ==>
                  var result := Process(final, body, target, parse).1;
                  result != Err(NoMatchingRetrieval) && result != Err(ReassemblyFailed))
    decreases |es|
  {
    if es != [] {
      StepKeeps(t, es[0], parse);
      RetrievalTableInvariant(Step(t, es[0], parse), es[1..], parse, body, target);
    } else if target.Some? && Found(t, body, target) {
      ChosenSessionTakes(t, body, target.value, parse);
    }
  }
}
