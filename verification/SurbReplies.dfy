/** Responses longer than one packet: session replies follow the route the first packet opened. */
module SurbReplies {
  import opened Bytes
  import opened Sizes
  import opened FifoTable
  import opened SphinxCrypto
  import opened WireCodec
  import opened SphinxNode
  import opened Surb
  import opened SurbRoute
  import opened SurbDelivery
  import Fragment
  import Delivery

  // ---------------------------------------------------------------- building and opening

  /** One reply: sealed for the requester under its own nonce, then layered for the hops. */
  function ReplyFor(c: Crypto, surb: Surb, text: seq<byte>, nonce: Bytes32): SessionReply {
    SessionReply(surb.header.sessionId, nonce,
                 Onion(c, surb.bodyKeys, c.seal(surb.bodyAeadKey, nonce[..12], text, surb.aadDestination)))
  }

  method BuildSessionReplies(c: Crypto, surb: Surb, fragments: seq<Fragment.Fragment>, nonces: seq<Bytes32>)
    returns (replies: seq<SessionReply>)
    requires |nonces| == |fragments|
    ensures |replies| == |fragments|
    ensures forall i :: 0 <= i < |replies| ==> replies[i] == ReplyFor(c, surb, Fragment.Encode(fragments[i]), nonces[i])
  {
    replies := [];
    for i := 0 to |fragments|
      invariant |replies| == i
      invariant forall k :: 0 <= k < i ==> replies[k] == ReplyFor(c, surb, Fragment.Encode(fragments[k]), nonces[k])
    {
      var plaintext := Fragment.Encode(fragments[i]);
      var inner := c.seal(surb.bodyAeadKey, nonces[i][..12], plaintext, surb.aadDestination);
      var body := new byte[|inner|](k requires 0 <= k < |inner| => inner[k]);
      assert body[..] == inner;
      LayerAll(c, surb.bodyKeys, body);
      replies := replies + [SessionReply(surb.header.sessionId, nonces[i], body[..])];
    }
  }

  /** The requester opens a fully peeled reply. */
  function DecryptReply(c: Crypto, reply: SessionReply, key: Key, destination: NodeId): Option<seq<byte>> {
    c.unseal(key, reply.nonce[..12], reply.body, destination)
  }

  // ---------------------------------------------------------------- along the route

  datatype Ride = Ride(nodes: seq<MixNode>, announced: seq<NodeId>, outcome: Option<Result<SessionReply, SphinxError>>)

  function Relay(c: Crypto, nodes: seq<MixNode>, reply: SessionReply, now: nat): Ride
    decreases |nodes|
  {
    if nodes == [] then Ride([], [], None)
    else
      var (node, result) := ProcessReply(c, nodes[0], reply, now);
      match result
      case Err(e) => Ride([node] + nodes[1..], [], Some(Err(e)))
      case Ok(Relayed(next, peeled, isFinal)) =>
        if isFinal then Ride([node] + nodes[1..], [next], Some(Ok(peeled)))
        else
          var ride := Relay(c, nodes[1..], peeled, now);
          Ride([node] + ride.nodes, [next] + ride.announced, ride.outcome)
  }

  /** The session fits its hop, was made at `created`, and none of `unused` has been seen in it. */
  predicate ReadySession(j: Journey, s: CachedSession, created: nat, unused: set<Bytes32>)
    requires j.Shaped()
  {
    && s.nextHop == j.route.Next()
    && s.bodyKey == j.c.bodyKey(j.legs[0].shared)
    && s.isFinal == (|j.legs| == 1)
    && s.createdAt == created
    && s.nonces.entries.Keys !! unused
  }

  predicate ReadyAt(j: Journey, node: MixNode, created: nat, unused: set<Bytes32>)
    requires j.Shaped()
  {
    && j.sessionId in node.sessions.entries
    && ReadySession(j, node.sessions.entries[j.sessionId], created, unused)
  }

  predicate Ready(j: Journey, nodes: seq<MixNode>, created: nat, unused: set<Bytes32>)
    requires |nodes| == |j.route.hops| == |j.legs|
    decreases |nodes|
  {
    nodes == [] || (ReadyAt(j, nodes[0], created, unused) && Ready(j.Rest(), nodes[1..], created, unused))
  }

  /** Right after the first packet every nonce is unused. */
  lemma {:induction false} PrimedIsReady(j: Journey, nodes: seq<MixNode>, created: nat, unused: set<Bytes32>)
    requires |nodes| == |j.route.hops| == |j.legs| && Primed(j, nodes, created)
    ensures Ready(j, nodes, created, unused)
    decreases |nodes|
  {
    if nodes != [] {
      PrimedIsReady(j.Rest(), nodes[1..], created, unused);
    }
  }

  lemma {:induction false} ReadyForFewer(
      j: Journey, nodes: seq<MixNode>, created: nat, unused: set<Bytes32>, fewer: set<Bytes32>)
    requires |nodes| == |j.route.hops| == |j.legs| && Ready(j, nodes, created, unused) && fewer <= unused
    ensures Ready(j, nodes, created, fewer)
    decreases |nodes|
  {
    if nodes != [] {
      ReadyForFewer(j.Rest(), nodes[1..], created, unused, fewer);
    }
  }

  lemma RememberedOnce(t: Table<Bytes32, ()>, cap: nat, k: Bytes32, unused: set<Bytes32>)
    requires t.entries.Keys !! unused
    ensures Remember(t, cap, k).entries.Keys !! (unused - {k})
  {
  }

  /** One hop of a reply: a layer comes off and the nonce is used up. */
  lemma ReplyHop(j: Journey, node: MixNode, created: nat, unused: set<Bytes32>, reply: SessionReply, now: nat)
    requires j.Shaped() && ReadyAt(j, node, created, unused)
    requires reply.sessionId == j.sessionId && reply.nonce in unused && |reply.body| == WIRE_BODY_SIZE
    requires SatSub(now, created) < SESSION_TTL_SECS
    ensures var (after, result) := ProcessReply(j.c, node, reply, now);
            var peeled := reply.(body := XorStream(reply.body, j.c.bodyStream(j.c.bodyKey(j.legs[0].shared))));
            && ReadyAt(j, after, created, unused - {reply.nonce})
            && result == Ok(Relayed(j.route.Next(), peeled, |j.legs| == 1))
  {
    RememberedOnce(node.sessions.entries[j.sessionId].nonces, MAX_SESSION_NONCES, reply.nonce, unused);
  }

  lemma {:induction false} RelayAt(
      j: Journey, nodes: seq<MixNode>, created: nat, unused: set<Bytes32>, nonce: Bytes32, inner: seq<byte>, now: nat)
    requires 0 < |nodes| == |j.route.hops| == |j.legs| && Ready(j, nodes, created, unused)
    requires nonce in unused && |inner| == WIRE_BODY_SIZE && SatSub(now, created) < SESSION_TTL_SECS
    ensures var reply := SessionReply(j.sessionId, nonce, Onion(j.c, BodyKeys(j.c, j.legs), inner));
            var ride := Relay(j.c, nodes, reply, now);
            && |ride.nodes| == |nodes|
            && ride.announced == Announced(j.route)
            && ride.outcome == Some(Ok(SessionReply(j.sessionId, nonce, inner)))
            && Ready(j, ride.nodes, created, unused - {nonce})
    decreases |nodes|
  {
    var reply := SessionReply(j.sessionId, nonce, Onion(j.c, BodyKeys(j.c, j.legs), inner));
    ReplyHop(j, nodes[0], created, unused, reply, now);
    LayerAt(j.c, j.legs, inner);
    if |nodes| == 1 {
      assert j.legs[1..] == [];
      assert Announced(j.route.Rest()) == [];
    } else {
      RelayAt(j.Rest(), nodes[1..], created, unused, nonce, inner, now);
    }
  }

  // ---------------------------------------------------------------- a route with a gap

  /** Some hop does not hold the session, and none before it takes itself for the last. */
  predicate Gap(j: Journey, nodes: seq<MixNode>)
    requires |nodes| == |j.route.hops| == |j.legs|
    decreases |nodes|
  {
    nodes != [] &&
    (|| j.sessionId !in nodes[0].sessions.entries
     || (!nodes[0].sessions.entries[j.sessionId].isFinal && Gap(j.Rest(), nodes[1..])))
  }

  lemma {:induction false} UnrecognisedHasGap(
      j: Journey, inner: seq<byte>, before: seq<MixNode>, after: seq<MixNode>, now: nat)
    requires |before| == |after| == |j.route.hops| == |j.legs|
    requires RemembersExactly(j, inner, before, after, now) && NoneHolds(before, j.sessionId) && !Recognisable(j, inner)
    ensures Gap(j, after)
    decreases |j.legs|
  {
    if LooksLikeSurb(j, inner) {
      UnrecognisedHasGap(j.Rest(), inner, before[1..], after[1..], now);
      assert |j.legs| > 1;
    }
  }

  /** No reply of the session gets past the gap, and the gap stays. */
  lemma {:induction false} GapLoses(j: Journey, nodes: seq<MixNode>, reply: SessionReply, now: nat)
    requires |nodes| == |j.route.hops| == |j.legs| && Gap(j, nodes) && reply.sessionId == j.sessionId
    ensures var ride := Relay(j.c, nodes, reply, now);
            |ride.nodes| == |nodes| && Gap(j, ride.nodes) && !(ride.outcome.Some? && ride.outcome.value.Ok?)
    decreases |nodes|
  {
    var (node, result) := ProcessReply(j.c, nodes[0], reply, now);
    if result.Ok? {
      GapLoses(j.Rest(), nodes[1..], result.value.reply, now);
      var ride := Relay(j.c, nodes[1..], result.value.reply, now);
      assert ([node] + ride.nodes)[1..] == ride.nodes;
    } else {
      assert ([node] + nodes[1..])[1..] == nodes[1..];
    }
  }

  // ---------------------------------------------------------------- a whole response

  /** A fragment sent as a session reply: which one, under which nonce, processed when. */
  datatype Parcel = Parcel(index: Fragment.u32, nonce: Bytes32, now: nat)

  predicate Indexed(parcels: seq<Parcel>, n: nat) {
    forall k :: 0 <= k < |parcels| ==> parcels[k].index < n
  }

  /** What the requester can decrypt after all parcels went down the route one after another. */
  function Collected(c: Crypto, surb: Surb, nodes: seq<MixNode>, bodies: seq<seq<byte>>, parcels: seq<Parcel>)
    : seq<seq<byte>>
    requires Indexed(parcels, |bodies|)
    decreases |parcels|
  {
    if parcels == [] then []
    else
      var ride := Relay(c, nodes, ReplyFor(c, surb, bodies[parcels[0].index], parcels[0].nonce), parcels[0].now);
      var got := match ride.outcome
                 case Some(Ok(reply)) => DecryptReply(c, reply, surb.bodyAeadKey, surb.aadDestination)
                 case _ => None;
      (if got.Some? then [got.value] else []) + Collected(c, surb, ride.nodes, bodies, parcels[1..])
  }

  function Nonces(parcels: seq<Parcel>): set<Bytes32> {
    set p | p in parcels :: p.nonce
  }

  predicate DistinctNonces(parcels: seq<Parcel>)
    decreases |parcels|
  {
    parcels == [] || (parcels[0].nonce !in Nonces(parcels[1..]) && DistinctNonces(parcels[1..]))
  }

  /** Every parcel is a fragment of the response, processed while the session lives. */
  predicate Sendable(parcels: seq<Parcel>, n: nat, created: nat) {
    Indexed(parcels, n) && forall k :: 0 <= k < |parcels| ==> SatSub(parcels[k].now, created) < SESSION_TTL_SECS
  }

  function Picked(bodies: seq<seq<byte>>, parcels: seq<Parcel>): (picked: seq<seq<byte>>)
    requires Indexed(parcels, |bodies|)
    ensures |picked| == |parcels|
  {
    seq(|parcels|, k requires 0 <= k < |parcels| => bodies[parcels[k].index])
  }

  lemma OneDelivered(
      j: Journey, surb: Surb, nodes: seq<MixNode>, created: nat, text: seq<byte>, p: Parcel,
      unused: set<Bytes32>, fewer: set<Bytes32>)
    requires Lawful(j.c) && 0 < |nodes| == |j.route.hops| == |j.legs| && |text| == BODY_SIZE
    requires surb.bodyKeys == BodyKeys(j.c, j.legs) && surb.header.sessionId == j.sessionId
    requires Ready(j, nodes, created, unused) && p.nonce in unused && fewer <= unused - {p.nonce}
    requires SatSub(p.now, created) < SESSION_TTL_SECS
    ensures var ride := Relay(j.c, nodes, ReplyFor(j.c, surb, text, p.nonce), p.now);
            && |ride.nodes| == |nodes| && Ready(j, ride.nodes, created, fewer)
            && ride.outcome.Some? && ride.outcome.value.Ok?
            && DecryptReply(j.c, ride.outcome.value.value, surb.bodyAeadKey, surb.aadDestination) == Some(text)
  {
    var inner := j.c.seal(surb.bodyAeadKey, p.nonce[..12], text, surb.aadDestination);
    RelayAt(j, nodes, created, unused, p.nonce, inner, p.now);
    var ride := Relay(j.c, nodes, ReplyFor(j.c, surb, text, p.nonce), p.now);
    ReadyForFewer(j, ride.nodes, created, unused - {p.nonce}, fewer);
  }

  lemma RestSendable(parcels: seq<Parcel>, n: nat, created: nat)
    requires parcels != [] && DistinctNonces(parcels) && Sendable(parcels, n, created)
    ensures parcels[0].nonce in Nonces(parcels) && Nonces(parcels[1..]) <= Nonces(parcels) - {parcels[0].nonce}
    ensures DistinctNonces(parcels[1..]) && Sendable(parcels[1..], n, created)
  {
  }

  lemma CollectFirst(
      c: Crypto, surb: Surb, nodes: seq<MixNode>, bodies: seq<seq<byte>>, parcels: seq<Parcel>, ride: Ride)
    requires parcels != [] && Indexed(parcels, |bodies|)
    requires ride == Relay(c, nodes, ReplyFor(c, surb, bodies[parcels[0].index], parcels[0].nonce), parcels[0].now)
    requires ride.outcome.Some? && ride.outcome.value.Ok?
    requires DecryptReply(c, ride.outcome.value.value, surb.bodyAeadKey, surb.aadDestination)
          == Some(bodies[parcels[0].index])
    requires Collected(c, surb, ride.nodes, bodies, parcels[1..]) == Picked(bodies, parcels[1..])
    ensures Collected(c, surb, nodes, bodies, parcels) == Picked(bodies, parcels)
  {
    assert Picked(bodies, parcels) == [bodies[parcels[0].index]] + Picked(bodies, parcels[1..]);
  }

  /** Every reply of a live session under fresh nonces comes out as it went in. */
  lemma {:induction false} RepliesDelivered(
      j: Journey, surb: Surb, nodes: seq<MixNode>, created: nat, bodies: seq<seq<byte>>, parcels: seq<Parcel>)
    requires Lawful(j.c) && 0 < |nodes| == |j.route.hops| == |j.legs|
    requires surb.bodyKeys == BodyKeys(j.c, j.legs) && surb.header.sessionId == j.sessionId
    requires Ready(j, nodes, created, Nonces(parcels)) && DistinctNonces(parcels)
    requires forall i :: 0 <= i < |bodies| ==> |bodies[i]| == BODY_SIZE
    requires Sendable(parcels, |bodies|, created)
    ensures Collected(j.c, surb, nodes, bodies, parcels) == Picked(bodies, parcels)
    decreases |parcels|
  {
    if parcels != [] {
      var p, rest := parcels[0], parcels[1..];
      var text := bodies[p.index];
      RestSendable(parcels, |bodies|, created);
      OneDelivered(j, surb, nodes, created, text, p, Nonces(parcels), Nonces(rest));
      var ride := Relay(j.c, nodes, ReplyFor(j.c, surb, text, p.nonce), p.now);
      RepliesDelivered(j, surb, ride.nodes, created, bodies, rest);
      CollectFirst(j.c, surb, nodes, bodies, parcels, ride);
    }
  }

  /** On a route with a gap none of them arrives. */
  lemma {:induction false} RepliesLost(
      j: Journey, surb: Surb, nodes: seq<MixNode>, bodies: seq<seq<byte>>, parcels: seq<Parcel>)
    requires |nodes| == |j.route.hops| == |j.legs| && Gap(j, nodes) && surb.header.sessionId == j.sessionId
    requires Indexed(parcels, |bodies|)
    ensures Collected(j.c, surb, nodes, bodies, parcels) == []
    decreases |parcels|
  {
    if parcels != [] {
      var reply := ReplyFor(j.c, surb, bodies[parcels[0].index], parcels[0].nonce);
      GapLoses(j, nodes, reply, parcels[0].now);
      RepliesLost(j, surb, Relay(j.c, nodes, reply, parcels[0].now).nodes, bodies, parcels[1..]);
    }
  }

  /** The fixed-size bodies of a response. */
  function ResponseBodies(response: seq<byte>): (bodies: seq<seq<byte>>)
    ensures |bodies| == |Fragment.FragmentsOf(response)|
    ensures forall i :: 0 <= i < |bodies| ==> bodies[i] == Fragment.Encode(Fragment.FragmentsOf(response)[i])
  {
    var fs := Fragment.FragmentsOf(response);
    seq(|fs|, i requires 0 <= i < |fs| => Fragment.Encode(fs[i]))
  }

  function Indexes(parcels: seq<Parcel>): (order: seq<Fragment.u32>)
    ensures |order| == |parcels|
    ensures forall k :: 0 <= k < |parcels| ==> order[k] == parcels[k].index
  {
    seq(|parcels|, k requires 0 <= k < |parcels| => parcels[k].index)
  }

  /** The first packet of a response on its way, and where the route's nodes then stand. */
  function FirstTrip(c: Crypto, surb: Surb, nodes: seq<MixNode>, body: seq<byte>, now: nat, noises: nat -> Noises)
      : Trip
  {
    match Wrap(c, Hybrid, surb, body)
    case Err(e) => Trip(nodes, [], Some(Err(e)))
    case Ok(packet) => Travel(c, Hybrid, nodes, packet, now, noises)
  }

  /** Everything the requester receives: the first packet's body, then the replies'. */
  function Received(
      c: Crypto, surb: Surb, nodes: seq<MixNode>, bodies: seq<seq<byte>>, parcels: seq<Parcel>,
      now: nat, noises: nat -> Noises): seq<seq<byte>>
    requires bodies != [] && Indexed(parcels, |bodies|)
  {
    var trip := FirstTrip(c, surb, nodes, bodies[0], now, noises);
    var first := match trip.outcome case Some(Ok(body)) => [body] case _ => [];
    first + Collected(c, surb, trip.nodes, bodies, parcels)
  }

  /** The first packet brings its body unchanged; the route is then ready for replies if every hop could
      tell the packet from an ordinary one, and otherwise, if none held the session, has a gap. */
  lemma FirstReceived(
      c: Crypto, route: Route, draws: Draws, legs: seq<Leg>, body: seq<byte>, nodes: seq<MixNode>,
      now: nat, noises: nat -> Noises, unused: set<Bytes32>)
    requires Lawful(c) && 0 < |route.hops| <= MAX_HOPS && RouteOwned(c, nodes, route.hops) && |body| == BODY_SIZE
    requires route.mode.Hybrid? && RouteLegs(c, route, draws) == Some(legs) && Unseen(c, nodes, legs)
    ensures var j, surb := JourneyOf(c, route, draws, legs), Assemble(c, route, draws, legs);
            var trip := FirstTrip(c, surb, nodes, body, now, noises);
            && |trip.nodes| == |nodes|
            && trip.outcome == Some(Ok(body))
            && (Recognisable(j, Innermost(c, surb, body)) ==> Ready(j, trip.nodes, now, unused))
            && (NoneHolds(nodes, j.sessionId) && !Recognisable(j, Innermost(c, surb, body)) ==> Gap(j, trip.nodes))
  {
    var j, surb := JourneyOf(c, route, draws, legs), Assemble(c, route, draws, legs);
    MadeSurbArrives(c, route, draws, legs, body, nodes, now, noises);
    assert ZeroPadded(body) == body;
    var trip := FirstTrip(c, surb, nodes, body, now, noises);
    if Recognisable(j, Innermost(c, surb, body)) {
      PrimedIsReady(j, trip.nodes, now, unused);
    } else if NoneHolds(nodes, j.sessionId) {
      UnrecognisedHasGap(j, Innermost(c, surb, body), nodes, trip.nodes, now);
    }
  }

  lemma BodiesInOrder(response: seq<byte>, parcels: seq<Parcel>)
    requires Indexed(parcels, |ResponseBodies(response)|)
    ensures Delivery.Numbered([0] + Indexes(parcels), |Fragment.FragmentsOf(response)|)
    ensures [ResponseBodies(response)[0]] + Picked(ResponseBodies(response), parcels)
         == Delivery.Bodies(Fragment.FragmentsOf(response), [0] + Indexes(parcels))
  {
  }

  /** The indexes of the fragments that reach the requester. */
  ghost function Arriving(j: Journey, surb: Surb, response: seq<byte>, parcels: seq<Parcel>): seq<Fragment.u32>
    requires |j.route.hops| == |j.legs|
  {
    [0] + if Recognisable(j, Innermost(j.c, surb, ResponseBodies(response)[0])) then Indexes(parcels) else []
  }

  /** Every hop can tell the response's first packet from an ordinary one. */
  predicate FirstIsRecognised(c: Crypto, route: Route, draws: Draws, legs: seq<Leg>, response: seq<byte>)
    requires 0 < |route.hops| == |legs|
  {
    Recognisable(JourneyOf(c, route, draws, legs),
                 Innermost(c, Assemble(c, route, draws, legs), ResponseBodies(response)[0]))
  }

  lemma AllReceived(
      c: Crypto, route: Route, draws: Draws, legs: seq<Leg>, response: seq<byte>, parcels: seq<Parcel>,
      nodes: seq<MixNode>, now: nat, noises: nat -> Noises)
    requires Lawful(c) && 0 < |route.hops| <= MAX_HOPS && RouteOwned(c, nodes, route.hops)
    requires route.mode.Hybrid? && RouteLegs(c, route, draws) == Some(legs) && Unseen(c, nodes, legs)
    requires NoneHolds(nodes, draws.sessionId) || FirstIsRecognised(c, route, draws, legs, response)
    requires DistinctNonces(parcels) && Sendable(parcels, |ResponseBodies(response)|, now)
    ensures var j, surb := JourneyOf(c, route, draws, legs), Assemble(c, route, draws, legs);
            var order := Arriving(j, surb, response, parcels);
            && Delivery.Numbered(order, |Fragment.FragmentsOf(response)|)
            && Received(c, surb, nodes, ResponseBodies(response), parcels, now, noises)
                 == Delivery.Bodies(Fragment.FragmentsOf(response), order)
  {
    var j, surb := JourneyOf(c, route, draws, legs), Assemble(c, route, draws, legs);
    var bodies := ResponseBodies(response);
    FirstReceived(c, route, draws, legs, bodies[0], nodes, now, noises, Nonces(parcels));
    RestReceived(j, surb, response, parcels, nodes, now, noises);
  }

  /** With the first body in and the route ready or with a gap, what else is received. */
  lemma RestReceived(
      j: Journey, surb: Surb, response: seq<byte>, parcels: seq<Parcel>, nodes: seq<MixNode>, now: nat,
      noises: nat -> Noises)
    requires Lawful(j.c) && 0 < |nodes| == |j.route.hops| == |j.legs|
    requires surb.bodyKeys == BodyKeys(j.c, j.legs) && surb.header.sessionId == j.sessionId
    requires DistinctNonces(parcels) && Sendable(parcels, |ResponseBodies(response)|, now)
    requires var trip := FirstTrip(j.c, surb, nodes, ResponseBodies(response)[0], now, noises);
             && |trip.nodes| == |nodes| && trip.outcome == Some(Ok(ResponseBodies(response)[0]))
             && if Recognisable(j, Innermost(j.c, surb, ResponseBodies(response)[0]))
                then Ready(j, trip.nodes, now, Nonces(parcels)) else Gap(j, trip.nodes)
    ensures var order := Arriving(j, surb, response, parcels);
            && Delivery.Numbered(order, |Fragment.FragmentsOf(response)|)
            && Received(j.c, surb, nodes, ResponseBodies(response), parcels, now, noises)
                 == Delivery.Bodies(Fragment.FragmentsOf(response), order)
  {
    var bodies := ResponseBodies(response);
    var trip := FirstTrip(j.c, surb, nodes, bodies[0], now, noises);
    if Recognisable(j, Innermost(j.c, surb, bodies[0])) {
      RepliesDelivered(j, surb, trip.nodes, now, bodies, parcels);
      BodiesInOrder(response, parcels);
    } else {
      RepliesLost(j, surb, trip.nodes, bodies, parcels);
      BodiesInOrder(response, []);
      assert Picked(bodies, []) == [] && Indexes([]) == [];
    }
  }

  /** The requester's reassembly is complete exactly when every fragment is among those that arrive, and
      then joins to the response. */
  ghost predicate Returns(
      c: Crypto, surb: Surb, response: seq<byte>, parcels: seq<Parcel>, order: seq<Fragment.u32>,
      nodes: seq<MixNode>, now: nat, noises: nat -> Noises, opening: nat)
    requires Indexed(parcels, |ResponseBodies(response)|)
  {
    var got := Received(c, surb, nodes, ResponseBodies(response), parcels, now, noises);
    var r := Delivery.Receive(Fragment.Fresh(opening), got);
    && (Fragment.IsComplete(r) <==> Delivery.Covers(order, |Fragment.FragmentsOf(response)|))
    && (Fragment.IsComplete(r) ==> Fragment.Reassemble(r) == Ok(response))
  }

  /** End to end: a response of any admissible length, its first fragment inside the reply block's
      packet and the others as session replies in any order with fresh nonces while the session lives.
      It is complete at the requester exactly when every fragment was sent and, if there is more than
      the first, every hop could tell the first packet from an ordinary one; it is then the response. */
  lemma ResponseRoundTrip(
      c: Crypto, route: Route, draws: Draws, response: seq<byte>, parcels: seq<Parcel>,
      nodes: seq<MixNode>, now: nat, noises: nat -> Noises, opening: nat)
    requires Lawful(c) && route.mode.Hybrid? && 0 < |route.hops| <= MAX_HOPS && RouteOwned(c, nodes, route.hops)
    requires |response| <= Delivery.MAX_PAYLOAD
    requires DistinctNonces(parcels) && Sendable(parcels, |ResponseBodies(response)|, now)
    ensures RouteLegs(c, route, draws).Some?
    ensures var legs := RouteLegs(c, route, draws).value;
            var j, surb := JourneyOf(c, route, draws, legs), Assemble(c, route, draws, legs);
            && Create(c, route, draws) == Ok(surb)
            && (Unseen(c, nodes, legs)
                && (NoneHolds(nodes, draws.sessionId) || FirstIsRecognised(c, route, draws, legs, response)) ==>
                  var order := Arriving(j, surb, response, parcels);
                  Returns(c, surb, response, parcels, order, nodes, now, noises, opening))
  {
    SurbTraversesRoute(c, route, draws, [], nodes, now, noises);
    var legs := RouteLegs(c, route, draws).value;
    var held := !NoneHolds(nodes, draws.sessionId) && !FirstIsRecognised(c, route, draws, legs, response);
    if Unseen(c, nodes, legs) && !held {
      var j, surb := JourneyOf(c, route, draws, legs), Assemble(c, route, draws, legs);
      AllReceived(c, route, draws, legs, response, parcels, nodes, now, noises);
      Delivery.AnyOrderRoundTrip(response, Arriving(j, surb, response, parcels), opening);
    }
  }
}
