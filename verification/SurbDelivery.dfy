/** Whole journeys: the packet of a reply block along every hop of its route. */
module SurbDelivery {
  import opened Bytes
  import opened Sizes
  import opened FifoTable
  import opened SphinxCrypto
  import opened WireCodec
  import opened SphinxNode
  import opened Surb
  import opened SurbRoute

  /** The nodes afterwards, the next hops they announced, and what came out, if anything did. */
  datatype Trip = Trip(nodes: seq<MixNode>, announced: seq<NodeId>, outcome: Option<Result<seq<byte>, SphinxError>>)

  /** Each hop draws its own noise, indexed by the hops that remain. */
  function Travel(c: Crypto, mode: Mode, nodes: seq<MixNode>, p: SphinxPacket, now: nat, noises: nat -> Noises): Trip
    decreases |nodes|
  {
    if nodes == [] then Trip([], [], None)
    else
      var (node, result) := Process(c, mode, nodes[0], p, now, noises(|nodes|));
      match result
      case Err(e) => Trip([node] + nodes[1..], [], Some(Err(e)))
      case Ok(Deliver(destination, body)) => Trip([node] + nodes[1..], [destination], Some(Ok(body)))
      case Ok(Forward(next, packet)) =>
        var trip := Travel(c, mode, nodes[1..], packet, now, noises);
        Trip([node] + trip.nodes, [next] + trip.announced, trip.outcome)
  }

  /** No node has seen its hop of this block before. */
  predicate Unseen(c: Crypto, nodes: seq<MixNode>, legs: seq<Leg>) {
    |nodes| == |legs| && forall i :: 0 <= i < |nodes| ==> c.tag(legs[i].shared) !in nodes[i].seen.entries
  }

  function Announced(route: Route): seq<NodeId>
    decreases |route.hops|
  {
    if route.hops == [] then [] else [route.Next()] + Announced(route.Rest())
  }

  // ---------------------------------------------------------------- who remembers the session

  /** Every hop remembers the session with the layer key and direction it needs for replies. */
  predicate Primed(j: Journey, nodes: seq<MixNode>, now: nat)
    requires |nodes| == |j.route.hops| == |j.legs|
    decreases |nodes|
  {
    nodes == [] ||
    (&& j.sessionId in nodes[0].sessions.entries
     && nodes[0].sessions.entries[j.sessionId] == SessionAt(j, now)
     && Primed(j.Rest(), nodes[1..], now))
  }

  /** At no hop does the block's tag happen to fit the body it meets there. */
  predicate Recognisable(j: Journey, inner: seq<byte>)
    requires |j.route.hops| == |j.legs|
    decreases |j.legs|
  {
    j.legs == [] || (LooksLikeSurb(j, inner) && Recognisable(j.Rest(), inner))
  }

  /** Each hop remembers the session exactly if it can tell the packet from an ordinary one; a hop that
      cannot keeps what it had. */
  predicate RemembersExactly(j: Journey, inner: seq<byte>, before: seq<MixNode>, after: seq<MixNode>, now: nat)
    requires |before| == |after| == |j.route.hops| == |j.legs|
    decreases |j.legs|
  {
    j.legs == [] ||
    (&& (if LooksLikeSurb(j, inner)
         then j.sessionId in after[0].sessions.entries && after[0].sessions.entries[j.sessionId] == SessionAt(j, now)
         else after[0].sessions == before[0].sessions)
     && RemembersExactly(j.Rest(), inner, before[1..], after[1..], now))
  }

  predicate NoneHolds(nodes: seq<MixNode>, sessionId: Bytes32) {
    forall i :: 0 <= i < |nodes| ==> sessionId !in nodes[i].sessions.entries
  }

  /** Where no hop held the session before, all of them remember it if and only if every one of them
      could tell. */
  lemma {:induction false} PrimedIffRecognisable(
      j: Journey, inner: seq<byte>, before: seq<MixNode>, after: seq<MixNode>, now: nat)
    requires |before| == |after| == |j.route.hops| == |j.legs|
    requires RemembersExactly(j, inner, before, after, now)
    ensures Recognisable(j, inner) ==> Primed(j, after, now)
    ensures NoneHolds(before, j.sessionId) ==> (Primed(j, after, now) <==> Recognisable(j, inner))
    decreases |j.legs|
  {
    if j.legs != [] {
      PrimedIffRecognisable(j.Rest(), inner, before[1..], after[1..], now);
    }
  }

  // ---------------------------------------------------------------- by induction on the hops

  /** The last hop's secret opens the innermost ciphertext. */
  predicate Opens(j: Journey, inner: seq<byte>, text: seq<byte>)
    requires j.Shaped()
  {
    var key := j.c.aeadKey(j.legs[|j.legs| - 1].shared);
    j.c.unseal(key, j.c.aeadNonce(key), inner, j.route.destination) == Some(text)
  }

  lemma OpensBehind(j: Journey, inner: seq<byte>, text: seq<byte>)
    requires j.Shaped() && |j.legs| > 1 && Opens(j, inner, text)
    ensures Opens(j.Rest(), inner, text)
  {
  }

  lemma LegsStep(
      c: Crypto, mode: Mode, hops: seq<Hop>, scalar: Scalar, alpha: Key, coins: nat -> nat, legs: seq<Leg>)
    requires hops != [] && Legs(c, mode, hops, scalar, alpha, coins) == Some(legs)
    ensures legs != [] && legs[0].alpha == alpha
    ensures Share(c, mode, hops[0], scalar, coins(|hops|)) == Some((legs[0].shared, legs[0].ciphertext))
    ensures var b := c.blind(legs[0].shared);
            && Legs(c, mode, hops[1..], c.times(scalar, b), c.mul(alpha, b), coins) == Some(legs[1..])
            && (|hops| > 1 ==> legs[1].alpha == c.mul(alpha, b))
  {
    var (shared, _) := Share(c, mode, hops[0], scalar, coins(|hops|)).value;
    var b := c.blind(shared);
    var rest := Legs(c, mode, hops[1..], c.times(scalar, b), c.mul(alpha, b), coins).value;
    assert legs[1..] == rest;
    if |hops| > 1 {
      assert rest[0].alpha == c.mul(alpha, b);
    }
  }

  /** The journey's secrets come from this scalar, its hops are owned by these nodes and new to them,
      and the packet's sections have their sizes. */
  ghost predicate Underway(
      j: Journey, inner: seq<byte>, junk: Junk, nodes: seq<MixNode>, scalar: Scalar, coins: nat -> nat)
  {
    && Lawful(j.c) && j.legs != [] && RouteOwned(j.c, nodes, j.route.hops) && Unseen(j.c, nodes, j.legs)
    && Legs(j.c, j.route.mode, j.route.hops, scalar, j.c.mul(j.c.base, scalar), coins) == Some(j.legs)
    && Offset(SLOT_SIZE, |j.legs|) + |junk.slots| == ROUTING_INFO_SIZE && |inner| == WIRE_BODY_SIZE
    && (j.route.mode.Hybrid? ==> |Ciphertexts(j.legs)| + |junk.kem| == KEM_BLOCK_SIZE)
  }

  /** One hop of a journey under way. */
  lemma FirstHop(
      j: Journey, inner: seq<byte>, junk: Junk, nodes: seq<MixNode>, scalar: Scalar, coins: nat -> nat,
      now: nat, noises: Noises)
    requires Underway(j, inner, junk, nodes, scalar, coins)
    ensures j.Shaped()
    ensures Process(j.c, j.route.mode, nodes[0], PacketAt(j, inner, junk), now, noises)
         == (NodeAfter(j, nodes[0], now, LooksLikeSurb(j, inner)), Handed(j, inner, junk, noises))
  {
    LegsStep(j.c, j.route.mode, j.route.hops, scalar, j.c.mul(j.c.base, scalar), coins, j.legs);
    SecretsAgree(j.c, j.route.mode, nodes[0], j.route.hops[0], scalar, coins(|j.route.hops|));
    HopAt(j, inner, junk, nodes[0], now, noises);
  }

  /** Behind that hop the journey goes on. */
  lemma HopsBehind(
      j: Journey, inner: seq<byte>, junk: Junk, nodes: seq<MixNode>, scalar: Scalar, coins: nat -> nat, noises: Noises)
    requires Underway(j, inner, junk, nodes, scalar, coins) && |j.legs| > 1
    ensures Underway(j.Rest(), inner, MoreJunk(junk, noises), nodes[1..],
                     j.c.times(scalar, j.c.blind(j.legs[0].shared)), coins)
  {
    LegsStep(j.c, j.route.mode, j.route.hops, scalar, j.c.mul(j.c.base, scalar), coins, j.legs);
    SecretsAgree(j.c, j.route.mode, nodes[0], j.route.hops[0], scalar, coins(|j.route.hops|));
    BlindingAgrees(j.c, scalar, j.c.blind(j.legs[0].shared));
    TailsOwned(j.c, nodes, j.route.hops, j.legs);
    if j.route.mode.Hybrid? {
      assert |Ciphertexts(j.legs)| == KEM_CIPHERTEXT_SIZE + |Ciphertexts(j.legs[1..])|;
    }
  }

  lemma TailsOwned(c: Crypto, nodes: seq<MixNode>, hops: seq<Hop>, legs: seq<Leg>)
    requires hops != [] && RouteOwned(c, nodes, hops) && Unseen(c, nodes, legs)
    ensures RouteOwned(c, nodes[1..], hops[1..]) && Unseen(c, nodes[1..], legs[1..])
  {
  }

  /** What holds of a trip with `text` at its end. */
  ghost predicate Completes(j: Journey, inner: seq<byte>, text: seq<byte>, nodes: seq<MixNode>, trip: Trip, now: nat)
    requires |nodes| == |j.route.hops| == |j.legs|
  {
    && |trip.nodes| == |nodes|
    && trip.announced == Announced(j.route)
    && trip.outcome == Some(Ok(text))
    && RemembersExactly(j, inner, nodes, trip.nodes, now)
  }

  /** The last hop completes a trip. */
  lemma LastHop(j: Journey, inner: seq<byte>, text: seq<byte>, node: MixNode, now: nat)
    requires j.Shaped() && |j.legs| == 1
    ensures var after := NodeAfter(j, node, now, LooksLikeSurb(j, inner));
            Completes(j, inner, text, [node], Trip([after], [j.route.destination], Some(Ok(text))), now)
  {
    assert Announced(j.route.Rest()) == [];
  }

  /** A hop before a trip that completes makes a longer one that completes. */
  lemma HopBefore(j: Journey, inner: seq<byte>, text: seq<byte>, nodes: seq<MixNode>, rest: Trip, now: nat)
    requires j.Shaped() && |nodes| == |j.legs| > 1 && Completes(j.Rest(), inner, text, nodes[1..], rest, now)
    ensures var after := NodeAfter(j, nodes[0], now, LooksLikeSurb(j, inner));
            var trip := Trip([after] + rest.nodes, [j.route.Next()] + rest.announced, rest.outcome);
            Completes(j, inner, text, nodes, trip, now)
  {
    var after := NodeAfter(j, nodes[0], now, LooksLikeSurb(j, inner));
    assert ([after] + rest.nodes)[1..] == rest.nodes;
  }

  /** A hop that forwards adds itself to the trip of the hops behind it. */
  lemma TravelForward(
      c: Crypto, mode: Mode, nodes: seq<MixNode>, p: SphinxPacket, now: nat, noises: nat -> Noises,
      node: MixNode, next: NodeId, packet: SphinxPacket)
    requires nodes != []
    requires Process(c, mode, nodes[0], p, now, noises(|nodes|)) == (node, Ok(Forward(next, packet)))
    ensures var rest := Travel(c, mode, nodes[1..], packet, now, noises);
            Travel(c, mode, nodes, p, now, noises)
              == Trip([node] + rest.nodes, [next] + rest.announced, rest.outcome)
  {
  }

  lemma TravelLast(
      j: Journey, inner: seq<byte>, text: seq<byte>, junk: Junk, nodes: seq<MixNode>, scalar: Scalar,
      coins: nat -> nat, now: nat, noises: nat -> Noises)
    requires Underway(j, inner, junk, nodes, scalar, coins) && Opens(j, inner, text) && |nodes| == 1
    ensures Completes(j, inner, text, nodes,
                      Travel(j.c, j.route.mode, nodes, PacketAt(j, inner, junk), now, noises), now)
  {
    FirstHop(j, inner, junk, nodes, scalar, coins, now, noises(1));
    LastHop(j, inner, text, nodes[0], now);
    assert nodes == [nodes[0]];
  }

  lemma TravelMore(
      j: Journey, inner: seq<byte>, text: seq<byte>, junk: Junk, nodes: seq<MixNode>, scalar: Scalar,
      coins: nat -> nat, now: nat, noises: nat -> Noises, rest: Trip)
    requires Underway(j, inner, junk, nodes, scalar, coins) && |nodes| > 1
    requires var next := PacketAt(j.Rest(), inner, MoreJunk(junk, noises(|nodes|)));
             rest == Travel(j.c, j.route.mode, nodes[1..], next, now, noises)
    requires Completes(j.Rest(), inner, text, nodes[1..], rest, now)
    ensures Completes(j, inner, text, nodes,
                      Travel(j.c, j.route.mode, nodes, PacketAt(j, inner, junk), now, noises), now)
  {
    FirstHop(j, inner, junk, nodes, scalar, coins, now, noises(|nodes|));
    TravelForward(j.c, j.route.mode, nodes, PacketAt(j, inner, junk), now, noises,
                  NodeAfter(j, nodes[0], now, LooksLikeSurb(j, inner)), j.route.Next(),
                  PacketAt(j.Rest(), inner, MoreJunk(junk, noises(|nodes|))));
    HopBefore(j, inner, text, nodes, rest, now);
  }

  lemma {:induction false} TravelAt(
      j: Journey, inner: seq<byte>, text: seq<byte>, junk: Junk, nodes: seq<MixNode>, scalar: Scalar,
      coins: nat -> nat, now: nat, noises: nat -> Noises)
    requires Underway(j, inner, junk, nodes, scalar, coins) && Opens(j, inner, text)
    ensures Completes(j, inner, text, nodes,
                      Travel(j.c, j.route.mode, nodes, PacketAt(j, inner, junk), now, noises), now)
    decreases |j.legs|
  {
    if |nodes| == 1 {
      TravelLast(j, inner, text, junk, nodes, scalar, coins, now, noises);
    } else {
      var more, b := MoreJunk(junk, noises(|nodes|)), j.c.blind(j.legs[0].shared);
      HopsBehind(j, inner, junk, nodes, scalar, coins, noises(|nodes|));
      OpensBehind(j, inner, text);
      TravelAt(j.Rest(), inner, text, more, nodes[1..], j.c.times(scalar, b), coins, now, noises);
      var rest := Travel(j.c, j.route.mode, nodes[1..], PacketAt(j.Rest(), inner, more), now, noises);
      TravelMore(j, inner, text, junk, nodes, scalar, coins, now, noises, rest);
    }
  }

  // ---------------------------------------------------------------- reply blocks

  /** The journey that a block made with these draws has before it. */
  function JourneyOf(c: Crypto, route: Route, draws: Draws, legs: seq<Leg>): Journey {
    Journey(c, route, draws.sessionId, legs)
  }

  /** Every hop announces the right next one, the last hands the zero-padded payload to the
      destination, and the hops that remember the session are exactly those that can tell the packet
      from an ordinary one. */
  ghost predicate Arrives(j: Journey, surb: Surb, payload: seq<byte>, nodes: seq<MixNode>, now: nat,
        noises: nat -> Noises)
    requires |payload| <= BODY_SIZE && |j.route.hops| == |j.legs| == |nodes|
  {
    && Wrap(j.c, j.route.mode, surb, payload).Ok?
    && var inner := Innermost(j.c, surb, payload);
       var trip := Travel(j.c, j.route.mode, nodes, Wrap(j.c, j.route.mode, surb, payload).value, now, noises);
       && |trip.nodes| == |nodes|
       && trip.announced == Announced(j.route)
       && trip.outcome == Some(Ok(ZeroPadded(payload)))
       && RemembersExactly(j, inner, nodes, trip.nodes, now)
       && (Recognisable(j, inner) ==> Primed(j, trip.nodes, now))
       && (NoneHolds(nodes, j.sessionId) ==> (Primed(j, trip.nodes, now) <==> Recognisable(j, inner)))
  }

  lemma MadeSurbCompletes(
      c: Crypto, route: Route, draws: Draws, legs: seq<Leg>, payload: seq<byte>, nodes: seq<MixNode>,
      now: nat, noises: nat -> Noises)
    requires Lawful(c) && 0 < |route.hops| <= MAX_HOPS && RouteOwned(c, nodes, route.hops) && |payload| <= BODY_SIZE
    requires RouteLegs(c, route, draws) == Some(legs) && Unseen(c, nodes, legs)
    ensures var j, surb := JourneyOf(c, route, draws, legs), Assemble(c, route, draws, legs);
            var packet := Wrap(c, route.mode, surb, payload);
            && packet.Ok?
            && var trip := Travel(c, route.mode, nodes, packet.value, now, noises);
            Completes(j, Innermost(c, surb, payload), ZeroPadded(payload), nodes, trip, now)
  {
    var j, inner := JourneyOf(c, route, draws, legs), Innermost(c, Assemble(c, route, draws, legs), payload);
    MadeOpens(c, route, draws, legs, payload);
    MadeIsUnderway(c, route, draws, legs, inner, nodes);
    MadeWraps(c, route, draws, legs, payload, nodes);
    var junk := FirstJunk(route.mode, |legs|, draws.noises);
    TravelAt(j, inner, ZeroPadded(payload), junk, nodes, draws.scalar, draws.coins, now, noises);
  }

  /** A block just made is at the start of its journey. */
  lemma MadeIsUnderway(
      c: Crypto, route: Route, draws: Draws, legs: seq<Leg>, inner: seq<byte>, nodes: seq<MixNode>)
    requires Lawful(c) && 0 < |route.hops| <= MAX_HOPS && RouteOwned(c, nodes, route.hops)
    requires RouteLegs(c, route, draws) == Some(legs) && Unseen(c, nodes, legs) && |inner| == WIRE_BODY_SIZE
    ensures Offset(SLOT_SIZE, |legs|) <= ROUTING_INFO_SIZE && Offset(KEM_CIPHERTEXT_SIZE, |legs|) <= KEM_BLOCK_SIZE
    ensures Underway(JourneyOf(c, route, draws, legs), inner, FirstJunk(route.mode, |legs|, draws.noises), nodes,
                     draws.scalar, draws.coins)
  {
    LegsExist(c, route.mode, nodes, route.hops, draws.scalar, draws.coins);
    RouteFits(|legs|);
  }

  lemma MadeOpens(c: Crypto, route: Route, draws: Draws, legs: seq<Leg>, payload: seq<byte>)
    requires Lawful(c) && 0 < |route.hops| == |legs| && |payload| <= BODY_SIZE
    ensures var inner := Innermost(c, Assemble(c, route, draws, legs), payload);
            |inner| == WIRE_BODY_SIZE && Opens(JourneyOf(c, route, draws, legs), inner, ZeroPadded(payload))
  {
    InnermostOpens(JourneyOf(c, route, draws, legs), Assemble(c, route, draws, legs), payload);
  }

  lemma MadeWraps(c: Crypto, route: Route, draws: Draws, legs: seq<Leg>, payload: seq<byte>, nodes: seq<MixNode>)
    requires Lawful(c) && 0 < |route.hops| <= MAX_HOPS && RouteOwned(c, nodes, route.hops) && |payload| <= BODY_SIZE
    requires RouteLegs(c, route, draws) == Some(legs)
    ensures Offset(SLOT_SIZE, |legs|) <= ROUTING_INFO_SIZE && Offset(KEM_CIPHERTEXT_SIZE, |legs|) <= KEM_BLOCK_SIZE
    ensures var surb := Assemble(c, route, draws, legs);
            var junk := FirstJunk(route.mode, |legs|, draws.noises);
            var packet := PacketAt(JourneyOf(c, route, draws, legs), Innermost(c, surb, payload), junk);
            Wrap(c, route.mode, surb, payload) == Ok(packet)
  {
    LegsExist(c, route.mode, nodes, route.hops, draws.scalar, draws.coins);
    RouteFits(|legs|);
    WrappedIsPacketAt(c, route, draws, legs, payload);
  }

  lemma MadeSurbArrives(
      c: Crypto, route: Route, draws: Draws, legs: seq<Leg>, payload: seq<byte>, nodes: seq<MixNode>,
      now: nat, noises: nat -> Noises)
    requires Lawful(c) && 0 < |route.hops| <= MAX_HOPS && RouteOwned(c, nodes, route.hops) && |payload| <= BODY_SIZE
    requires RouteLegs(c, route, draws) == Some(legs) && Unseen(c, nodes, legs)
    ensures Arrives(JourneyOf(c, route, draws, legs), Assemble(c, route, draws, legs), payload, nodes, now, noises)
  {
    var j, surb := JourneyOf(c, route, draws, legs), Assemble(c, route, draws, legs);
    MadeSurbCompletes(c, route, draws, legs, payload, nodes, now, noises);
    var trip := Travel(c, route.mode, nodes, Wrap(c, route.mode, surb, payload).value, now, noises);
    PrimedIffRecognisable(j, Innermost(c, surb, payload), nodes, trip.nodes, now);
  }

  /** Routes of 1 to MAX_HOPS hops: creation succeeds, names the first hop, and the block wrapped
      around any payload that fits arrives unless some hop has seen it before. */
  lemma SurbTraversesRoute(
      c: Crypto, route: Route, draws: Draws, payload: seq<byte>, nodes: seq<MixNode>, now: nat, noises: nat -> Noises)
    requires Lawful(c) && 0 < |route.hops| <= MAX_HOPS && RouteOwned(c, nodes, route.hops) && |payload| <= BODY_SIZE
    ensures RouteLegs(c, route, draws).Some?
    ensures var legs := RouteLegs(c, route, draws).value;
            var surb := Assemble(c, route, draws, legs);
            && Create(c, route, draws) == Ok(surb)
            && surb.firstHop == route.hops[0].nodeId
            && (Unseen(c, nodes, legs) ==>
                  Arrives(JourneyOf(c, route, draws, legs), surb, payload, nodes, now, noises))
  {
    LegsExist(c, route.mode, nodes, route.hops, draws.scalar, draws.coins);
    KeysSized(c, nodes, route.hops);
    var legs := RouteLegs(c, route, draws).value;
    if Unseen(c, nodes, legs) {
      MadeSurbArrives(c, route, draws, legs, payload, nodes, now, noises);
    }
  }

  /** With sound keys, creation succeeds exactly for routes of 1 to MAX_HOPS hops. */
  lemma CreateSucceeds(c: Crypto, route: Route, draws: Draws, nodes: seq<MixNode>)
    requires Lawful(c) && RouteOwned(c, nodes, route.hops)
    ensures Create(c, route, draws).Ok? <==> 0 < |route.hops| <= MAX_HOPS
  {
    LegsExist(c, route.mode, nodes, route.hops, draws.scalar, draws.coins);
    KeysSized(c, nodes, route.hops);
  }

  lemma KeysSized(c: Crypto, nodes: seq<MixNode>, hops: seq<Hop>)
    requires Lawful(c) && RouteOwned(c, nodes, hops)
    ensures KemKeysSized(hops)
  {
    forall i | 0 <= i < |hops| ensures |hops[i].kemPublicKey| == KEM_PUBLIC_KEY_SIZE {
      assert Owns(c, nodes[i], hops[i]);
      assert c.encapsulate(c.kemPublic(nodes[i].kemSecret), 0).Some?;
    }
  }

  lemma InnermostOpens(j: Journey, surb: Surb, payload: seq<byte>)
    requires Lawful(j.c) && j.Shaped() && |payload| <= BODY_SIZE
    requires surb.bodyAeadKey == j.c.aeadKey(j.legs[|j.legs| - 1].shared) && surb.aadDestination == j.route.destination
    ensures |Innermost(j.c, surb, payload)| == WIRE_BODY_SIZE
    ensures Opens(j, Innermost(j.c, surb, payload), ZeroPadded(payload))
  {
  }

  /** The noise with which the creator fills the two blocks. */
  function FirstJunk(mode: Mode, n: nat, noises: Noises): Junk
    requires Offset(SLOT_SIZE, n) <= ROUTING_INFO_SIZE && Offset(KEM_CIPHERTEXT_SIZE, n) <= KEM_BLOCK_SIZE
  {
    Junk(Noise(ROUTING_INFO_SIZE - Offset(SLOT_SIZE, n), noises.slots),
         if mode.Classical? then [] else Noise(KEM_BLOCK_SIZE - Offset(KEM_CIPHERTEXT_SIZE, n), noises.kem))
  }

  lemma WrappedIsPacketAt(c: Crypto, route: Route, draws: Draws, legs: seq<Leg>, payload: seq<byte>)
    requires 0 < |route.hops| == |legs| && |payload| <= BODY_SIZE
    requires Offset(SLOT_SIZE, |legs|) <= ROUTING_INFO_SIZE && Offset(KEM_CIPHERTEXT_SIZE, |legs|) <= KEM_BLOCK_SIZE
    requires route.mode.Hybrid? ==> |Ciphertexts(legs)| == Offset(KEM_CIPHERTEXT_SIZE, |legs|)
    ensures var surb := Assemble(c, route, draws, legs);
            var junk := FirstJunk(route.mode, |legs|, draws.noises);
            var packet := PacketAt(JourneyOf(c, route, draws, legs), Innermost(c, surb, payload), junk);
            Wrap(c, route.mode, surb, payload) == Ok(packet)
  {
  }

  // ---------------------------------------------------------------- a hop that forgets

  /** A node that has seen nothing yet. */
  function BlankNode(): MixNode {
    MixNode(0, [], Table(map[], []), Table(map[], []))
  }

  /** The condition is needed: with primitives whose tags all agree, which the laws allow, a block
      crosses its single hop and is delivered, and the hop does not remember the session. */
  lemma UnrecognisedIsForgotten(mode: Mode, nodeId: NodeId, destination: NodeId, draws: Draws, now: nat,
        noises: nat -> Noises)
    ensures var c := Transparent();
            var route := Route(mode, [Hop(nodeId, c.mul(c.base, 0), c.kemPublic([]))], destination);
            && Create(c, route, draws).Ok?
            && var packet := Wrap(c, mode, Create(c, route, draws).value, []);
            && packet.Ok?
            && var trip := Travel(c, mode, [BlankNode()], packet.value, now, noises);
            && trip.outcome == Some(Ok(Zeros(BODY_SIZE)))
            && |trip.nodes| == 1 && draws.sessionId !in trip.nodes[0].sessions.entries
  {
    var c, nodes := Transparent(), [BlankNode()];
    var route := Route(mode, [Hop(nodeId, c.mul(c.base, 0), c.kemPublic([]))], destination);
    LawsAreConsistent();
    SurbTraversesRoute(c, route, draws, [], nodes, now, noises);
    assert ZeroPadded([]) == Zeros(BODY_SIZE);
  }
}
