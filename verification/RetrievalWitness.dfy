/** Retrievals that succeed: primitives that meet the laws and let every hop tell a reply block's packet from
    an ordinary one, and a chunk of any number of fragments brought back whole. */
module RetrievalWitness {
  import opened Bytes
  import opened Sizes
  import opened SphinxCrypto
  import opened SphinxNode
  import opened Surb
  import opened SurbRoute
  import opened SurbDelivery
  import opened SurbReplies
  import opened RequestCodec
  import opened AnonymousRetrieval
  import Delivery
  import Fragment

  // ---------------------------------------------------------------- tags that differ

  /** What precedes the body in the text of a tag. */
  const PREFIX: nat := 1 + 32 + 32 + SLOT_SIZE

  /** A tag that shows bytes 4 to 7 of the body: the total in a fragment's header. */
  function Glimpse(text: seq<byte>): Mac {
    if |text| < PREFIX + 8 then Zeros(16) else text[PREFIX + 4..PREFIX + 8] + Zeros(12)
  }

  function Telling(): Crypto {
    Transparent().(mac := (key, text) => Glimpse(text))
  }

  lemma TellingIsLawful()
    ensures Lawful(Telling())
  {
    LawsAreConsistent();
    var plain, c := Transparent(), Telling();
    assert c.mul == plain.mul && c.seal == plain.seal && c.unseal == plain.unseal && c.kemPublic == plain.kemPublic;
    assert c.encapsulate == plain.encapsulate && c.decapsulate == plain.decapsulate && c.times == plain.times;
  }

  lemma TagShowsTotal(
      shared: Key, version: byte, alpha: Key, sessionId: Bytes32, slot: seq<byte>, body: seq<byte>)
    requires |slot| == SLOT_SIZE && |body| >= 8
    ensures HopMac(Telling(), shared, version, alpha, sessionId, slot, body) == body[4..8] + Zeros(12)
  {
    var prefix := [version] + alpha + sessionId + slot;
    assert |prefix| == PREFIX && (prefix + body)[PREFIX + 4..PREFIX + 8] == body[4..8];
  }

  /** Its layers change nothing. */
  lemma {:induction false} PlainOnion(keys: seq<Key>, body: seq<byte>)
    ensures Onion(Telling(), keys, body) == body
  {
    if keys != [] {
      PlainOnion(keys[1..], body);
      Pow2Of8();
      forall i | 0 <= i < |body| ensures Xor(body[i], 0) == body[i] {
        XorBitsZero(body[i], 8);
      }
    }
  }

  /** Every hop of every journey recognises a body with a total in its header. */
  lemma {:induction false} TotalIsRecognised(j: Journey, inner: seq<byte>)
    requires j.c == Telling() && |j.route.hops| == |j.legs|
    requires |inner| == WIRE_BODY_SIZE && inner[4..8] != Zeros(4)
    ensures Recognisable(j, inner)
    decreases |j.legs|
  {
    if j.legs != [] {
      HopTells(j, inner);
      TotalIsRecognised(j.Rest(), inner);
    }
  }

  lemma HopTells(j: Journey, inner: seq<byte>)
    requires j.c == Telling() && j.Shaped() && |inner| == WIRE_BODY_SIZE && inner[4..8] != Zeros(4)
    ensures LooksLikeSurb(j, inner)
  {
    var leg, own := j.legs[0], j.Seals()[0];
    SealsSplit(j);
    PlainOnion(BodyKeys(j.c, j.legs), inner);
    TagShowsTotal(leg.shared, Version(j.route.mode), leg.alpha, j.sessionId, own.slot, Zeros(WIRE_BODY_SIZE));
    TagShowsTotal(leg.shared, Version(j.route.mode), leg.alpha, j.sessionId, own.slot, inner);
    assert Zeros(WIRE_BODY_SIZE)[4..8] == Zeros(4);
    assert (inner[4..8] + Zeros(12))[..4] == inner[4..8] && (Zeros(4) + Zeros(12))[..4] == Zeros(4);
  }

  lemma FirstBodyHasTotal(response: seq<byte>, surb: Surb)
    requires |response| <= Delivery.MAX_PAYLOAD
    ensures var inner := Innermost(Telling(), surb, ResponseBodies(response)[0]);
            |inner| == WIRE_BODY_SIZE && inner[4..8] != Zeros(4)
  {
    var f := Fragment.FragmentsOf(response)[0];
    var body := Fragment.Encode(f);
    assert ZeroPadded(body) == body;
    assert Innermost(Telling(), surb, body) == body + Zeros(BODY_TAG_SIZE);
    assert (body + Zeros(BODY_TAG_SIZE))[4..8] == body[4..8] == U32(f.total);
    U32RoundTrip(f.total);
    FromZeros(4);
  }

  // ---------------------------------------------------------------- all fragments sent

  /** Nonces that never repeat. */
  ghost predicate Fresh(nonce: nat -> Bytes32, n: nat) {
    forall i: nat, j: nat :: i < n && j < n && nonce(i) == nonce(j) ==> i == j
  }

  lemma SomeNonces()
    ensures Fresh(i => IdNo(i), U16_LIMIT)
  {
    forall i: nat, j: nat | i < U16_LIMIT && j < U16_LIMIT && IdNo(i) == IdNo(j) ensures i == j {
      IdsDiffer(i, j);
    }
  }

  /** The fragments from `k` on, each under its own nonce. */
  function RestOfIt(k: nat, n: nat, now: nat, nonce: nat -> Bytes32): (parcels: seq<Parcel>)
    requires k <= n < U32_LIMIT
    ensures |parcels| == n - k
    ensures forall i :: 0 <= i < n - k ==> parcels[i] == Parcel(k + i, nonce(k + i), now)
    decreases n - k
  {
    if k == n then [] else [Parcel(k, nonce(k), now)] + RestOfIt(k + 1, n, now, nonce)
  }

  lemma {:induction false} NoncesDistinct(k: nat, n: nat, now: nat, nonce: nat -> Bytes32)
    requires k <= n < U32_LIMIT && Fresh(nonce, n)
    ensures DistinctNonces(RestOfIt(k, n, now, nonce))
    decreases n - k
  {
    if k < n {
      var p, rest := Parcel(k, nonce(k), now), RestOfIt(k + 1, n, now, nonce);
      NoncesDistinct(k + 1, n, now, nonce);
      assert p.nonce !in Nonces(rest);
      assert ([p] + rest)[1..] == rest;
    }
  }

  lemma RestCovers(n: nat, now: nat, nonce: nat -> Bytes32)
    requires 0 < n < U32_LIMIT
    ensures Delivery.Covers([0] + Indexes(RestOfIt(1, n, now, nonce)), n)
  {
    var order := [0] + Indexes(RestOfIt(1, n, now, nonce));
    forall i: Fragment.u32 | i < n ensures i in order {
      assert order[i] == i;
    }
  }

  // ---------------------------------------------------------------- the retrieval

  function SomeRoute(ids: seq<NodeId>, destination: NodeId): Route {
    var c := Telling();
    Route(Hybrid, seq(|ids|, i requires 0 <= i < |ids| => Hop(ids[i], c.mul(c.base, 0), c.kemPublic([]))), destination)
  }

  function BlankNodes(n: nat): seq<MixNode> {
    seq(n, i => BlankNode())
  }

  /** Every route of 1 to MAX_HOPS blank nodes brings back every chunk that fits, however many fragments it
      takes, under any nonces that do not repeat. */
  lemma ComesBackUnder(
      ids: seq<NodeId>, destination: NodeId, draws: Draws, chunkId: Bytes32, chunkData: Option<seq<byte>>,
      nonce: nat -> Bytes32, now: nat, noises: nat -> Noises, opening: nat)
      returns (legs: seq<Leg>, inbound: Inbound, outbound: Outbound)
    requires 0 < |ids| <= MAX_HOPS && Fresh(nonce, Fragment.MAX_FRAGMENTS_PER_MESSAGE)
    requires |EncodeResponse(ResponseFor(chunkId, chunkData))| <= Delivery.MAX_PAYLOAD
    ensures var c, route, nodes := Telling(), SomeRoute(ids, destination), BlankNodes(|ids|);
            var response := EncodeResponse(ResponseFor(chunkId, chunkData));
            && Retrievable(c, route, draws, legs, nodes, chunkId, chunkData, inbound, outbound)
            && Complete(c, Assemble(c, route, draws, legs), response, nodes, outbound)
  {
    var response := EncodeResponse(ResponseFor(chunkId, chunkData));
    outbound := AllSent(response, nonce, now, noises, opening);
    legs := RouteIsReady(ids, destination, draws, response, outbound.parcels);
    inbound := AnyRouteCompletes(Telling(), SomeRoute(ids, destination), draws, legs, BlankNodes(|ids|), chunkId,
        chunkData, outbound);
  }

  /** And there are such nonces: the conditions are met, every hop recognises the packet, and the response is
      complete at the requester. */
  lemma ChunkComesBack(
      ids: seq<NodeId>, destination: NodeId, draws: Draws, chunkId: Bytes32, chunkData: Option<seq<byte>>,
      now: nat, noises: nat -> Noises, opening: nat)
      returns (legs: seq<Leg>, inbound: Inbound, outbound: Outbound)
    requires 0 < |ids| <= MAX_HOPS && |EncodeResponse(ResponseFor(chunkId, chunkData))| <= Delivery.MAX_PAYLOAD
    ensures var c, route, nodes := Telling(), SomeRoute(ids, destination), BlankNodes(|ids|);
            var response := EncodeResponse(ResponseFor(chunkId, chunkData));
            && Retrievable(c, route, draws, legs, nodes, chunkId, chunkData, inbound, outbound)
            && Complete(c, Assemble(c, route, draws, legs), response, nodes, outbound)
  {
    SomeNonces();
    legs, inbound, outbound :=
      ComesBackUnder(ids, destination, draws, chunkId, chunkData, i => IdNo(i), now, noises, opening);
  }

  /** What remains once the route is ready and all of the answer arrives. */
  lemma AnyRouteCompletes(
      c: Crypto, route: Route, draws: Draws, legs: seq<Leg>, nodes: seq<MixNode>, chunkId: Bytes32,
      chunkData: Option<seq<byte>>, outbound: Outbound)
      returns (inbound: Inbound)
    requires route.mode.Hybrid? && ReadyFor(c, route, draws, legs, nodes)
    requires |EncodeResponse(ResponseFor(chunkId, chunkData))| <= Delivery.MAX_PAYLOAD
    requires Sent(outbound, EncodeResponse(ResponseFor(chunkId, chunkData)))
    requires AllArrives(c, route, draws, legs, EncodeResponse(ResponseFor(chunkId, chunkData)), outbound.parcels)
    ensures Retrievable(c, route, draws, legs, nodes, chunkId, chunkData, inbound, outbound)
    ensures var surb, response := Assemble(c, route, draws, legs), EncodeResponse(ResponseFor(chunkId, chunkData));
            Complete(c, surb, response, nodes, outbound)
  {
    inbound := AnyRouteServes(c, route, draws, legs, nodes, chunkId, chunkData, outbound);
    CompleteWhenCovered(c, route, draws, legs, nodes, chunkId, chunkData, inbound, outbound);
  }

  ghost predicate ReadyFor(c: Crypto, route: Route, draws: Draws, legs: seq<Leg>, nodes: seq<MixNode>) {
    && Lawful(c) && 0 < |route.hops| <= MAX_HOPS && RouteOwned(c, nodes, route.hops)
    && RouteLegs(c, route, draws) == Some(legs) && Unseen(c, nodes, legs) && NoneHolds(nodes, draws.sessionId)
  }

  ghost predicate AllArrives(
      c: Crypto, route: Route, draws: Draws, legs: seq<Leg>, response: seq<byte>, parcels: seq<Parcel>)
    requires 0 < |route.hops| == |legs|
  {
    var j, surb := JourneyOf(c, route, draws, legs), Assemble(c, route, draws, legs);
    Delivery.Covers(Arriving(j, surb, response, parcels), |Fragment.FragmentsOf(response)|)
  }

  lemma AllSent(response: seq<byte>, nonce: nat -> Bytes32, now: nat, noises: nat -> Noises, opening: nat)
      returns (outbound: Outbound)
    requires |response| <= Delivery.MAX_PAYLOAD && Fresh(nonce, Fragment.MAX_FRAGMENTS_PER_MESSAGE)
    ensures Sent(outbound, response)
    ensures Delivery.Covers([0] + Indexes(outbound.parcels), |Fragment.FragmentsOf(response)|)
  {
    var n := |ResponseBodies(response)|;
    Delivery.CountBounds(|response|, n);
    NoncesDistinct(1, n, now, nonce);
    RestCovers(n, now, nonce);
    outbound := Outbound(RestOfIt(1, n, now, nonce), now, noises, opening);
  }

  lemma RouteIsReady(
      ids: seq<NodeId>, destination: NodeId, draws: Draws, response: seq<byte>, parcels: seq<Parcel>)
      returns (legs: seq<Leg>)
    requires 0 < |ids| <= MAX_HOPS && |response| <= Delivery.MAX_PAYLOAD
    requires Delivery.Covers([0] + Indexes(parcels), |Fragment.FragmentsOf(response)|)
    ensures var c, route := Telling(), SomeRoute(ids, destination);
            && ReadyFor(c, route, draws, legs, BlankNodes(|ids|))
            && AllArrives(c, route, draws, legs, response, parcels)
  {
    var c, route, nodes := Telling(), SomeRoute(ids, destination), BlankNodes(|ids|);
    TellingIsLawful();
    assert RouteOwned(c, nodes, route.hops);
    LegsExist(c, route.mode, nodes, route.hops, draws.scalar, draws.coins);
    legs := RouteLegs(c, route, draws).value;
    EverythingArrives(JourneyOf(c, route, draws, legs), Assemble(c, route, draws, legs), response, parcels);
  }

  lemma EverythingArrives(j: Journey, surb: Surb, response: seq<byte>, parcels: seq<Parcel>)
    requires j.c == Telling() && |j.route.hops| == |j.legs| && |response| <= Delivery.MAX_PAYLOAD
    requires Delivery.Covers([0] + Indexes(parcels), |Fragment.FragmentsOf(response)|)
    ensures Delivery.Covers(Arriving(j, surb, response, parcels), |Fragment.FragmentsOf(response)|)
  {
    FirstBodyHasTotal(response, surb);
    TotalIsRecognised(j, Innermost(j.c, surb, ResponseBodies(response)[0]));
  }
}
