/** A whole anonymous retrieval: reply block, request, response, with everything in between. */
module AnonymousRetrieval {
  import opened Bytes
  import opened Sizes
  import opened FifoTable
  import opened SphinxCrypto
  import opened SphinxNode
  import opened Surb
  import opened SurbRoute
  import opened SurbDelivery
  import opened SurbReplies
  import opened SurbCodec
  import opened RequestCodec
  import Delivery
  import Fragment
  import Sessions
  import SurbRequest

  /** The request a requester makes around its reply block. */
  function RequestFor(chunkId: Bytes32, surb: Surb): ChunkRequest {
    ChunkRequest(chunkId, [], surb.aadDestination, Some(EncodeSurb(surb)))
  }

  /** What a holder makes of a reassembled request: the block to answer with and the response. */
  function Answer(request: seq<byte>, chunkData: Option<seq<byte>>): Option<(Surb, seq<byte>)> {
    match DecodeRequest(request)
    case Err(_) => None
    case Ok(q) =>
      if q.surb.None? then None
      else
        match DecodeSurb(q.surb.value)
        case Err(_) => None
        case Ok(surb) => Some((surb, EncodeResponse(ResponseFor(q.chunkId, chunkData))))
  }

  function ResponseFor(chunkId: Bytes32, chunkData: Option<seq<byte>>): ChunkResponse {
    match chunkData
    case None => ChunkResponse(chunkId, [], false)
    case Some(data) => ChunkResponse(chunkId, data, true)
  }

  /** The holder reads back the very block, and the request fits the reassembler. */
  lemma BlockIsReadBack(chunkId: Bytes32, surb: Surb, chunkData: Option<seq<byte>>)
    requires GoodSurb(surb)
    ensures var request := EncodeRequest(RequestFor(chunkId, surb));
            && Answer(request, chunkData) == Some((surb, EncodeResponse(ResponseFor(chunkId, chunkData))))
            && |SurbRequest.Pieces(request)| <= Fragment.MAX_FRAGMENTS_PER_MESSAGE
  {
    var q := RequestFor(chunkId, surb);
    var request := EncodeRequest(q);
    GoodSurbSize(surb);
    RequestBytesRoundTrip(q, 0);
    assert request + Zeros(0) == request;
    SurbRoundTrip(surb, []);
    assert EncodeSurb(surb) + [] == EncodeSurb(surb);
    FewPieces(|request|);
  }

  lemma FewPieces(len: nat)
    requires len <= 2 * MAX_SERIALIZED_SURB_SIZE
    ensures SurbRequest.BodyCount(len) <= Fragment.MAX_FRAGMENTS_PER_MESSAGE
  {
  }

  /** The holder's side: its sessions, what reached it before the last part of the request, that part
      and when it came, and the limits on session ids and time. */
  datatype Inbound = Inbound(
    sessions: Sessions.Sessions, arrivals: seq<SurbRequest.Arrival>, part: Fragment.u32, at: nat,
    ids: set<Sessions.MessageId>, start: nat)

  /** The parts of the request, in any order and mixed with other sessions, are complete with the last. */
  ghost predicate Completing(b: Inbound, request: seq<byte>, sessionId: Bytes32) {
    var n, key := |SurbRequest.Pieces(request)|, SurbRequest.KeyOf(sessionId);
    && b.part < n
    && b.sessions.entries.Keys + {key} <= b.ids && key !in b.sessions.entries
    && (forall a :: a in b.arrivals ==> SurbRequest.Plausible(a, n, key, b.ids, b.start))
    && SurbRequest.WithinLimits(b.ids, b.start, b.at)
    && !Delivery.Covers(SurbRequest.OwnOrder(b.arrivals), n)
    && Delivery.Covers(SurbRequest.OwnOrder(b.arrivals) + [b.part], n)
  }

  /** The parts one after another to a holder without sessions. */
  function InSequence(n: nat): (arrivals: seq<SurbRequest.Arrival>)
    requires n <= Fragment.MAX_FRAGMENTS_PER_MESSAGE
    ensures |arrivals| == n
  {
    seq(n, i requires 0 <= i < n => SurbRequest.Own(0, i))
  }

  lemma {:induction false} OwnInSequence(n: nat)
    requires n <= Fragment.MAX_FRAGMENTS_PER_MESSAGE
    ensures var order := SurbRequest.OwnOrder(InSequence(n));
            |order| == n && forall i :: 0 <= i < n ==> order[i] == i
  {
    if n > 0 {
      OwnInSequence(n - 1);
      assert InSequence(n)[..n - 1] == InSequence(n - 1);
    }
  }

  /** Every request small enough has arrivals that complete it. */
  lemma InSequenceCompletes(request: seq<byte>, sessionId: Bytes32)
    requires |SurbRequest.Pieces(request)| <= Fragment.MAX_FRAGMENTS_PER_MESSAGE
    ensures var n, key := |SurbRequest.Pieces(request)|, SurbRequest.KeyOf(sessionId);
            n > 0 && Completing(Inbound(Table(map[], []), InSequence(n - 1), n - 1, 0, {key}, 0), request, sessionId)
  {
    var n, key := |SurbRequest.Pieces(request)|, SurbRequest.KeyOf(sessionId);
    OwnInSequence(n - 1);
    var order, last := SurbRequest.OwnOrder(InSequence(n - 1)), n - 1;
    assert last !in order;
    forall i: Fragment.u32 | i < n ensures i in order + [last] {
      assert i < last ==> order[i] == i;
    }
  }

  /** What the holder says to the last part. */
  function LastReply(b: Inbound, request: seq<byte>, sessionId: Bytes32): SurbRequest.Reply {
    var holder := SurbRequest.Serve(b.sessions, b.arrivals, request, sessionId);
    SurbRequest.TryFeed(holder, SurbRequest.BodyOf(SurbRequest.Own(b.at, b.part), request, sessionId), b.at).1
  }

  /** The holder gets the request, reads the very same block from it, and has its answer ready. */
  lemma HolderAnswers(chunkId: Bytes32, surb: Surb, sessionId: Bytes32, chunkData: Option<seq<byte>>, b: Inbound)
    requires GoodSurb(surb) && Completing(b, EncodeRequest(RequestFor(chunkId, surb)), sessionId)
    ensures var request := EncodeRequest(RequestFor(chunkId, surb));
            && LastReply(b, request, sessionId) == SurbRequest.Request(request)
            && Answer(request, chunkData) == Some((surb, EncodeResponse(ResponseFor(chunkId, chunkData))))
  {
    var request := EncodeRequest(RequestFor(chunkId, surb));
    BlockIsReadBack(chunkId, surb, chunkData);
    SurbRequest.SurbRequestRoundTrip(b.sessions, b.arrivals, request, sessionId, b.part, b.at, b.ids, b.start);
  }

  /** The way back: the session replies in the order they are sent, when the first packet is processed,
      the noise its hops draw, and when the requester opens its reassembly. */
  datatype Outbound = Outbound(parcels: seq<Parcel>, now: nat, noises: nat -> Noises, opening: nat)

  predicate Sent(b: Outbound, response: seq<byte>) {
    DistinctNonces(b.parcels) && Sendable(b.parcels, |ResponseBodies(response)|, b.now)
  }

  /** Sound keys on a hybrid route whose hops have not seen the block, a request that becomes complete at the
      holder, and a response that fits and is sent while the session lives. */
  ghost predicate Retrievable(
      c: Crypto, route: Route, draws: Draws, legs: seq<Leg>, nodes: seq<MixNode>, chunkId: Bytes32,
      chunkData: Option<seq<byte>>, inbound: Inbound, outbound: Outbound)
  {
    && Lawful(c) && route.mode.Hybrid? && 0 < |route.hops| <= MAX_HOPS && RouteOwned(c, nodes, route.hops)
    && RouteLegs(c, route, draws) == Some(legs) && Unseen(c, nodes, legs) && NoneHolds(nodes, draws.sessionId)
    && Completing(inbound, EncodeRequest(RequestFor(chunkId, Assemble(c, route, draws, legs))), draws.sessionId)
    && |EncodeResponse(ResponseFor(chunkId, chunkData))| <= Delivery.MAX_PAYLOAD
    && Sent(outbound, EncodeResponse(ResponseFor(chunkId, chunkData)))
  }

  /** Every hybrid route with sound keys and hops new to the block can be used for every chunk that fits: the
      parts of the request in sequence, the answer in any way. */
  lemma AnyRouteServes(
      c: Crypto, route: Route, draws: Draws, legs: seq<Leg>, nodes: seq<MixNode>, chunkId: Bytes32,
      chunkData: Option<seq<byte>>, outbound: Outbound)
      returns (inbound: Inbound)
    requires Lawful(c) && route.mode.Hybrid? && 0 < |route.hops| <= MAX_HOPS && RouteOwned(c, nodes, route.hops)
    requires RouteLegs(c, route, draws) == Some(legs) && Unseen(c, nodes, legs) && NoneHolds(nodes, draws.sessionId)
    requires |EncodeResponse(ResponseFor(chunkId, chunkData))| <= Delivery.MAX_PAYLOAD
    requires Sent(outbound, EncodeResponse(ResponseFor(chunkId, chunkData)))
    ensures Retrievable(c, route, draws, legs, nodes, chunkId, chunkData, inbound, outbound)
  {
    var surb := Assemble(c, route, draws, legs);
    MadeIsGood(c, route, draws, legs, nodes);
    BlockIsReadBack(chunkId, surb, chunkData);
    inbound := SomeInbound(EncodeRequest(RequestFor(chunkId, surb)), draws.sessionId);
  }

  lemma MadeIsGood(c: Crypto, route: Route, draws: Draws, legs: seq<Leg>, nodes: seq<MixNode>)
    requires Lawful(c) && 0 < |route.hops| <= MAX_HOPS && RouteOwned(c, nodes, route.hops)
    requires RouteLegs(c, route, draws) == Some(legs)
    ensures GoodSurb(Assemble(c, route, draws, legs))
  {
    KeysSized(c, nodes, route.hops);
    CreatedIsGood(c, route, draws, nodes);
  }

  lemma SomeInbound(request: seq<byte>, sessionId: Bytes32) returns (inbound: Inbound)
    requires |SurbRequest.Pieces(request)| <= Fragment.MAX_FRAGMENTS_PER_MESSAGE
    ensures Completing(inbound, request, sessionId)
  {
    var n := |SurbRequest.Pieces(request)|;
    InSequenceCompletes(request, sessionId);
    inbound := Inbound(Table(map[], []), InSequence(n - 1), n - 1, 0, {SurbRequest.KeyOf(sessionId)}, 0);
  }

  /** The requester makes a block and a request around it; the parts of the request reach the holder in
      any order, mixed with other sessions. The part that completes it makes the holder read the very
      same block and answer with it; that answer, sent as one packet and session replies in any order,
      is complete at the requester exactly when all of it was sent (and, beyond the first fragment,
      every hop could tell the first packet from an ordinary one), and is the chunk asked for. */
  lemma RetrievalRoundTrip(
      c: Crypto, route: Route, draws: Draws, legs: seq<Leg>, nodes: seq<MixNode>, chunkId: Bytes32,
      chunkData: Option<seq<byte>>, inbound: Inbound, outbound: Outbound)
    requires Retrievable(c, route, draws, legs, nodes, chunkId, chunkData, inbound, outbound)
    ensures var surb := Assemble(c, route, draws, legs);
            var request := EncodeRequest(RequestFor(chunkId, surb));
            var response := EncodeResponse(ResponseFor(chunkId, chunkData));
            var order := Arriving(JourneyOf(c, route, draws, legs), surb, response, outbound.parcels);
            && Create(c, route, draws) == Ok(surb)
            && LastReply(inbound, request, draws.sessionId) == SurbRequest.Request(request)
            && Answer(request, chunkData) == Some((surb, response))
            && Returns(c, surb, response, outbound.parcels, order, nodes,
                       outbound.now, outbound.noises, outbound.opening)
            && DecodeResponse(response) == Ok(ResponseFor(chunkId, chunkData))
  {
    var surb, response := Assemble(c, route, draws, legs), EncodeResponse(ResponseFor(chunkId, chunkData));
    SurbReplies.ResponseRoundTrip(c, route, draws, response, outbound.parcels, nodes, outbound.now, outbound.noises,
                                  outbound.opening);
    CreatedIsGood(c, route, draws, nodes);
    HolderAnswers(chunkId, surb, draws.sessionId, chunkData, inbound);
    ResponseIsReadBack(ResponseFor(chunkId, chunkData));
  }

  /** The requester has put the whole response together again. */
  ghost predicate Complete(
      c: Crypto, surb: Surb, response: seq<byte>, nodes: seq<MixNode>, outbound: Outbound)
    requires Indexed(outbound.parcels, |ResponseBodies(response)|)
  {
    var got := Received(c, surb, nodes, ResponseBodies(response), outbound.parcels, outbound.now, outbound.noises);
    var r := Delivery.Receive(Fragment.Fresh(outbound.opening), got);
    Fragment.IsComplete(r) && Fragment.Reassemble(r) == Ok(response)
  }

  /** In particular it has once every fragment is among those that arrive. */
  lemma CompleteWhenCovered(
      c: Crypto, route: Route, draws: Draws, legs: seq<Leg>, nodes: seq<MixNode>, chunkId: Bytes32,
      chunkData: Option<seq<byte>>, inbound: Inbound, outbound: Outbound)
    requires Retrievable(c, route, draws, legs, nodes, chunkId, chunkData, inbound, outbound)
    requires var response := EncodeResponse(ResponseFor(chunkId, chunkData));
             var surb := Assemble(c, route, draws, legs);
             Delivery.Covers(Arriving(JourneyOf(c, route, draws, legs), surb, response, outbound.parcels),
                             |Fragment.FragmentsOf(response)|)
    ensures var surb, response := Assemble(c, route, draws, legs), EncodeResponse(ResponseFor(chunkId, chunkData));
            Complete(c, surb, response, nodes, outbound)
  {
    RetrievalRoundTrip(c, route, draws, legs, nodes, chunkId, chunkData, inbound, outbound);
  }

  lemma ResponseIsReadBack(r: ChunkResponse)
    requires |EncodeResponse(r)| <= Delivery.MAX_PAYLOAD
    ensures DecodeResponse(EncodeResponse(r)) == Ok(r)
  {
    ResponseBytesRoundTrip(r, []);
    assert EncodeResponse(r) + [] == EncodeResponse(r);
  }
}
