/** Chunk requests cut into Sphinx bodies and put together again by the holder, session by session. */
module SurbRequest {
  import opened Bytes
  import opened Sizes
  import opened FifoTable
  import opened Delivery
  import Fragment
  import Sessions

  type u32 = Fragment.u32

  const MSG_SURB_CHUNK_REQUEST: byte := 3
  const WRAPPER_SIZE: nat := 1 + SESSION_ID_SIZE
  const SURB_REQUEST_CHUNK_SIZE: nat := BODY_SIZE - WRAPPER_SIZE - Fragment.FRAGMENT_HEADER_SIZE
  const SURB_REQUEST_TIMEOUT_SECS: nat := 120

  // ---------------------------------------------------------------- sending

  function BodyCount(len: nat): nat {
    var n := Fragment.PieceCount(len, SURB_REQUEST_CHUNK_SIZE);
    if n < 1 then 1 else n
  }

  function Pieces(request: seq<byte>): seq<seq<byte>> {
    PiecesOf(request, SURB_REQUEST_CHUNK_SIZE, BodyCount(|request|))
  }

  function Body(sessionId: Bytes32, i: nat, n: nat, data: seq<byte>): (body: seq<byte>)
    ensures |body| == WRAPPER_SIZE + Fragment.FRAGMENT_HEADER_SIZE + |data|
  {
    [MSG_SURB_CHUNK_REQUEST] + sessionId + Fragment.Header(i, n, |data|) + data
  }

  /** The body that carries piece `i` of the request. */
  function BodyAt(request: seq<byte>, sessionId: Bytes32, i: nat): (body: seq<byte>)
    requires i < |Pieces(request)|
    ensures |body| <= BODY_SIZE
  {
    Body(sessionId, i, |Pieces(request)|, Pieces(request)[i])
  }

  /** One body per piece, each within one Sphinx body. */
  method BuildSurbRequestBodies(request: seq<byte>, sessionId: Bytes32) returns (bodies: seq<seq<byte>>)
    ensures |bodies| == |Pieces(request)|
    ensures forall i :: 0 <= i < |bodies| ==> bodies[i] == BodyAt(request, sessionId, i) && |bodies[i]| <= BODY_SIZE
  {
    var total := BodyCount(|request|);
    bodies := [];
    for i := 0 to total
      invariant |bodies| == i
      invariant forall k :: 0 <= k < i ==> bodies[k] == BodyAt(request, sessionId, k)
    {
      var body := BuildBody(request, sessionId, i, total);
      bodies := bodies + [body];
    }
  }

  method BuildBody(request: seq<byte>, sessionId: Bytes32, i: nat, total: nat) returns (body: seq<byte>)
    requires i < total == BodyCount(|request|)
    ensures body == BodyAt(request, sessionId, i)
  {
    PieceAt(request, i);
    var start := i * SURB_REQUEST_CHUNK_SIZE;
    var end := Min(start + SURB_REQUEST_CHUNK_SIZE, |request|);
    var data := request[start..end];
    body := [MSG_SURB_CHUNK_REQUEST] + sessionId + Fragment.Header(i, total, |data|) + data;
  }

  lemma PieceAt(request: seq<byte>, i: nat)
    requires i < BodyCount(|request|)
    ensures i * SURB_REQUEST_CHUNK_SIZE <= |request|
    ensures var start := i * SURB_REQUEST_CHUNK_SIZE;
            request[start..Min(start + SURB_REQUEST_CHUNK_SIZE, |request|)] == Pieces(request)[i]
  {
    OffsetIsProduct(SURB_REQUEST_CHUNK_SIZE, i);
  }

  /** A Sphinx destination sees the body padded with zeros to full size. */
  function Padded(body: seq<byte>): seq<byte> {
    body + Zeros(if |body| < BODY_SIZE then BODY_SIZE - |body| else 0)
  }

  // ---------------------------------------------------------------- receiving

  datatype Reply = NotARequest | Buffered | Request(bytes: seq<byte>)

  function KeyOf(sessionId: seq<byte>): Sessions.MessageId
    requires |sessionId| >= 8
  {
    FromBigEndian(sessionId[..8])
  }

  /** The session and fragment a body carries, if it is a request body at all. */
  function Parse(body: seq<byte>): Option<(Sessions.MessageId, Fragment.Fragment)> {
    if |body| < WRAPPER_SIZE + Fragment.FRAGMENT_HEADER_SIZE then None
    else if body[0] != MSG_SURB_CHUNK_REQUEST then None
    else
      match Fragment.Decode(body[WRAPPER_SIZE..])
      case Err(_) => None
      case Ok(f) => Some((KeyOf(body[1..WRAPPER_SIZE]), f))
  }

  function Swept(t: Sessions.Sessions, now: nat): Sessions.Sessions {
    RemoveAll(t, Sessions.Expired(t, now, SURB_REQUEST_TIMEOUT_SECS))
  }

  function TryFeed(t: Sessions.Sessions, body: seq<byte>, now: nat): (Sessions.Sessions, Reply) {
    match Parse(body)
    case None => (t, NotARequest)
    case Some((key, f)) =>
      var (s, isNew) := Sessions.AddTo(Swept(t, now), key, f, now);
      if !isNew then (s, Buffered)
      else if key !in s.entries then (s, NotARequest)
      else if !Fragment.IsComplete(s.entries[key]) then (s, Buffered)
      else
        match Fragment.Reassemble(s.entries[key])
        case Err(_) => (s, NotARequest)
        case Ok(data) => (RemoveAll(s, {key}), Request(data))
  }

  method TryFeedSurbRequestFragment(manager: Sessions.ReassemblyManager, body: seq<byte>, now: nat)
        returns (reply: Reply)
    modifies manager
    ensures (manager.State(), reply) == TryFeed(old(manager.State()), body, now)
  {
    if |body| < 1 + SESSION_ID_SIZE + Fragment.FRAGMENT_HEADER_SIZE {
      return NotARequest;
    }
    if body[0] != MSG_SURB_CHUNK_REQUEST {
      return NotARequest;
    }
    var sessionId := body[1..1 + SESSION_ID_SIZE];
    var fragment := Fragment.Decode(body[1 + SESSION_ID_SIZE..]);
    if fragment.Err? {
      return NotARequest;
    }
    var key := KeyOf(sessionId);
    var _ := manager.CleanupExpired(now, SURB_REQUEST_TIMEOUT_SECS);
    var isNew := manager.AddFragment(key, fragment.value, now);
    if !isNew {
      return Buffered;
    }
    if key !in manager.sessions {
      return NotARequest;
    }
    if !Fragment.IsComplete(manager.sessions[key]) {
      return Buffered;
    }
    var data := Fragment.Reassemble(manager.sessions[key]);
    if data.Err? {
      return NotARequest;
    }
    var _ := manager.Remove(key);
    reply := Request(data.value);
  }

  // ---------------------------------------------------------------- any body

  /** Which bodies are request bodies, and what they carry: 45 bytes or more, of type 3, with as much data as they
      announce. Any other changes nothing. */
  lemma RequestBodyIff(t: Sessions.Sessions, body: seq<byte>, now: nat)
    ensures Parse(body).Some? <==> |body| >= 45 && body[0] == 3 && 45 + FromU32(body[41..45]) <= |body|
    ensures Parse(body).Some? ==>
              var len := FromU32(body[41..45]);
              Parse(body).value == (FromBigEndian(body[1..9]),
                                    Fragment.Fragment(FromU32(body[33..37]), FromU32(body[37..41]), body[45..45 + len]))
    ensures Parse(body).None? ==> TryFeed(t, body, now) == (t, NotARequest)
  {
    if |body| >= 45 {
      var rest := body[33..];
      assert rest[0..4] == body[33..37] && rest[4..8] == body[37..41] && rest[8..12] == body[41..45];
      assert body[1..33][..8] == body[1..9];
      var len := FromU32(body[41..45]);
      if 45 + len <= |body| {
        assert rest[12..12 + len] == body[45..45 + len];
      }
    }
  }

  /** A request body clears out the other sessions opened two minutes ago or earlier, and none of the rest unless
      the table is full. */
  lemma FeedClears(t: Sessions.Sessions, body: seq<byte>, now: nat, other: Sessions.MessageId)
    requires Parse(body).Some? && other != Parse(body).value.0
    ensures var after := TryFeed(t, body, now).0.entries;
            && (other in after ==>
                  && other in t.entries && now < t.entries[other].createdAt + 120
                  && after[other] == t.entries[other])
            && (other in t.entries && now < t.entries[other].createdAt + 120 && |t.entries| < 64 ==> other in after)
  {
    var (key, f) := Parse(body).value;
    var swept := Swept(t, now);
    Cardinality(swept.entries.Keys, t.entries.Keys);
    assert |swept.entries| == |swept.entries.Keys| <= |t.entries.Keys| == |t.entries|;
    AddSpares(swept, key, f, now, other);
    FeedKeepsOthers(t, body, now, other);
  }

  lemma AddSpares(t: Sessions.Sessions, id: Sessions.MessageId, f: Fragment.Fragment, now: nat,
                  other: Sessions.MessageId)
    requires other != id
    ensures var after := Sessions.AddTo(t, id, f, now).0.entries;
            && (other in after ==> other in t.entries && after[other] == t.entries[other])
            && (other in t.entries && |t.entries| < 64 ==> other in after)
  {
  }

  lemma FeedKeepsOthers(t: Sessions.Sessions, body: seq<byte>, now: nat, other: Sessions.MessageId)
    requires Parse(body).Some? && other != Parse(body).value.0
    ensures var added := Sessions.AddTo(Swept(t, now), Parse(body).value.0, Parse(body).value.1, now).0.entries;
            var after := TryFeed(t, body, now).0.entries;
            (other in after <==> other in added) && (other in after ==> after[other] == added[other])
  {
  }

  // ---------------------------------------------------------------- round trip

  lemma WrapperSlices(sessionId: Bytes32, rest: seq<byte>)
    ensures var body := [MSG_SURB_CHUNK_REQUEST] + sessionId + rest;
            && |body| == WRAPPER_SIZE + |rest|
            && body[0] == MSG_SURB_CHUNK_REQUEST
            && body[1..WRAPPER_SIZE] == sessionId
            && body[WRAPPER_SIZE..] == rest
  {
  }

  /** A padded body is read back as its session and part. */
  lemma ParseBody(sessionId: Bytes32, i: u32, n: u32, data: seq<byte>)
    requires |data| <= SURB_REQUEST_CHUNK_SIZE
    ensures Parse(Padded(Body(sessionId, i, n, data))) == Some((KeyOf(sessionId), Fragment.Fragment(i, n, data)))
    ensures |Padded(Body(sessionId, i, n, data))| == BODY_SIZE
  {
    var padding := Zeros(SURB_REQUEST_CHUNK_SIZE - |data|);
    var rest := Fragment.Header(i, n, |data|) + data + padding;
    BodyLayout(sessionId, i, n, data, padding);
    Fragment.DecodeIgnoresPadding(i, n, data, padding);
    WrapperSlices(sessionId, rest);
  }

  lemma BodyLayout(sessionId: Bytes32, i: u32, n: u32, data: seq<byte>, padding: seq<byte>)
    requires |data| <= SURB_REQUEST_CHUNK_SIZE && padding == Zeros(SURB_REQUEST_CHUNK_SIZE - |data|)
    ensures Padded(Body(sessionId, i, n, data))
         == [MSG_SURB_CHUNK_REQUEST] + sessionId + (Fragment.Header(i, n, |data|) + data + padding)
    ensures |Padded(Body(sessionId, i, n, data))| == BODY_SIZE
  {
    var front := [MSG_SURB_CHUNK_REQUEST] + sessionId;
    Regroup(front, Fragment.Header(i, n, |data|), data, padding);
    assert Padded(Body(sessionId, i, n, data)) == Body(sessionId, i, n, data) + padding;
  }

  lemma Regroup(a: seq<byte>, b: seq<byte>, d: seq<byte>, p: seq<byte>)
    ensures a + b + d + p == a + (b + d + p)
  {
  }

  lemma PiecesFit(request: seq<byte>)
    requires |Pieces(request)| <= Fragment.MAX_FRAGMENTS_PER_MESSAGE
    ensures Deliverable(Pieces(request)) && Join(Pieces(request)) == request
  {
    var n := BodyCount(|request|);
    assert |request| <= n * SURB_REQUEST_CHUNK_SIZE;
    OffsetIsProduct(SURB_REQUEST_CHUNK_SIZE, n);
    PiecesJoin(request, SURB_REQUEST_CHUNK_SIZE, n);
  }

  /** What reaches the holder: a part of the request followed, or any body of another session. */
  datatype Arrival = Own(now: nat, part: u32) | Other(now: nat, body: seq<byte>)

  function BodyOf(a: Arrival, request: seq<byte>, sessionId: Bytes32): seq<byte> {
    match a
    case Own(_, i) => if i < |Pieces(request)| then Padded(BodyAt(request, sessionId, i)) else []
    case Other(_, body) => body
  }

  /** The holder's sessions after all arrivals. */
  function Serve(t: Sessions.Sessions, arrivals: seq<Arrival>, request: seq<byte>, sessionId: Bytes32)
      : Sessions.Sessions
  {
    if arrivals == [] then t
    else
      var last := arrivals[|arrivals| - 1];
      TryFeed(Serve(t, arrivals[..|arrivals| - 1], request, sessionId), BodyOf(last, request, sessionId), last.now).0
  }

  function OwnOrder(arrivals: seq<Arrival>): seq<u32> {
    if arrivals == [] then []
    else
      var before, last := OwnOrder(arrivals[..|arrivals| - 1]), arrivals[|arrivals| - 1];
      if last.Own? then before + [last.part] else before
  }

  /** The followed session after its parts arrived in `order`; all sessions have ids in `ids`. */
  ghost predicate Tracks(t: Sessions.Sessions, key: Sessions.MessageId, pieces: seq<seq<byte>>, order: seq<u32>,
                         ids: set<Sessions.MessageId>, start: nat)
    requires |pieces| < U32_LIMIT && Numbered(order, |pieces|)
  {
    && t.entries.Keys <= ids
    && (order == [] ==> key !in t.entries)
    && (order != [] ==>
          && key in t.entries
          && start <= t.entries[key].createdAt
          && t.entries[key] == Holding(pieces, order, t.entries[key].createdAt))
  }

  /** No more session ids are in use than the table has places, and none ages past the timeout. */
  ghost predicate WithinLimits(ids: set<Sessions.MessageId>, start: nat, now: nat) {
    |ids| <= Sessions.MAX_REASSEMBLER_MESSAGES && start <= now < start + SURB_REQUEST_TIMEOUT_SECS
  }

  lemma SweptTracks(t: Sessions.Sessions, key: Sessions.MessageId, pieces: seq<seq<byte>>, order: seq<u32>,
                    ids: set<Sessions.MessageId>, start: nat, now: nat)
    requires |pieces| < U32_LIMIT && Numbered(order, |pieces|)
    requires Tracks(t, key, pieces, order, ids, start) && WithinLimits(ids, start, now)
    ensures Tracks(Swept(t, now), key, pieces, order, ids, start)
  {
  }

  /** Within the limits nothing is evicted to make room. */
  lemma NoEviction(t: Sessions.Sessions, key: Sessions.MessageId, ids: set<Sessions.MessageId>, now: nat)
    requires t.entries.Keys <= ids && key in ids && |ids| <= Sessions.MAX_REASSEMBLER_MESSAGES
    ensures Sessions.GetOrCreate(t, key, now).entries
         == if key in t.entries then t.entries else t.entries[key := Fragment.Fresh(now)]
  {
    if key !in t.entries {
      assert t.entries.Keys + {key} <= ids;
      Cardinality(t.entries.Keys + {key}, ids);
    }
  }

  lemma OtherAdd(t: Sessions.Sessions, f: Fragment.Fragment, other: Sessions.MessageId, now: nat,
                 key: Sessions.MessageId, pieces: seq<seq<byte>>, order: seq<u32>,
                 ids: set<Sessions.MessageId>, start: nat)
    requires |pieces| < U32_LIMIT && Numbered(order, |pieces|)
    requires Tracks(t, key, pieces, order, ids, start) && WithinLimits(ids, start, now) && other in ids - {key}
    ensures Tracks(Sessions.AddTo(t, other, f, now).0, key, pieces, order, ids, start)
  {
    NoEviction(t, other, ids, now);
  }

  lemma OtherStep(t: Sessions.Sessions, body: seq<byte>, now: nat, key: Sessions.MessageId, pieces: seq<seq<byte>>,
                  order: seq<u32>, ids: set<Sessions.MessageId>, start: nat)
    requires |pieces| < U32_LIMIT && Numbered(order, |pieces|)
    requires Tracks(t, key, pieces, order, ids, start) && WithinLimits(ids, start, now)
    requires Parse(body).Some? ==> Parse(body).value.0 in ids - {key}
    ensures Tracks(TryFeed(t, body, now).0, key, pieces, order, ids, start)
  {
    if Parse(body).Some? {
      var (other, f) := Parse(body).value;
      SweptTracks(t, key, pieces, order, ids, start, now);
      OtherAdd(Swept(t, now), f, other, now, key, pieces, order, ids, start);
    }
  }

  lemma OwnAdd(t: Sessions.Sessions, now: nat, key: Sessions.MessageId, pieces: seq<seq<byte>>,
               order: seq<u32>, part: u32, ids: set<Sessions.MessageId>, start: nat)
    requires Deliverable(pieces) && Numbered(order, |pieces|) && part < |pieces| && key in ids
    requires Tracks(t, key, pieces, order, ids, start) && WithinLimits(ids, start, now)
    ensures Numbered(order + [part], |pieces|)
    ensures var (s, isNew) := Sessions.AddTo(t, key, Part(pieces, part), now);
            isNew == (part !in order) && Tracks(s, key, pieces, order + [part], ids, start)
  {
    NoEviction(t, key, ids, now);
    if order == [] {
      assert Holding(pieces, order, now) == Fragment.Fresh(now);
      HoldingGrows(pieces, order, part, now);
    } else {
      HoldingGrows(pieces, order, part, t.entries[key].createdAt);
    }
  }

  lemma OwnStep(t: Sessions.Sessions, body: seq<byte>, now: nat, key: Sessions.MessageId, pieces: seq<seq<byte>>,
                order: seq<u32>, part: u32, ids: set<Sessions.MessageId>, start: nat)
    requires Deliverable(pieces) && Numbered(order, |pieces|) && part < |pieces| && key in ids
    requires Tracks(t, key, pieces, order, ids, start) && WithinLimits(ids, start, now)
    requires Parse(body) == Some((key, Part(pieces, part)))
    requires !Covers(order, |pieces|)
    ensures Numbered(order + [part], |pieces|)
    ensures var (s, reply) := TryFeed(t, body, now);
            if Covers(order + [part], |pieces|) then reply == Request(Join(pieces)) && key !in s.entries
            else reply == Buffered && Tracks(s, key, pieces, order + [part], ids, start)
  {
    SweptTracks(t, key, pieces, order, ids, start, now);
    OwnAdd(Swept(t, now), now, key, pieces, order, part, ids, start);
    var (s, isNew) := Sessions.AddTo(Swept(t, now), key, Part(pieces, part), now);
    HoldingCounts(pieces, order + [part], s.entries[key].createdAt);
    if Covers(order + [part], |pieces|) {
      HoldingJoins(pieces, order + [part], s.entries[key].createdAt);
      if part in order {
        forall i: u32 | i < |pieces| ensures i in order {
          assert i in order + [part];
        }
      }
    }
  }

  /** Every arrival is in time and numbered, or belongs to another session within the limits. */
  ghost predicate Plausible(a: Arrival, n: nat, key: Sessions.MessageId, ids: set<Sessions.MessageId>, start: nat) {
    && WithinLimits(ids, start, a.now)
    && match a
       case Own(_, part) => part < n
       case Other(_, body) => Parse(body).Some? ==> Parse(body).value.0 in ids - {key}
  }

  lemma OwnArrival(t: Sessions.Sessions, a: Arrival, request: seq<byte>, sessionId: Bytes32,
                   order: seq<u32>, ids: set<Sessions.MessageId>, start: nat)
    requires |Pieces(request)| <= Fragment.MAX_FRAGMENTS_PER_MESSAGE && Numbered(order, |Pieces(request)|)
    requires KeyOf(sessionId) in ids && Tracks(t, KeyOf(sessionId), Pieces(request), order, ids, start)
    requires a.Own? && Plausible(a, |Pieces(request)|, KeyOf(sessionId), ids, start)
    requires !Covers(order, |Pieces(request)|)
    ensures Numbered(order + [a.part], |Pieces(request)|)
    ensures var (s, reply) := TryFeed(t, BodyOf(a, request, sessionId), a.now);
            if Covers(order + [a.part], |Pieces(request)|)
            then reply == Request(request) && KeyOf(sessionId) !in s.entries
            else reply == Buffered && Tracks(s, KeyOf(sessionId), Pieces(request), order + [a.part], ids, start)
  {
    var pieces := Pieces(request);
    PiecesFit(request);
    ParseBody(sessionId, a.part, |pieces|, pieces[a.part]);
    OwnStep(t, BodyOf(a, request, sessionId), a.now, KeyOf(sessionId), pieces, order, a.part, ids, start);
  }

  lemma CoversLess(order: seq<u32>, more: seq<u32>, n: nat)
    requires !Covers(order + more, n)
    ensures !Covers(order, n)
  {
  }

  lemma {:induction false} ServeTracks(
      t: Sessions.Sessions, arrivals: seq<Arrival>, request: seq<byte>, sessionId: Bytes32,
      ids: set<Sessions.MessageId>, start: nat)
    requires |Pieces(request)| <= Fragment.MAX_FRAGMENTS_PER_MESSAGE
    requires KeyOf(sessionId) in ids && Tracks(t, KeyOf(sessionId), Pieces(request), [], ids, start)
    requires forall a :: a in arrivals ==> Plausible(a, |Pieces(request)|, KeyOf(sessionId), ids, start)
    requires !Covers(OwnOrder(arrivals), |Pieces(request)|)
    ensures Numbered(OwnOrder(arrivals), |Pieces(request)|)
    ensures var after := Serve(t, arrivals, request, sessionId);
            Tracks(after, KeyOf(sessionId), Pieces(request), OwnOrder(arrivals), ids, start)
  {
    if arrivals != [] {
      var before, last := arrivals[..|arrivals| - 1], arrivals[|arrivals| - 1];
      var order, s := OwnOrder(before), Serve(t, before, request, sessionId);
      assert Plausible(last, |Pieces(request)|, KeyOf(sessionId), ids, start);
      if last.Own? {
        CoversLess(order, [last.part], |Pieces(request)|);
        ServeTracks(t, before, request, sessionId, ids, start);
        OwnArrival(s, last, request, sessionId, order, ids, start);
      } else {
        ServeTracks(t, before, request, sessionId, ids, start);
        OtherStep(s, last.body, last.now, KeyOf(sessionId), Pieces(request), order, ids, start);
      }
    }
  }

  /** Request round trip: parts of the request arrive in any order, with repeats, mixed with bodies
      of other sessions, within the session cap and before expiry. The part that completes the set
      is answered with exactly the request, every earlier one is buffered. */
  lemma SurbRequestRoundTrip(
      t: Sessions.Sessions, arrivals: seq<Arrival>, request: seq<byte>, sessionId: Bytes32,
      part: u32, now: nat, ids: set<Sessions.MessageId>, start: nat)
    requires |Pieces(request)| <= Fragment.MAX_FRAGMENTS_PER_MESSAGE && part < |Pieces(request)|
    requires t.entries.Keys + {KeyOf(sessionId)} <= ids && KeyOf(sessionId) !in t.entries
    requires forall a :: a in arrivals ==> Plausible(a, |Pieces(request)|, KeyOf(sessionId), ids, start)
    requires WithinLimits(ids, start, now)
    requires !Covers(OwnOrder(arrivals), |Pieces(request)|)
    ensures var before, body := Serve(t, arrivals, request, sessionId), BodyOf(Own(now, part), request, sessionId);
            var reply := TryFeed(before, body, now).1;
            reply == if Covers(OwnOrder(arrivals) + [part], |Pieces(request)|) then Request(request) else Buffered
  {
    ServeTracks(t, arrivals, request, sessionId, ids, start);
    var before, order := Serve(t, arrivals, request, sessionId), OwnOrder(arrivals);
    OwnArrival(before, Own(now, part), request, sessionId, order, ids, start);
  }

  /** A longer request is refused part by part: nothing but the expired sessions changes. */
  lemma OversizedRequestRefused(t: Sessions.Sessions, request: seq<byte>, sessionId: Bytes32, part: u32, now: nat)
    requires Fragment.MAX_FRAGMENTS_PER_MESSAGE < |Pieces(request)| < U32_LIMIT && part < |Pieces(request)|
    ensures TryFeed(t, BodyOf(Own(now, part), request, sessionId), now) == (Swept(t, now), Buffered)
  {
    ParseBody(sessionId, part, |Pieces(request)|, Pieces(request)[part]);
  }
}
