/** A mix node: one hop of a Sphinx packet or of a lightweight session reply. */
module SphinxNode {
  import opened Bytes
  import opened Sizes
  import opened FifoTable
  import opened SphinxCrypto
  import opened WireCodec

  const MAX_SEEN_TAGS: nat := 100_000
  const MAX_SESSION_CACHE: nat := 4096
  const SESSION_TTL_SECS: nat := 3600
  const MAX_SESSION_NONCES: nat := 2048

  const FORWARD: byte := 0
  const DESTINATION: byte := 1

  datatype Mode = Classical | Hybrid

  function Version(mode: Mode): byte {
    if mode.Classical? then SPHINX_VERSION_CLASSICAL else SPHINX_VERSION_HYBRID
  }

  datatype CachedSession = CachedSession(
    nextHop: NodeId, bodyKey: Key, isFinal: bool, nonces: Table<Bytes32, ()>, createdAt: nat)

  datatype MixNode = MixNode(
    privateKey: Scalar, kemSecret: seq<byte>, seen: Table<Mac, ()>, sessions: Table<Bytes32, CachedSession>)

  datatype SphinxError =
    | MacVerificationFailed
    | ReplayDetected
    | InvalidPacketSize
    | InvalidRoutingFlag
    | RouteTooLong
    | BodyTooLarge
    | UnsupportedVersion(version: byte)
    | InvalidKemCiphertext
    | InvalidKemPublicKey
    | BodyAuthFailed
    | SessionNotFound
    | SessionExpired

  /** What a processed packet becomes. */
  datatype Processed =
    | Forward(nextHop: NodeId, packet: SphinxPacket)
    | Deliver(destination: NodeId, body: seq<byte>)

  /** Remember a value once, dropping the oldest when full. */
  function Remember<K>(t: Table<K, ()>, cap: nat, k: K): Table<K, ()> {
    if k in t.entries then t else Insert(t, cap, k, ())
  }

  function InsertSession(t: Table<Bytes32, CachedSession>, id: Bytes32, s: CachedSession)
    : (r: Table<Bytes32, CachedSession>)
    ensures id in r.entries && r.entries[id] == s
  {
    if id in t.entries then t.(entries := t.entries[id := s]) else Insert(t, MAX_SESSION_CACHE, id, s)
  }

  /** Random bytes a hop draws for one packet. */
  datatype Noises = Noises(slots: nat -> byte, kem: nat -> byte)

  // ---------------------------------------------------------------- packets

  /** The size and version checks, then the secret shared with the packet's creator. */
  function Unlock(c: Crypto, mode: Mode, node: MixNode, p: SphinxPacket): Result<Key, SphinxError> {
    if p.header.version != Version(mode) then Err(UnsupportedVersion(p.header.version))
    else if |p.header.routingInfo| != ROUTING_INFO_SIZE then Err(InvalidPacketSize)
    else if |p.body| != WIRE_BODY_SIZE then Err(InvalidPacketSize)
    else if mode.Classical? then Ok(c.mul(p.header.ephemeralKey, node.privateKey))
    else if |p.kemCiphertexts| != KEM_BLOCK_SIZE then Err(InvalidKemCiphertext)
    else
      match c.decapsulate(node.kemSecret, p.kemCiphertexts[..KEM_CIPHERTEXT_SIZE])
      case None => Err(InvalidKemCiphertext)
      case Some(k) => Ok(c.combine(c.mul(p.header.ephemeralKey, node.privateKey), k))
  }

  /** Whether the packet's tag is right for its body, or for the zero body of a reply block. */
  function MacFor(c: Crypto, shared: Key, p: SphinxPacket, body: seq<byte>): Mac
    requires |p.header.routingInfo| == ROUTING_INFO_SIZE
  {
    var slot := p.header.routingInfo[..SLOT_SIZE];
    HopMac(c, shared, p.header.version, p.header.ephemeralKey, p.header.sessionId, slot, body)
  }

  /** The packet for the next hop: slots and ciphertexts move up, random bytes fill the end. */
  function Shifted(c: Crypto, mode: Mode, shared: Key, p: SphinxPacket, nextMac: Mac, noises: Noises): SphinxPacket
    requires |p.header.routingInfo| == ROUTING_INFO_SIZE
    requires mode.Hybrid? ==> |p.kemCiphertexts| == KEM_BLOCK_SIZE
  {
    var header := SphinxHeader(
      p.header.version, c.mul(p.header.ephemeralKey, c.blind(shared)), p.header.sessionId,
      p.header.routingInfo[SLOT_SIZE..] + Noise(SLOT_SIZE, noises.slots), nextMac);
    var kem := if mode.Classical? then []
               else p.kemCiphertexts[KEM_CIPHERTEXT_SIZE..] + Noise(KEM_CIPHERTEXT_SIZE, noises.kem);
    SphinxPacket(header, kem, XorStream(p.body, c.bodyStream(c.bodyKey(shared))))
  }

  function RoutingBlock(c: Crypto, shared: Key, p: SphinxPacket): (block: seq<byte>)
    requires |p.header.routingInfo| == ROUTING_INFO_SIZE
    ensures |block| == SLOT_SIZE
  {
    XorStream(p.header.routingInfo[..SLOT_SIZE], c.slotStream(c.streamKey(shared)))
  }

  /** After the replay check: read the routing block, remember, and forward or deliver. */
  function Admit(c: Crypto, mode: Mode, node: MixNode, p: SphinxPacket, shared: Key, isSurb: bool, now: nat,
        noises: Noises)
    : (MixNode, Result<Processed, SphinxError>)
    requires |p.header.routingInfo| == ROUTING_INFO_SIZE
    requires mode.Hybrid? ==> |p.kemCiphertexts| == KEM_BLOCK_SIZE
  {
    var tagged := node.(seen := Remember(node.seen, MAX_SEEN_TAGS, c.tag(shared)));
    var block := RoutingBlock(c, shared, p);
    var nextHop: NodeId, flag, nextMac: Mac := block[..16], block[16], block[17..];
    if flag != FORWARD && flag != DESTINATION then (tagged, Err(InvalidRoutingFlag))
    else
      var session := CachedSession(nextHop, c.bodyKey(shared), flag == DESTINATION, Table(map[], []), now);
      var cached := if isSurb then tagged.(sessions := InsertSession(tagged.sessions, p.header.sessionId, session))
                    else tagged;
      if flag == FORWARD then (cached, Ok(Forward(nextHop, Shifted(c, mode, shared, p, nextMac, noises))))
      else
        var key := c.aeadKey(shared);
        match c.unseal(key, c.aeadNonce(key), XorStream(p.body, c.bodyStream(c.bodyKey(shared))), nextHop)
        case None => (cached, Err(BodyAuthFailed))
        case Some(text) => (cached, Ok(Deliver(nextHop, text)))
  }

  /** One hop. Only packets that pass the tag and replay checks change the node. */
  function Process(c: Crypto, mode: Mode, node: MixNode, p: SphinxPacket, now: nat, noises: Noises)
    : (MixNode, Result<Processed, SphinxError>)
  {
    match Unlock(c, mode, node, p)
    case Err(e) => (node, Err(e))
    case Ok(shared) =>
      var honest := p.header.mac == MacFor(c, shared, p, p.body);
      var isSurb := !honest && p.header.mac == MacFor(c, shared, p, Zeros(WIRE_BODY_SIZE));
      if !honest && !isSurb then (node, Err(MacVerificationFailed))
      else if c.tag(shared) in node.seen.entries then (node, Err(ReplayDetected))
      else Admit(c, mode, node, p, shared, isSurb, now, noises)
  }

  // ---------------------------------------------------------------- session replies

  datatype Relayed = Relayed(nextHop: NodeId, reply: SessionReply, isFinal: bool)

  /** A reply of a cached session loses one layer; stale sessions are dropped on contact. */
  function ProcessReply(c: Crypto, node: MixNode, reply: SessionReply, now: nat)
      : (MixNode, Result<Relayed, SphinxError>)
  {
    if |reply.body| != WIRE_BODY_SIZE then (node, Err(InvalidPacketSize))
    else if reply.sessionId !in node.sessions.entries then (node, Err(SessionNotFound))
    else
      var session := node.sessions.entries[reply.sessionId];
      if SatSub(now, session.createdAt) >= SESSION_TTL_SECS then
        (node.(sessions := RemoveAll(node.sessions, {reply.sessionId})), Err(SessionExpired))
      else if reply.nonce in session.nonces.entries then (node, Err(ReplayDetected))
      else
        var used := session.(nonces := Remember(session.nonces, MAX_SESSION_NONCES, reply.nonce));
        var peeled := reply.(body := XorStream(reply.body, c.bodyStream(session.bodyKey)));
        (node.(sessions := node.sessions.(entries := node.sessions.entries[reply.sessionId := used])),
         Ok(Relayed(session.nextHop, peeled, session.isFinal)))
  }

  // ---------------------------------------------------------------- replays over runs

  datatype Arrival =
    | Packet(mode: Mode, packet: SphinxPacket, now: nat, noises: Noises)
    | Reply(reply: SessionReply, now: nat)
    | Tidy(now: nat)

  /** The periodic removal of sessions past their time. */
  function CleanSessions(node: MixNode, now: nat): MixNode {
    var stale := set id | id in node.sessions.entries
                        && SatSub(now, node.sessions.entries[id].createdAt) >= SESSION_TTL_SECS;
    node.(sessions := RemoveAll(node.sessions, stale))
  }

  function Handle(c: Crypto, node: MixNode, a: Arrival): MixNode {
    match a
    case Packet(mode, p, now, noises) => Process(c, mode, node, p, now, noises).0
    case Reply(reply, now) => ProcessReply(c, node, reply, now).0
    case Tidy(now) => CleanSessions(node, now)
  }

  function HandleAll(c: Crypto, node: MixNode, arrivals: seq<Arrival>): MixNode {
    if arrivals == [] then node
    else Handle(c, HandleAll(c, node, arrivals[..|arrivals| - 1]), arrivals[|arrivals| - 1])
  }

  /** Arrivals of the run that put a tag the node did not know into its table. */
  function NewTags(c: Crypto, node: MixNode, arrivals: seq<Arrival>): nat {
    if arrivals == [] then 0
    else
      var before := HandleAll(c, node, arrivals[..|arrivals| - 1]);
      var last := if Handle(c, before, arrivals[|arrivals| - 1]).seen == before.seen then 0 else 1;
      NewTags(c, node, arrivals[..|arrivals| - 1]) + last
  }

  /** A node reads only its keys and its table of tags when it decides about a packet. */
  lemma SameKeys(c: Crypto, node: MixNode, a: Arrival)
    ensures Handle(c, node, a).privateKey == node.privateKey && Handle(c, node, a).kemSecret == node.kemSecret
  {
  }

  /** The table changes only by remembering one tag that was not in it. */
  lemma TagStep(c: Crypto, node: MixNode, a: Arrival) returns (tag: Mac)
    ensures Handle(c, node, a).seen == node.seen
            || (tag !in node.seen.entries && Handle(c, node, a).seen == Insert(node.seen, MAX_SEEN_TAGS, tag, ()))
  {
    tag := Zeros(16);
    if a.Packet? && Unlock(c, a.mode, node, a.packet).Ok? {
      tag := c.tag(Unlock(c, a.mode, node, a.packet).value);
    }
  }

  lemma {:induction false} RunKeepsKeys(c: Crypto, node: MixNode, arrivals: seq<Arrival>)
    ensures var after := HandleAll(c, node, arrivals);
            after.privateKey == node.privateKey && after.kemSecret == node.kemSecret
  {
    if arrivals != [] {
      RunKeepsKeys(c, node, arrivals[..|arrivals| - 1]);
      SameKeys(c, HandleAll(c, node, arrivals[..|arrivals| - 1]), arrivals[|arrivals| - 1]);
    }
  }

  /** A tag stays known while fewer than `MAX_SEEN_TAGS` new ones have been remembered behind it. */
  lemma {:induction false} TagStays(c: Crypto, node: MixNode, arrivals: seq<Arrival>, tag: Mac)
    requires Mirror(node.seen, MAX_SEEN_TAGS) && tag in node.seen.entries
    requires Behind(node.seen.order, tag) + NewTags(c, node, arrivals) < MAX_SEEN_TAGS
    ensures var after := HandleAll(c, node, arrivals);
            && Mirror(after.seen, MAX_SEEN_TAGS) && tag in after.seen.entries
            && Behind(after.seen.order, tag) == Behind(node.seen.order, tag) + NewTags(c, node, arrivals)
  {
    if arrivals != [] {
      var before, last := HandleAll(c, node, arrivals[..|arrivals| - 1]), arrivals[|arrivals| - 1];
      TagStays(c, node, arrivals[..|arrivals| - 1], tag);
      var other := TagStep(c, before, last);
      if Handle(c, before, last).seen != before.seen {
        InsertKeeps(before.seen, MAX_SEEN_TAGS, other, ());
        InsertSpares(before.seen, MAX_SEEN_TAGS, tag, other, ());
      }
    }
  }

  /** The new tag that makes it `MAX_SEEN_TAGS` pushes it out. */
  lemma {:induction false} TagGoes(c: Crypto, node: MixNode, arrivals: seq<Arrival>, tag: Mac)
    requires Mirror(node.seen, MAX_SEEN_TAGS) && tag in node.seen.entries
    requires Behind(node.seen.order, tag) < MAX_SEEN_TAGS
    requires Behind(node.seen.order, tag) + NewTags(c, node, arrivals) == MAX_SEEN_TAGS
    ensures tag !in HandleAll(c, node, arrivals).seen.entries
  {
    var before, last := HandleAll(c, node, arrivals[..|arrivals| - 1]), arrivals[|arrivals| - 1];
    if Handle(c, before, last).seen == before.seen {
      TagGoes(c, node, arrivals[..|arrivals| - 1], tag);
    } else {
      TagStays(c, node, arrivals[..|arrivals| - 1], tag);
      var other := TagStep(c, before, last);
      InsertDrops(before.seen, MAX_SEEN_TAGS, tag, other, ());
    }
  }

  /** After a node has accepted a packet and then handled any others, the packet coming again is
      refused, without a change, if and only if its tag is still in the table, and accepted otherwise.
      It is in the table while fewer than `MAX_SEEN_TAGS` new tags were remembered since, and no longer
      when exactly that many were. */
  lemma ReplayRefused(c: Crypto, node: MixNode, first: Arrival, others: seq<Arrival>, later: nat)
    requires Mirror(node.seen, MAX_SEEN_TAGS) && first.Packet?
    requires Process(c, first.mode, node, first.packet, first.now, first.noises).1.Ok?
    ensures var after := HandleAll(c, Handle(c, node, first), others);
            var tag := c.tag(Unlock(c, first.mode, node, first.packet).value);
            var again := Process(c, first.mode, after, first.packet, later, first.noises);
            && (again == (after, Err(ReplayDetected)) <==> tag in after.seen.entries)
            && (again.1.Ok? <==> tag !in after.seen.entries)
            && (NewTags(c, Handle(c, node, first), others) < 100_000 ==> tag in after.seen.entries)
            && (NewTags(c, Handle(c, node, first), others) == 100_000 ==> tag !in after.seen.entries)
  {
    var shared := Unlock(c, first.mode, node, first.packet).value;
    var accepted := Handle(c, node, first);
    AcceptedTag(c, node, first);
    SameKeys(c, node, first);
    RunKeepsKeys(c, accepted, others);
    SameDecision(c, node, first, HandleAll(c, accepted, others), later);
    if NewTags(c, accepted, others) < MAX_SEEN_TAGS {
      TagStays(c, accepted, others, c.tag(shared));
    } else if NewTags(c, accepted, others) == MAX_SEEN_TAGS {
      TagGoes(c, accepted, others, c.tag(shared));
    }
  }

  /** The tag of an accepted packet is the newest in the table. */
  lemma AcceptedTag(c: Crypto, node: MixNode, first: Arrival)
    requires Mirror(node.seen, MAX_SEEN_TAGS) && first.Packet?
    requires Process(c, first.mode, node, first.packet, first.now, first.noises).1.Ok?
    ensures var tag := c.tag(Unlock(c, first.mode, node, first.packet).value);
            var after := Handle(c, node, first);
            && Mirror(after.seen, MAX_SEEN_TAGS) && tag in after.seen.entries && Behind(after.seen.order, tag) == 0
  {
    var tag := c.tag(Unlock(c, first.mode, node, first.packet).value);
    assert Handle(c, node, first).seen == Insert(node.seen, MAX_SEEN_TAGS, tag, ());
    InsertKeeps(node.seen, MAX_SEEN_TAGS, tag, ());
    RoomKeeps(node.seen, MAX_SEEN_TAGS);
    BehindLast(MakeRoom(node.seen, MAX_SEEN_TAGS).order, tag);
  }

  /** With the same keys the same packet passes the same checks, so only the table decides. */
  lemma SameDecision(c: Crypto, node: MixNode, first: Arrival, after: MixNode, later: nat)
    requires first.Packet? && after.privateKey == node.privateKey && after.kemSecret == node.kemSecret
    requires Process(c, first.mode, node, first.packet, first.now, first.noises).1.Ok?
    ensures var tag := c.tag(Unlock(c, first.mode, node, first.packet).value);
            var again := Process(c, first.mode, after, first.packet, later, first.noises);
            if tag in after.seen.entries then again == (after, Err(ReplayDetected)) else again.1.Ok?
  {
    assert Unlock(c, first.mode, after, first.packet) == Unlock(c, first.mode, node, first.packet);
  }
}
