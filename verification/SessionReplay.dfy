/** Session replies that come again, and sessions past their time. */
module SessionReplay {
  import opened Bytes
  import opened Sizes
  import opened FifoTable
  import opened SphinxCrypto
  import opened WireCodec
  import opened SphinxNode

  function Session(node: MixNode, id: Bytes32): CachedSession
    requires id in node.sessions.entries
  {
    node.sessions.entries[id]
  }

  /** The arrival leaves the session in the table, and a packet leaves it as it was: neither pushed out nor
      expired nor made anew. */
  predicate Keeps(c: Crypto, node: MixNode, a: Arrival, id: Bytes32) {
    && id in node.sessions.entries && id in Handle(c, node, a).sessions.entries
    && (!a.Reply? ==> Session(Handle(c, node, a), id) == Session(node, id))
  }

  predicate Lasts(c: Crypto, node: MixNode, arrivals: seq<Arrival>, id: Bytes32) {
    && id in node.sessions.entries
    && (arrivals == [] ||
        (&& Lasts(c, node, arrivals[..|arrivals| - 1], id)
         && Keeps(c, HandleAll(c, node, arrivals[..|arrivals| - 1]), arrivals[|arrivals| - 1], id)))
  }

  /** Arrivals that put a nonce the session did not know into its table. */
  function NewNonces(c: Crypto, node: MixNode, arrivals: seq<Arrival>, id: Bytes32): nat
    requires Lasts(c, node, arrivals, id)
  {
    if arrivals == [] then 0
    else
      var n := |arrivals| - 1;
      var before := HandleAll(c, node, arrivals[..n]);
      var same := Session(Handle(c, before, arrivals[n]), id).nonces == Session(before, id).nonces;
      NewNonces(c, node, arrivals[..n], id) + if same then 0 else 1
  }

  /** All else about the session stays, and its table of nonces only takes in one that is new. */
  lemma SessionStep(c: Crypto, node: MixNode, a: Arrival, id: Bytes32) returns (nonce: Bytes32)
    requires Keeps(c, node, a, id)
    ensures var was, now := Session(node, id), Session(Handle(c, node, a), id);
            && now == was.(nonces := now.nonces)
            && (now.nonces == was.nonces || (nonce !in was.nonces.entries
                && now.nonces == Insert(was.nonces, MAX_SESSION_NONCES, nonce, ())))
  {
    nonce := if a.Reply? then a.reply.nonce else ZERO32;
  }

  lemma {:induction false} SessionLasts(c: Crypto, node: MixNode, arrivals: seq<Arrival>, id: Bytes32)
    requires Lasts(c, node, arrivals, id)
    ensures id in HandleAll(c, node, arrivals).sessions.entries
    ensures var was, now := Session(node, id), Session(HandleAll(c, node, arrivals), id);
            now == was.(nonces := now.nonces)
  {
    if arrivals != [] {
      var n := |arrivals| - 1;
      SessionLasts(c, node, arrivals[..n], id);
      var _ := SessionStep(c, HandleAll(c, node, arrivals[..n]), arrivals[n], id);
    }
  }

  /** A nonce stays known while fewer than `MAX_SESSION_NONCES` new ones have come behind it. */
  lemma {:induction false} NonceStays(c: Crypto, node: MixNode, arrivals: seq<Arrival>, id: Bytes32, nonce: Bytes32)
    requires Lasts(c, node, arrivals, id)
    requires Mirror(Session(node, id).nonces, MAX_SESSION_NONCES) && nonce in Session(node, id).nonces.entries
    requires Behind(Session(node, id).nonces.order, nonce) + NewNonces(c, node, arrivals, id) < MAX_SESSION_NONCES
    ensures id in HandleAll(c, node, arrivals).sessions.entries
    ensures var now := Session(HandleAll(c, node, arrivals), id).nonces;
            && Mirror(now, MAX_SESSION_NONCES) && nonce in now.entries
            && Behind(now.order, nonce)
               == Behind(Session(node, id).nonces.order, nonce) + NewNonces(c, node, arrivals, id)
  {
    if arrivals != [] {
      var n := |arrivals| - 1;
      var before := HandleAll(c, node, arrivals[..n]);
      NonceStays(c, node, arrivals[..n], id, nonce);
      var other := SessionStep(c, before, arrivals[n], id);
      var was, now := Session(before, id).nonces, Session(Handle(c, before, arrivals[n]), id).nonces;
      if now != was {
        InsertKeeps(was, MAX_SESSION_NONCES, other, ());
        InsertSpares(was, MAX_SESSION_NONCES, nonce, other, ());
      }
    }
  }

  /** The new nonce that makes it `MAX_SESSION_NONCES` pushes it out. */
  lemma {:induction false} NonceGoes(c: Crypto, node: MixNode, arrivals: seq<Arrival>, id: Bytes32, nonce: Bytes32)
    requires Lasts(c, node, arrivals, id)
    requires Mirror(Session(node, id).nonces, MAX_SESSION_NONCES) && nonce in Session(node, id).nonces.entries
    requires Behind(Session(node, id).nonces.order, nonce) < MAX_SESSION_NONCES
    requires Behind(Session(node, id).nonces.order, nonce) + NewNonces(c, node, arrivals, id) == MAX_SESSION_NONCES
    ensures id in HandleAll(c, node, arrivals).sessions.entries
    ensures nonce !in Session(HandleAll(c, node, arrivals), id).nonces.entries
  {
    var n := |arrivals| - 1;
    var before := HandleAll(c, node, arrivals[..n]);
    if Session(Handle(c, before, arrivals[n]), id).nonces == Session(before, id).nonces {
      NonceGoes(c, node, arrivals[..n], id, nonce);
    } else {
      NonceStays(c, node, arrivals[..n], id, nonce);
      var other := SessionStep(c, before, arrivals[n], id);
      InsertDrops(Session(before, id).nonces, MAX_SESSION_NONCES, nonce, other, ());
    }
  }

  /** A relayed reply's nonce is the newest in its session. */
  lemma RelayedNonce(c: Crypto, node: MixNode, reply: SessionReply, now: nat)
    requires ProcessReply(c, node, reply, now).1.Ok?
    requires Mirror(Session(node, reply.sessionId).nonces, MAX_SESSION_NONCES)
    ensures var after := ProcessReply(c, node, reply, now).0;
            && reply.sessionId in after.sessions.entries
            && var nonces := Session(after, reply.sessionId).nonces;
               && Mirror(nonces, MAX_SESSION_NONCES) && reply.nonce in nonces.entries
               && Behind(nonces.order, reply.nonce) == 0
               && Session(after, reply.sessionId) == Session(node, reply.sessionId).(nonces := nonces)
  {
    var nonces := Session(node, reply.sessionId).nonces;
    InsertKeeps(nonces, MAX_SESSION_NONCES, reply.nonce, ());
    RoomKeeps(nonces, MAX_SESSION_NONCES);
    BehindLast(MakeRoom(nonces, MAX_SESSION_NONCES).order, reply.nonce);
  }

  /** After a node has relayed a reply and then handled anything else that leaves the session in place, the
      same reply coming again within the session's time is refused as a replay, without a change, if and only
      if its nonce is still in the session's table, and relayed otherwise. It is in the table while fewer than
      `MAX_SESSION_NONCES` new nonces came since, and no longer when exactly that many did. */
  lemma ReplyReplayRefused(c: Crypto, node: MixNode, reply: SessionReply, at: nat, others: seq<Arrival>, later: nat)
    requires ProcessReply(c, node, reply, at).1.Ok?
    requires Mirror(Session(node, reply.sessionId).nonces, MAX_SESSION_NONCES)
    requires Lasts(c, ProcessReply(c, node, reply, at).0, others, reply.sessionId)
    requires later < Session(node, reply.sessionId).createdAt + 3600
    ensures var id, relayed := reply.sessionId, ProcessReply(c, node, reply, at).0;
            var after := HandleAll(c, relayed, others);
            var again := ProcessReply(c, after, reply, later);
            && id in after.sessions.entries
            && (again == (after, Err(ReplayDetected)) <==> reply.nonce in Session(after, id).nonces.entries)
            && (again.1.Ok? <==> reply.nonce !in Session(after, id).nonces.entries)
            && (NewNonces(c, relayed, others, id) < 2048 ==>
                  reply.nonce in Session(after, id).nonces.entries)
            && (NewNonces(c, relayed, others, id) == 2048 ==>
                  reply.nonce !in Session(after, id).nonces.entries)
  {
    var id, relayed := reply.sessionId, ProcessReply(c, node, reply, at).0;
    RelayedNonce(c, node, reply, at);
    SessionLasts(c, relayed, others, id);
    if NewNonces(c, relayed, others, id) < MAX_SESSION_NONCES {
      NonceStays(c, relayed, others, id, reply.nonce);
    } else if NewNonces(c, relayed, others, id) == MAX_SESSION_NONCES {
      NonceGoes(c, relayed, others, id, reply.nonce);
    }
  }

  /** A reply is relayed if and only if it has the full size, its session is known and less than an hour old, and
      its nonce is new to it. Any other leaves the node as it was, but for a session whose hour is over. */
  lemma RelayedIff(c: Crypto, node: MixNode, reply: SessionReply, now: nat)
    ensures var (after, result) := ProcessReply(c, node, reply, now);
            var known := |reply.body| == WIRE_BODY_SIZE && reply.sessionId in node.sessions.entries;
            var live := known && now < Session(node, reply.sessionId).createdAt + 3600;
            && (result.Ok? <==> live && reply.nonce !in Session(node, reply.sessionId).nonces.entries)
            && (result.Err? && (known ==> live) ==> after == node)
            && after.seen == node.seen
  {
  }

  // ---------------------------------------------------------------- past its time

  /** The session is as old as `created`, or not there. */
  predicate GoneOrOld(node: MixNode, id: Bytes32, created: nat) {
    id in node.sessions.entries ==> Session(node, id).createdAt == created
  }

  /** No reply or packet of the run comes before the session's hour is over, and no packet makes it anew. */
  predicate AllLate(c: Crypto, node: MixNode, arrivals: seq<Arrival>, id: Bytes32, created: nat) {
    arrivals == [] ||
    (&& AllLate(c, node, arrivals[..|arrivals| - 1], id, created)
     && var before, a := HandleAll(c, node, arrivals[..|arrivals| - 1]), arrivals[|arrivals| - 1];
        && a.now >= created + 3600
        && (a.Packet? && id in Handle(c, before, a).sessions.entries ==>
              id in before.sessions.entries && Session(Handle(c, before, a), id) == Session(before, id)))
  }

  lemma {:induction false} StaysOld(c: Crypto, node: MixNode, arrivals: seq<Arrival>, id: Bytes32, created: nat)
    requires GoneOrOld(node, id, created) && AllLate(c, node, arrivals, id, created)
    ensures GoneOrOld(HandleAll(c, node, arrivals), id, created)
  {
    if arrivals != [] {
      StaysOld(c, node, arrivals[..|arrivals| - 1], id, created);
    }
  }

  /** From an hour after its creation on, whatever else arrives, every reply of a session is refused, and the
      first of full size takes the session out of the table, until a packet makes it anew. */
  lemma NoReplyAfterTheHour(
      c: Crypto, node: MixNode, arrivals: seq<Arrival>, reply: SessionReply, now: nat, created: nat)
    requires GoneOrOld(node, reply.sessionId, created) && AllLate(c, node, arrivals, reply.sessionId, created)
    requires now >= created + 3600
    ensures var before := HandleAll(c, node, arrivals);
            var (after, result) := ProcessReply(c, before, reply, now);
            && result.Err?
            && (|reply.body| == WIRE_BODY_SIZE ==> reply.sessionId !in after.sessions.entries)
  {
    StaysOld(c, node, arrivals, reply.sessionId, created);
  }

  /** A session less than an hour old outlives the periodic removal as it is, one of an hour does not. */
  lemma TidyTakesTheOld(node: MixNode, now: nat, id: Bytes32)
    requires id in node.sessions.entries
    ensures var after, created := CleanSessions(node, now).sessions.entries, Session(node, id).createdAt;
            && (id in after <==> now < created + 3600)
            && (id in after ==> after[id] == Session(node, id))
  {
  }

  /** Whatever a node does with a packet, it has the right tag for its body or for the empty one, its own tag
      is new, and its sections have their sizes; any other packet is refused without a change. */
  lemma OnlyTaggedPacketsCount(c: Crypto, mode: Mode, node: MixNode, p: SphinxPacket, now: nat, noises: Noises)
    ensures var (after, result) := Process(c, mode, node, p, now, noises);
            after != node || result.Ok? ==>
              && p.header.version == Version(mode) && |p.header.routingInfo| == ROUTING_INFO_SIZE
              && |p.body| == WIRE_BODY_SIZE && (mode.Hybrid? ==> |p.kemCiphertexts| == KEM_BLOCK_SIZE)
              && Unlock(c, mode, node, p).Ok?
              && var shared := Unlock(c, mode, node, p).value;
                 && p.header.mac in {MacFor(c, shared, p, p.body), MacFor(c, shared, p, Zeros(WIRE_BODY_SIZE))}
                 && c.tag(shared) !in node.seen.entries && c.tag(shared) in after.seen.entries
  {
  }

  /** What a node answers to a packet with a right tag that is new: the flag behind the next hop decides. Only a
      packet tagged for the empty body makes a session, and only where the flag is known. */
  lemma FlagDecides(c: Crypto, mode: Mode, node: MixNode, p: SphinxPacket, now: nat, noises: Noises)
    requires Unlock(c, mode, node, p).Ok? && c.tag(Unlock(c, mode, node, p).value) !in node.seen.entries
    requires var shared := Unlock(c, mode, node, p).value;
             p.header.mac in {MacFor(c, shared, p, p.body), MacFor(c, shared, p, Zeros(WIRE_BODY_SIZE))}
    ensures var shared := Unlock(c, mode, node, p).value;
            var block := RoutingBlock(c, shared, p);
            var (after, result) := Process(c, mode, node, p, now, noises);
            && (block[16] > 1 <==> result == Err(InvalidRoutingFlag))
            && (block[16] == 0 <==> result.Ok? && result.value.Forward?)
            && (block[16] == 0 ==> result.value.nextHop == block[..16])
            && (block[16] == 1 ==> result == Err(BodyAuthFailed) || (result.Ok? && result.value.Deliver?))
            && (block[16] > 1 || p.header.mac == MacFor(c, shared, p, p.body) ==> after.sessions == node.sessions)
            && (block[16] <= 1 && p.header.mac != MacFor(c, shared, p, p.body) ==>
                  && p.header.sessionId in after.sessions.entries
                  && Session(after, p.header.sessionId) ==
                     CachedSession(block[..16], c.bodyKey(shared), block[16] == 1, Table(map[], []), now))
  {
  }
}
