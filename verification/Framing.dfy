/** Message frames: a type byte, a length and a payload. */
module Framing {
  import opened Bytes
  import opened Sizes
  import opened WireCodec

  const MSG_HANDSHAKE: byte := 0x01
  const MSG_SPHINX: byte := 0x02
  const MSG_HELLO: byte := 0x0D
  const MSG_WELCOME: byte := 0x0E
  const MSG_AUTH_IDENTITY: byte := 0x0F

  const FRAME_PREFIX: nat := 5
  const HYBRID_MAX_MESSAGE_SIZE: nat := 1 + 4 + 1 + 4 + SESSION_ID_SIZE + KEM_BLOCK_SIZE + EPHEMERAL_KEY_SIZE +
                                        ROUTING_INFO_SIZE + MAC_SIZE + WIRE_BODY_SIZE
  const PADDED_MESSAGE_SIZE: nat := HYBRID_MAX_MESSAGE_SIZE

  datatype WireMessage =
    | HandshakeMessage(handshake: Handshake)
    | HelloMessage(hello: Hello)
    | WelcomeMessage(welcome: Welcome)
    | IdentityMessage(identity: EncryptedIdentity)
    | SphinxMessage(packet: SphinxPacket)
    | ReplyMessage(reply: SessionReply)

  function PadHandshake(payload: seq<byte>, noise: nat -> byte): seq<byte> {
    if |payload| > PADDED_MESSAGE_SIZE then payload
    else payload + Noise(PADDED_MESSAGE_SIZE - |payload|, noise)
  }

  function Kind(m: WireMessage): byte {
    match m
    case HandshakeMessage(_) => MSG_HANDSHAKE
    case HelloMessage(_) => MSG_HELLO
    case WelcomeMessage(_) => MSG_WELCOME
    case IdentityMessage(_) => MSG_AUTH_IDENTITY
    case SphinxMessage(_) => MSG_SPHINX
    case ReplyMessage(_) => MSG_SPHINX
  }

  function Payload(m: WireMessage, noise: nat -> byte): seq<byte> {
    match m
    case HandshakeMessage(h) => EncodeHandshake(h)
    case HelloMessage(h) => PadHandshake(EncodeHello(h), noise)
    case WelcomeMessage(w) => PadHandshake(EncodeWelcome(w), noise)
    case IdentityMessage(e) => PadHandshake(EncodeIdentity(e), noise)
    case SphinxMessage(p) => EncodeSphinx(p)
    case ReplyMessage(r) => EncodeReply(r, noise)
  }

  function Cap(m: WireMessage): nat {
    if m.SphinxMessage? || m.ReplyMessage? || m.HandshakeMessage? then HYBRID_MAX_MESSAGE_SIZE
    else FRAME_PREFIX + PADDED_MESSAGE_SIZE
  }

  function Frame(kind: byte, payload: seq<byte>): seq<byte> {
    [kind] + (U32(|payload|) + payload)
  }

  function SerializeMessage(m: WireMessage, noise: nat -> byte): Parsed<seq<byte>> {
    var payload := Payload(m, noise);
    if FRAME_PREFIX + |payload| > Cap(m) then Err(MessageTooLarge(FRAME_PREFIX + |payload|, Cap(m)))
    else Ok(Frame(Kind(m), payload))
  }

  /** Replies and packets share a type byte; length and version byte tell them apart. */
  predicate LooksLikeReply(payload: seq<byte>) {
    |payload| == SESSION_REPLY_WIRE_SIZE && payload[0] == SPHINX_VERSION_SESSION_REPLY
  }

  function Wrap<T>(parsed: Parsed<T>, make: T -> WireMessage): Parsed<WireMessage> {
    match parsed
    case Ok(value) => Ok(make(value))
    case Err(e) => Err(e)
  }

  function DecodePayload(kind: byte, payload: seq<byte>): Parsed<WireMessage> {
    if kind == MSG_HANDSHAKE then Wrap(DecodeHandshake(payload), h => HandshakeMessage(h))
    else if kind == MSG_HELLO then Wrap(DecodeHello(payload), h => HelloMessage(h))
    else if kind == MSG_WELCOME then Wrap(DecodeWelcome(payload), w => WelcomeMessage(w))
    else if kind == MSG_AUTH_IDENTITY then Wrap(DecodeIdentity(payload), e => IdentityMessage(e))
    else if kind == MSG_SPHINX then
      if LooksLikeReply(payload) then Wrap(DecodeReply(payload), r => ReplyMessage(r))
      else Wrap(DecodeSphinx(payload), p => SphinxMessage(p))
    else Err(InvalidMessageType(kind))
  }

  /** The payload length announced in a frame. */
  function PayloadLength(data: seq<byte>): nat
    requires |data| >= FRAME_PREFIX
  {
    FromU32(data[1..][..4])
  }

  function DeserializeMessage(data: seq<byte>): Parsed<(WireMessage, nat)> {
    if |data| < FRAME_PREFIX then Err(BufferTooShort(FRAME_PREFIX, |data|))
    else
      var total := FRAME_PREFIX + PayloadLength(data);
      if |data| < total then Err(BufferTooShort(total, |data|))
      else
        match DecodePayload(data[0], data[1..][4..][..PayloadLength(data)])
        case Ok(m) => Ok((m, total))
        case Err(e) => Err(e)
  }

  /** A packet that a reader takes for a session reply; none of versions 0 and 1 is. */
  predicate TakenForReply(p: SphinxPacket) {
    p.header.version == SPHINX_VERSION_SESSION_REPLY && |EncodeSphinx(p)| == SESSION_REPLY_WIRE_SIZE
  }

  lemma VersionTells(p: SphinxPacket)
    ensures LooksLikeReply(EncodeSphinx(p)) <==> TakenForReply(p)
  {
    SphinxSlices(p);
  }

  /** The messages that survive the wire. */
  predicate GoodMessage(m: WireMessage) {
    match m
    case HandshakeMessage(h) => GoodHandshake(h)
    case HelloMessage(h) => GoodHello(h)
    case WelcomeMessage(w) => GoodWelcome(w)
    case IdentityMessage(e) => GoodIdentity(e)
    case SphinxMessage(p) =>
      && GoodSphinx(p)
      && FRAME_PREFIX + |EncodeSphinx(p)| <= HYBRID_MAX_MESSAGE_SIZE
      && !TakenForReply(p)
    case ReplyMessage(r) => GoodReply(r)
  }

  lemma PaddingAppends(payload: seq<byte>, noise: nat -> byte) returns (padding: seq<byte>)
    ensures PadHandshake(payload, noise) == payload + padding
  {
    if |payload| > PADDED_MESSAGE_SIZE {
      padding := [];
      assert payload + [] == payload;
    } else {
      padding := Noise(PADDED_MESSAGE_SIZE - |payload|, noise);
    }
  }

  lemma SphinxPayload(p: SphinxPacket)
    requires FRAME_PREFIX + |EncodeSphinx(p)| <= HYBRID_MAX_MESSAGE_SIZE
    ensures DecodePayload(MSG_SPHINX, EncodeSphinx(p)) == Ok(SphinxMessage(p)) <==> GoodMessage(SphinxMessage(p))
  {
    SphinxRoundTrip(p);
    VersionTells(p);
  }

  lemma PayloadRoundTrip(m: WireMessage, noise: nat -> byte)
    requires FRAME_PREFIX + |Payload(m, noise)| <= Cap(m)
    ensures DecodePayload(Kind(m), Payload(m, noise)) == Ok(m) <==> GoodMessage(m)
  {
    match m
    case HandshakeMessage(h) =>
      HandshakeRoundTrip(h, []);
      assert EncodeHandshake(h) + [] == EncodeHandshake(h);
    case HelloMessage(h) =>
      var padding := PaddingAppends(EncodeHello(h), noise);
      HelloRoundTrip(h, padding);
    case WelcomeMessage(w) =>
      var padding := PaddingAppends(EncodeWelcome(w), noise);
      WelcomeRoundTrip(w, padding);
    case IdentityMessage(e) =>
      var padding := PaddingAppends(EncodeIdentity(e), noise);
      IdentityRoundTrip(e, padding);
    case SphinxMessage(p) => SphinxPayload(p);
    case ReplyMessage(r) => ReplyRoundTrip(r, noise);
  }

  lemma GoodFits(m: WireMessage, noise: nat -> byte)
    requires GoodMessage(m)
    ensures FRAME_PREFIX + |Payload(m, noise)| <= Cap(m)
  {
  }

  lemma FrameSlices(kind: byte, payload: seq<byte>, after: seq<byte>)
    requires |payload| < U32_LIMIT
    ensures var data := Frame(kind, payload) + after;
            && |data| == FRAME_PREFIX + |payload| + |after|
            && data[0] == kind
            && PayloadLength(data) == |payload|
            && data[1..][4..][..|payload|] == payload
            && data[FRAME_PREFIX + |payload|..] == after
  {
    assert Frame(kind, payload) + after == [kind] + (U32(|payload|) + (payload + after));
    Halves([kind], U32(|payload|) + (payload + after));
    Halves(U32(|payload|), payload + after);
    Halves(payload, after);
    U32RoundTrip(|payload|);
  }

  /** A message is written and read back to itself, with the right byte count and whatever the
      padding and the bytes behind it, exactly when it is well formed. */
  lemma FrameRoundTrip(m: WireMessage, noise: nat -> byte, after: seq<byte>)
    ensures var written := SerializeMessage(m, noise);
            (written.Ok? && DeserializeMessage(written.value + after) == Ok((m, |written.value|))) <==> GoodMessage(m)
  {
    var payload := Payload(m, noise);
    if GoodMessage(m) {
      GoodFits(m, noise);
    }
    if FRAME_PREFIX + |payload| <= Cap(m) {
      PayloadRoundTrip(m, noise);
      FrameSlices(Kind(m), payload, after);
    }
  }

  /** No two well-formed messages share a frame, whatever the padding of either. */
  lemma FramesUnambiguous(a: WireMessage, b: WireMessage, noiseA: nat -> byte, noiseB: nat -> byte)
    requires GoodMessage(a) && GoodMessage(b)
    requires SerializeMessage(a, noiseA) == SerializeMessage(b, noiseB)
    ensures a == b
  {
    FrameRoundTrip(a, noiseA, []);
    FrameRoundTrip(b, noiseB, []);
  }

  // ---------------------------------------------------------------- what a reader accepts

  /** A payload is read as a message of its own type byte, and no other type byte is known. */
  lemma KindDecides(kind: byte, payload: seq<byte>)
    ensures DecodePayload(kind, payload).Ok? ==> Kind(DecodePayload(kind, payload).value) == kind
    ensures kind !in {1, 2, 13, 14, 15} <==> DecodePayload(kind, payload) == Err(InvalidMessageType(kind))
  {
  }

  lemma ReadPacketIsGood(payload: seq<byte>, p: SphinxPacket)
    requires DecodeSphinx(payload) == Ok(p) && !LooksLikeReply(payload)
    requires FRAME_PREFIX + |payload| <= HYBRID_MAX_MESSAGE_SIZE
    ensures GoodMessage(SphinxMessage(p))
  {
    SphinxAccepted(payload, p);
    VersionTells(p);
    SphinxSlices(p);
  }

  /** Whatever is read from a frame within the size limit is well formed, so it can be written and read again. */
  lemma ReadIsGood(data: seq<byte>)
    requires DeserializeMessage(data).Ok? && DeserializeMessage(data).value.1 <= HYBRID_MAX_MESSAGE_SIZE
    ensures GoodMessage(DeserializeMessage(data).value.0)
  {
    var payload := data[1..][4..][..PayloadLength(data)];
    match DeserializeMessage(data).value.0
    case HandshakeMessage(_) => HandshakeAccepted(payload);
    case HelloMessage(h) => HelloAccepted(payload, h);
    case WelcomeMessage(w) => WelcomeAccepted(payload, w);
    case IdentityMessage(e) => IdentityAccepted(payload, e);
    case SphinxMessage(p) => ReadPacketIsGood(payload, p);
    case ReplyMessage(r) => ReplyAccepted(payload, r);
  }
}
