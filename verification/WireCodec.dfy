/** The payload layouts of the wire messages. */
module WireCodec {
  import opened Bytes
  import opened Sizes

  datatype WireError =
    | BufferTooShort(needed: int, have: nat)
    | InvalidSphinxPacket
    | MessageTooLarge(size: nat, max: nat)
    | InvalidMessageType(kind: byte)

  type Parsed<T> = Result<T, WireError>

  /** The two halves of a concatenation. */
  lemma Halves(a: seq<byte>, b: seq<byte>)
    ensures (a + b)[..|a|] == a && (a + b)[|a|..] == b && |a + b| == |a| + |b|
  {
  }

  lemma Cut(data: seq<byte>, n: nat)
    requires n <= |data|
    ensures data == data[..n] + data[n..]
  {
  }

  lemma Under(x: seq<byte>, y: seq<byte>, z: seq<byte>)
    ensures x + y <= x + z <==> y <= z
  {
    if x + y <= x + z {
      assert (x + y)[|x|..] == y && (x + z)[|x|..][..|y|] == z[..|y|];
    }
  }

  // ---------------------------------------------------------------- handshake

  datatype Handshake = Handshake(
    nodeId: Bytes16, publicKey: Bytes32, kemPublicKey: Option<seq<byte>>, computeEnabled: bool,
    computeCapacity: byte, identityPublicKey: Bytes32, nonce: Bytes32, signature: seq<byte>)

  const SIGNATURE_SIZE: nat := 64
  const MAX_KEM_FIELD: nat := 4096
  /** What follows the key-encapsulation key: two flag bytes, identity key, nonce and signature. */
  const HANDSHAKE_TAIL: nat := 2 + 32 + 32 + SIGNATURE_SIZE

  /** The signature field is padded with zeros or cut to its fixed size. */
  function FixedSignature(signature: seq<byte>): (s: seq<byte>)
    ensures |s| == SIGNATURE_SIZE
  {
    var n := Min(|signature|, SIGNATURE_SIZE);
    signature[..n] + Zeros(SIGNATURE_SIZE - n)
  }

  function EncodeTail(h: Handshake): (s: seq<byte>)
    ensures |s| == HANDSHAKE_TAIL
  {
    [if h.computeEnabled then 1 else 0, h.computeCapacity]
        + (h.identityPublicKey + (h.nonce + FixedSignature(h.signature)))
  }

  function EncodeHandshake(h: Handshake): seq<byte> {
    var kem := if h.kemPublicKey.Some? then h.kemPublicKey.value else [];
    h.nodeId + (h.publicKey + (U16(|kem|) + (kem + EncodeTail(h))))
  }

  function DecodeTail(nodeId: Bytes16, publicKey: Bytes32, kem: Option<seq<byte>>, tail: seq<byte>): Handshake
    requires |tail| >= HANDSHAKE_TAIL
  {
    var keys := tail[2..];
    Handshake(nodeId, publicKey, kem, tail[0] == 1, tail[1], keys[..32], keys[32..][..32],
        keys[32..][32..][..SIGNATURE_SIZE])
  }

  function DecodeHandshake(data: seq<byte>): Parsed<Handshake> {
    var min := 16 + 32 + 2 + HANDSHAKE_TAIL;
    if |data| < min then Err(BufferTooShort(min, |data|))
    else
      var kemLen := FromU16(data[16..][32..][..2]);
      if kemLen > MAX_KEM_FIELD || |data| < 50 + kemLen + HANDSHAKE_TAIL then
        Err(BufferTooShort(50 + kemLen + HANDSHAKE_TAIL, |data|))
      else
        var rest := data[16..][32..][2..];
        var kem := if kemLen == 0 then None else Some(rest[..kemLen]);
        Ok(DecodeTail(data[..16], data[16..][..32], kem, rest[kemLen..]))
  }

  predicate GoodHandshake(h: Handshake) {
    && |h.signature| == SIGNATURE_SIZE
    && (h.kemPublicKey.Some? ==> 0 < |h.kemPublicKey.value| <= MAX_KEM_FIELD)
  }

  lemma TailRoundTrip(h: Handshake, padding: seq<byte>)
    requires |h.signature| == SIGNATURE_SIZE
    ensures DecodeTail(h.nodeId, h.publicKey, h.kemPublicKey, EncodeTail(h) + padding) == h
  {
    assert FixedSignature(h.signature) == h.signature;
    var flags := [if h.computeEnabled then 1 else 0, h.computeCapacity];
    var keys := h.identityPublicKey + (h.nonce + (h.signature + padding));
    assert EncodeTail(h) + padding == flags + keys;
    Halves(flags, keys);
    Halves(h.identityPublicKey, h.nonce + (h.signature + padding));
    Halves(h.nonce, h.signature + padding);
    Halves(h.signature, padding);
  }

  lemma HandshakeSlices(nodeId: Bytes16, publicKey: Bytes32, kem: seq<byte>, tail: seq<byte>)
    ensures var data := nodeId + (publicKey + (U16(|kem|) + (kem + tail)));
            && |data| == 50 + |kem| + |tail|
            && data[..16] == nodeId
            && data[16..][..32] == publicKey
            && data[16..][32..][..2] == U16(|kem|)
            && data[16..][32..][2..][..|kem|] == kem
            && data[16..][32..][2..][|kem|..] == tail
  {
    Halves(nodeId, publicKey + (U16(|kem|) + (kem + tail)));
    Halves(publicKey, U16(|kem|) + (kem + tail));
    Halves(U16(|kem|), kem + tail);
    Halves(kem, tail);
  }

  lemma GoodHandshakeDecodes(h: Handshake, padding: seq<byte>)
    requires GoodHandshake(h)
    ensures DecodeHandshake(EncodeHandshake(h) + padding) == Ok(h)
  {
    var kem := if h.kemPublicKey.Some? then h.kemPublicKey.value else [];
    var tail := EncodeTail(h) + padding;
    assert EncodeHandshake(h) + padding == h.nodeId + (h.publicKey + (U16(|kem|) + (kem + tail)));
    HandshakeSlices(h.nodeId, h.publicKey, kem, tail);
    U16RoundTrip(|kem|);
    TailRoundTrip(h, padding);
  }

  lemma HandshakeRoundTrip(h: Handshake, padding: seq<byte>)
    ensures DecodeHandshake(EncodeHandshake(h) + padding) == Ok(h) <==> GoodHandshake(h)
  {
    if GoodHandshake(h) {
      GoodHandshakeDecodes(h, padding);
    }
  }

  lemma TailReads(h: Handshake, tail: seq<byte>)
    requires |tail| >= HANDSHAKE_TAIL && h == DecodeTail(h.nodeId, h.publicKey, h.kemPublicKey, tail)
    ensures EncodeTail(h) <= tail <==> tail[0] <= 1
  {
    assert FixedSignature(h.signature) == h.signature;
    assert EncodeTail(h)[0] == if tail[0] == 1 then 1 else 0;
    if tail[0] <= 1 {
      assert tail[..HANDSHAKE_TAIL] ==
             [tail[0], tail[1]] + (tail[2..][..32] + (tail[2..][32..][..32] + tail[2..][32..][32..][..64]));
    }
  }

  lemma HandshakeCut(data: seq<byte>, n: nat)
    requires 50 + n <= |data|
    ensures var rest := data[16..][32..][2..];
            && rest[n..] == data[50 + n..] && (n == 0 ==> rest[..n] == [])
            && data == data[..16] + (data[16..][..32] + (data[16..][32..][..2] + (rest[..n] + rest[n..])))
  {
    Cut(data, 16);
    Cut(data[16..], 32);
    Cut(data[16..][32..], 2);
    Cut(data[16..][32..][2..], n);
  }

  lemma HandshakeReads(data: seq<byte>) returns (kem: seq<byte>, tail: seq<byte>)
    requires DecodeHandshake(data).Ok?
    ensures |kem| <= MAX_KEM_FIELD && |tail| >= HANDSHAKE_TAIL && |data| >= 50 + |kem| && tail == data[50 + |kem|..]
    ensures data == data[..16] + (data[16..][..32] + (U16(|kem|) + (kem + tail)))
    ensures DecodeHandshake(data) ==
            Ok(DecodeTail(data[..16], data[16..][..32], if kem == [] then None else Some(kem), tail))
  {
    var field, rest := data[16..][32..][..2], data[16..][32..][2..];
    var n := FromU16(field);
    FromBigEndianRoundTrip(field);
    HandshakeCut(data, n);
    kem, tail := rest[..n], rest[n..];
  }

  lemma TailDecides(nodeId: Bytes16, publicKey: Bytes32, kem: seq<byte>, now: seq<byte>, was: seq<byte>)
    ensures nodeId + (publicKey + (U16(|kem|) + (kem + now))) <= nodeId + (publicKey + (U16(|kem|) + (kem + was)))
            <==> now <= was
  {
    Under(kem, now, was);
    Under(U16(|kem|), kem + now, kem + was);
    Under(publicKey, U16(|kem|) + (kem + now), U16(|kem|) + (kem + was));
    Under(nodeId, publicKey + (U16(|kem|) + (kem + now)), publicKey + (U16(|kem|) + (kem + was)));
  }

  /** What is read as a handshake is well formed, and is what writing it again begins with if and only if the
      flag byte is 0 or 1: every other flag is read as 0. */
  lemma HandshakeAccepted(data: seq<byte>)
    requires DecodeHandshake(data).Ok?
    ensures var h := DecodeHandshake(data).value;
            var flag := 50 + if h.kemPublicKey.Some? then |h.kemPublicKey.value| else 0;
            && GoodHandshake(h) && flag < |data| && (EncodeHandshake(h) <= data <==> data[flag] <= 1)
  {
    var kem, was := HandshakeReads(data);
    var h := DecodeHandshake(data).value;
    TailReads(h, was);
    TailDecides(h.nodeId, h.publicKey, kem, EncodeTail(h), was);
  }

  // ---------------------------------------------------------------- hello and welcome

  datatype Hello = Hello(ephPubKey: Bytes32, ephKemPubKey: seq<byte>, nonce: Bytes32)

  function EncodeHello(h: Hello): seq<byte> {
    h.ephPubKey + (U16(|h.ephKemPubKey|) + (h.ephKemPubKey + h.nonce))
  }

  function DecodeHello(data: seq<byte>): Parsed<Hello> {
    if |data| < 32 + 2 + 32 then Err(BufferTooShort(32 + 2 + 32, |data|))
    else
      var kemLen := FromU16(data[32..][..2]);
      var rest := data[32..][2..];
      if kemLen != KEM_PUBLIC_KEY_SIZE then Err(InvalidSphinxPacket)
      else if |data| < 34 + kemLen + 32 then Err(BufferTooShort(34 + kemLen + 32, |data|))
      else Ok(Hello(data[..32], rest[..kemLen], rest[kemLen..][..32]))
  }

  predicate GoodHello(h: Hello) {
    |h.ephKemPubKey| == KEM_PUBLIC_KEY_SIZE
  }

  lemma HelloRoundTrip(h: Hello, padding: seq<byte>)
    ensures DecodeHello(EncodeHello(h) + padding) == Ok(h) <==> GoodHello(h)
  {
    if GoodHello(h) {
      var kem := h.ephKemPubKey;
      assert EncodeHello(h) + padding == h.ephPubKey + (U16(|kem|) + (kem + (h.nonce + padding)));
      Halves(h.ephPubKey, U16(|kem|) + (kem + (h.nonce + padding)));
      Halves(U16(|kem|), kem + (h.nonce + padding));
      Halves(kem, h.nonce + padding);
      Halves(h.nonce, padding);
      U16RoundTrip(|kem|);
    }
  }

  lemma HelloReads(data: seq<byte>)
    requires DecodeHello(data).Ok?
    ensures GoodHello(DecodeHello(data).value) && EncodeHello(DecodeHello(data).value) <= data
  {
    var field, rest := data[32..][..2], data[32..][2..];
    FromBigEndianRoundTrip(field);
    var n := FromU16(field);
    Cut(data, 32);
    Cut(data[32..], 2);
    Cut(rest, n);
    Under(rest[..n], rest[n..][..32], rest[n..]);
    Under(field, rest[..n] + rest[n..][..32], rest);
    Under(data[..32], field + (rest[..n] + rest[n..][..32]), data[32..]);
  }

  /** A hello is read from exactly the bytes that begin with a well-formed one. */
  lemma HelloAccepted(data: seq<byte>, h: Hello)
    ensures DecodeHello(data) == Ok(h) <==> GoodHello(h) && EncodeHello(h) <= data
  {
    if GoodHello(h) && EncodeHello(h) <= data {
      HelloRoundTrip(h, data[|EncodeHello(h)|..]);
      assert data == EncodeHello(h) + data[|EncodeHello(h)|..];
    }
    if DecodeHello(data) == Ok(h) {
      HelloReads(data);
    }
  }

  datatype Welcome = Welcome(ephPubKey: Bytes32, ephKemPubKey: seq<byte>, nonce: Bytes32, kemCiphertext: seq<byte>)

  function EncodeWelcome(w: Welcome): seq<byte> {
    EncodeHello(Hello(w.ephPubKey, w.ephKemPubKey, w.nonce)) + (U16(|w.kemCiphertext|) + w.kemCiphertext)
  }

  function DecodeWelcome(data: seq<byte>): Parsed<Welcome> {
    if |data| < 32 + 2 + 32 + 2 then Err(BufferTooShort(32 + 2 + 32 + 2, |data|))
    else
      var kemLen := FromU16(data[32..][..2]);
      if kemLen != KEM_PUBLIC_KEY_SIZE then Err(InvalidSphinxPacket)
      else if |data| < 34 + kemLen + 32 + 2 then Err(BufferTooShort(34 + kemLen + 32 + 2, |data|))
      else
        var rest := data[32..][2..];
        var after := data[34 + kemLen + 32..];
        var ctLen := FromU16(after[..2]);
        if ctLen != KEM_CIPHERTEXT_SIZE then Err(InvalidSphinxPacket)
        else if |data| < 34 + kemLen + 32 + 2 + ctLen then Err(BufferTooShort(34 + kemLen + 32 + 2 + ctLen, |data|))
        else Ok(Welcome(data[..32], rest[..kemLen], rest[kemLen..][..32], after[2..][..ctLen]))
  }

  predicate GoodWelcome(w: Welcome) {
    |w.ephKemPubKey| == KEM_PUBLIC_KEY_SIZE && |w.kemCiphertext| == KEM_CIPHERTEXT_SIZE
  }

  lemma WelcomeRoundTrip(w: Welcome, padding: seq<byte>)
    ensures DecodeWelcome(EncodeWelcome(w) + padding) == Ok(w) <==> GoodWelcome(w)
  {
    if GoodWelcome(w) {
      var front := Hello(w.ephPubKey, w.ephKemPubKey, w.nonce);
      var after := U16(|w.kemCiphertext|) + (w.kemCiphertext + padding);
      var data := EncodeWelcome(w) + padding;
      assert data == EncodeHello(front) + after;
      Halves(EncodeHello(front), after);
      Halves(U16(|w.kemCiphertext|), w.kemCiphertext + padding);
      Halves(w.kemCiphertext, padding);
      U16RoundTrip(|w.kemCiphertext|);
      HelloRoundTrip(front, after);
      assert DecodeHello(data) == Ok(front);
    }
  }

  lemma WelcomeFront(data: seq<byte>)
    requires DecodeWelcome(data).Ok?
    ensures var w := DecodeWelcome(data).value;
            DecodeHello(data) == Ok(Hello(w.ephPubKey, w.ephKemPubKey, w.nonce)) && GoodWelcome(w)
  {
  }

  lemma WelcomeReads(data: seq<byte>)
    requires DecodeWelcome(data).Ok?
    ensures GoodWelcome(DecodeWelcome(data).value) && EncodeWelcome(DecodeWelcome(data).value) <= data
  {
    var w := DecodeWelcome(data).value;
    var front := Hello(w.ephPubKey, w.ephKemPubKey, w.nonce);
    WelcomeFront(data);
    HelloReads(data);
    var n := 66 + KEM_PUBLIC_KEY_SIZE;
    var after := data[n..];
    assert |EncodeHello(front)| == n && data[..n] == EncodeHello(front);
    FromBigEndianRoundTrip(after[..2]);
    Cut(data, n);
    Cut(after, 2);
    Under(after[..2], w.kemCiphertext, after[2..]);
    Under(EncodeHello(front), after[..2] + w.kemCiphertext, after);
  }

  /** A welcome is read from exactly the bytes that begin with a well-formed one. */
  lemma WelcomeAccepted(data: seq<byte>, w: Welcome)
    ensures DecodeWelcome(data) == Ok(w) <==> GoodWelcome(w) && EncodeWelcome(w) <= data
  {
    if GoodWelcome(w) && EncodeWelcome(w) <= data {
      WelcomeRoundTrip(w, data[|EncodeWelcome(w)|..]);
      assert data == EncodeWelcome(w) + data[|EncodeWelcome(w)|..];
    }
    if DecodeWelcome(data) == Ok(w) {
      WelcomeReads(data);
    }
  }

  // ---------------------------------------------------------------- encrypted identity

  datatype EncryptedIdentity = EncryptedIdentity(aeadNonce: Bytes12, ciphertext: seq<byte>)

  function EncodeIdentity(e: EncryptedIdentity): seq<byte> {
    e.aeadNonce + (U16(|e.ciphertext|) + e.ciphertext)
  }

  function DecodeIdentity(data: seq<byte>): Parsed<EncryptedIdentity> {
    if |data| < 12 + 2 then Err(BufferTooShort(12 + 2, |data|))
    else
      var ctLen := FromU16(data[12..][..2]);
      if ctLen == 0 || ctLen > MAX_KEM_FIELD || |data| < 14 + ctLen then Err(BufferTooShort(14 + ctLen, |data|))
      else Ok(EncryptedIdentity(data[..12], data[12..][2..][..ctLen]))
  }

  predicate GoodIdentity(e: EncryptedIdentity) {
    0 < |e.ciphertext| <= MAX_KEM_FIELD
  }

  lemma IdentityRoundTrip(e: EncryptedIdentity, padding: seq<byte>)
    ensures DecodeIdentity(EncodeIdentity(e) + padding) == Ok(e) <==> GoodIdentity(e)
  {
    if GoodIdentity(e) {
      var ct := e.ciphertext;
      assert EncodeIdentity(e) + padding == e.aeadNonce + (U16(|ct|) + (ct + padding));
      Halves(e.aeadNonce, U16(|ct|) + (ct + padding));
      Halves(U16(|ct|), ct + padding);
      Halves(ct, padding);
      U16RoundTrip(|ct|);
    }
  }

  /** An identity is read from exactly the bytes that begin with a well-formed one. */
  lemma IdentityAccepted(data: seq<byte>, e: EncryptedIdentity)
    ensures DecodeIdentity(data) == Ok(e) <==> GoodIdentity(e) && EncodeIdentity(e) <= data
  {
    if GoodIdentity(e) && EncodeIdentity(e) <= data {
      IdentityRoundTrip(e, data[|EncodeIdentity(e)|..]);
      assert data == EncodeIdentity(e) + data[|EncodeIdentity(e)|..];
    }
    if DecodeIdentity(data) == Ok(e) {
      var field, rest := data[12..][..2], data[12..][2..];
      FromBigEndianRoundTrip(field);
      Cut(data, 12);
      Cut(data[12..], 2);
      Under(field, e.ciphertext, rest);
      Under(data[..12], field + e.ciphertext, data[12..]);
    }
  }

  // ---------------------------------------------------------------- sphinx packets

  const SPHINX_VERSION_CLASSICAL: byte := 0
  const SPHINX_VERSION_HYBRID: byte := 1
  const SPHINX_VERSION_SESSION_REPLY: byte := 2

  datatype SphinxHeader = SphinxHeader(
    version: byte, ephemeralKey: Bytes32, sessionId: Bytes32, routingInfo: seq<byte>, mac: Bytes16)

  datatype SphinxPacket = SphinxPacket(header: SphinxHeader, kemCiphertexts: seq<byte>, body: seq<byte>)

  const LEGACY_SIZE: nat := EPHEMERAL_KEY_SIZE + ROUTING_INFO_SIZE + MAC_SIZE + BODY_SIZE
  /** Version, ephemeral key, session id and length of the encapsulation block. */
  const SPHINX_PREFIX: nat := 1 + EPHEMERAL_KEY_SIZE + SESSION_ID_SIZE + 4

  function EncodeSphinx(p: SphinxPacket): seq<byte> {
    [p.header.version] + (p.header.ephemeralKey + (p.header.sessionId +
    (U32(|p.kemCiphertexts|) + (p.kemCiphertexts + (p.header.routingInfo + (p.header.mac + p.body))))))
  }

  predicate KemLengthOk(version: byte, kemLen: nat) {
    if version == SPHINX_VERSION_HYBRID then kemLen == KEM_BLOCK_SIZE
    else kemLen == 0 || kemLen % KEM_CIPHERTEXT_SIZE == 0
  }

  function DecodeLegacy(data: seq<byte>): SphinxPacket
    requires |data| == LEGACY_SIZE
  {
    var rest := data[32..];
    var header := SphinxHeader(SPHINX_VERSION_CLASSICAL, data[..32], ZERO32, rest[..ROUTING_INFO_SIZE],
                               rest[ROUTING_INFO_SIZE..][..16]);
    SphinxPacket(header, [], rest[ROUTING_INFO_SIZE..][16..])
  }

  /** The length left for the body may come out negative and then falls into the error branch. */
  function DecodeSphinx(data: seq<byte>): Parsed<SphinxPacket> {
    if |data| == LEGACY_SIZE then Ok(DecodeLegacy(data))
    else
      var min := SPHINX_PREFIX + ROUTING_INFO_SIZE + MAC_SIZE + BODY_SIZE;
      if |data| < min then Err(BufferTooShort(min, |data|))
      else
        var version := data[0];
        var kemLen := FromU32(data[1..][32..][32..][..4]);
        var remaining := |data| - SPHINX_PREFIX - kemLen - ROUTING_INFO_SIZE - MAC_SIZE;
        if !KemLengthOk(version, kemLen) then Err(InvalidSphinxPacket)
        else if remaining != WIRE_BODY_SIZE && remaining != BODY_SIZE then
          Err(BufferTooShort(SPHINX_PREFIX + kemLen + ROUTING_INFO_SIZE + MAC_SIZE + WIRE_BODY_SIZE, |data|))
        else
          var rest := data[1..][32..][32..][4..];
          Ok(DecodeFields(version, data[1..][..32], data[1..][32..][..32], rest[..kemLen], rest[kemLen..]))
  }

  function DecodeFields(version: byte, ephemeralKey: Bytes32, sessionId: Bytes32, kem: seq<byte>, rest: seq<byte>)
      : SphinxPacket
    requires |rest| >= ROUTING_INFO_SIZE + MAC_SIZE
  {
    var header := SphinxHeader(version, ephemeralKey, sessionId, rest[..ROUTING_INFO_SIZE],
        rest[ROUTING_INFO_SIZE..][..16]);
    SphinxPacket(header, kem, rest[ROUTING_INFO_SIZE..][16..])
  }

  predicate GoodSphinx(p: SphinxPacket) {
    && |p.header.routingInfo| == ROUTING_INFO_SIZE
    && (|p.body| == WIRE_BODY_SIZE || |p.body| == BODY_SIZE)
    && KemLengthOk(p.header.version, |p.kemCiphertexts|)
    && |p.kemCiphertexts| < U32_LIMIT
  }

  lemma FieldsRoundTrip(p: SphinxPacket)
    requires |p.header.routingInfo| == ROUTING_INFO_SIZE
    ensures DecodeFields(p.header.version, p.header.ephemeralKey, p.header.sessionId, p.kemCiphertexts,
                         p.header.routingInfo + (p.header.mac + p.body)) == p
  {
    Halves(p.header.routingInfo, p.header.mac + p.body);
    Halves(p.header.mac, p.body);
  }

  lemma SphinxSlices(p: SphinxPacket)
    ensures var data, kem, tail := EncodeSphinx(p), p.kemCiphertexts, p.header.routingInfo + (p.header.mac + p.body);
            && |data| == SPHINX_PREFIX + |kem| + |p.header.routingInfo| + MAC_SIZE + |p.body|
            && data[0] == p.header.version
            && data[1..][..32] == p.header.ephemeralKey
            && data[1..][32..][..32] == p.header.sessionId
            && data[1..][32..][32..][..4] == U32(|kem|)
            && data[1..][32..][32..][4..][..|kem|] == kem
            && data[1..][32..][32..][4..][|kem|..] == tail
  {
    var kem, tail := p.kemCiphertexts, p.header.routingInfo + (p.header.mac + p.body);
    Halves([p.header.version], p.header.ephemeralKey + (p.header.sessionId + (U32(|kem|) + (kem + tail))));
    Halves(p.header.ephemeralKey, p.header.sessionId + (U32(|kem|) + (kem + tail)));
    Halves(p.header.sessionId, U32(|kem|) + (kem + tail));
    Halves(U32(|kem|), kem + tail);
    Halves(kem, tail);
  }

  /** A packet of either version survives the wire exactly when its sections have their sizes; in
      particular no versioned packet is mistaken for an unversioned one. */
  lemma SphinxRoundTrip(p: SphinxPacket)
    requires |p.kemCiphertexts| < U32_LIMIT
    ensures DecodeSphinx(EncodeSphinx(p)) == Ok(p) <==> GoodSphinx(p)
    ensures GoodSphinx(p) ==> |EncodeSphinx(p)| != LEGACY_SIZE
  {
    SphinxSlices(p);
    U32RoundTrip(|p.kemCiphertexts|);
    if GoodSphinx(p) {
      FieldsRoundTrip(p);
    }
  }

  /** The bytes of a packet from before there were versions: no version byte, session id or encapsulations. */
  predicate IsLegacy(data: seq<byte>, p: SphinxPacket) {
    && p.header.version == 0 && p.header.sessionId == ZERO32 && p.kemCiphertexts == []
    && |p.header.routingInfo| == ROUTING_INFO_SIZE && |p.body| == BODY_SIZE
    && data == p.header.ephemeralKey + (p.header.routingInfo + (p.header.mac + p.body))
  }

  lemma LegacyAccepted(data: seq<byte>, p: SphinxPacket)
    ensures |data| == LEGACY_SIZE ==> (DecodeLegacy(data) == p <==> IsLegacy(data, p))
    ensures IsLegacy(data, p) ==> |data| == LEGACY_SIZE
  {
    if IsLegacy(data, p) {
      Halves(p.header.ephemeralKey, p.header.routingInfo + (p.header.mac + p.body));
      FieldsRoundTrip(p);
    }
    if |data| == LEGACY_SIZE && DecodeLegacy(data) == p {
      var rest := data[32..];
      Cut(data, 32);
      Cut(rest, ROUTING_INFO_SIZE);
      Cut(rest[ROUTING_INFO_SIZE..], 16);
    }
  }

  lemma VersionedReads(data: seq<byte>, p: SphinxPacket)
    requires |data| != LEGACY_SIZE && DecodeSphinx(data) == Ok(p)
    ensures GoodSphinx(p) && data == EncodeSphinx(p)
  {
    var rest := data[1..][32..][32..];
    var kemLen := FromU32(rest[..4]);
    FromBigEndianRoundTrip(rest[..4]);
    var tail := rest[4..][kemLen..];
    Cut(tail[ROUTING_INFO_SIZE..], 16);
    Cut(tail, ROUTING_INFO_SIZE);
    Cut(rest[4..], kemLen);
    Cut(rest, 4);
    Cut(data[1..][32..], 32);
    Cut(data[1..], 32);
    Cut(data, 1);
  }

  /** A packet is read from exactly two kinds of bytes: its own encoding if it is well formed, and its legacy
      form if it has one. */
  lemma SphinxAccepted(data: seq<byte>, p: SphinxPacket)
    requires |p.kemCiphertexts| < U32_LIMIT
    ensures DecodeSphinx(data) == Ok(p) <==> (GoodSphinx(p) && data == EncodeSphinx(p)) || IsLegacy(data, p)
  {
    LegacyAccepted(data, p);
    SphinxRoundTrip(p);
    if |data| != LEGACY_SIZE && DecodeSphinx(data) == Ok(p) {
      VersionedReads(data, p);
    }
  }

  // ---------------------------------------------------------------- session replies

  datatype SessionReply = SessionReply(sessionId: Bytes32, nonce: Bytes32, body: seq<byte>)

  const SESSION_REPLY_WIRE_SIZE: nat := SPHINX_PREFIX + KEM_BLOCK_SIZE + ROUTING_INFO_SIZE + MAC_SIZE + WIRE_BODY_SIZE

  /** Random padding: byte `i` of the noise source. */
  function Noise(n: nat, noise: nat -> byte): (s: seq<byte>)
    ensures |s| == n
  {
    seq(n, i requires 0 <= i < n => noise(i))
  }

  function FixedBody(body: seq<byte>): (s: seq<byte>)
    ensures |s| == WIRE_BODY_SIZE
  {
    var n := Min(|body|, WIRE_BODY_SIZE);
    body[..n] + Zeros(WIRE_BODY_SIZE - n)
  }

  function EncodeReply(r: SessionReply, noise: nat -> byte): (s: seq<byte>)
    ensures |s| == SESSION_REPLY_WIRE_SIZE && s[0] == SPHINX_VERSION_SESSION_REPLY
  {
    var front := [SPHINX_VERSION_SESSION_REPLY] + (r.sessionId + (r.nonce + FixedBody(r.body)));
    front + Noise(SESSION_REPLY_WIRE_SIZE - |front|, noise)
  }

  function DecodeReply(data: seq<byte>): Parsed<SessionReply> {
    if |data| < 1 + 32 + 32 + WIRE_BODY_SIZE || data[0] != SPHINX_VERSION_SESSION_REPLY then Err(InvalidSphinxPacket)
    else Ok(SessionReply(data[1..][..32], data[1..][32..][..32], data[1..][32..][32..][..WIRE_BODY_SIZE]))
  }

  predicate GoodReply(r: SessionReply) {
    |r.body| == WIRE_BODY_SIZE
  }

  lemma ReplyRoundTrip(r: SessionReply, noise: nat -> byte)
    ensures DecodeReply(EncodeReply(r, noise)) == Ok(r) <==> GoodReply(r)
  {
    if GoodReply(r) {
      assert FixedBody(r.body) == r.body;
      var padding := Noise(SESSION_REPLY_WIRE_SIZE - (1 + 32 + 32 + WIRE_BODY_SIZE), noise);
      assert EncodeReply(r, noise) == [SPHINX_VERSION_SESSION_REPLY] + (r.sessionId + (r.nonce + (r.body + padding)));
      Halves([SPHINX_VERSION_SESSION_REPLY], r.sessionId + (r.nonce + (r.body + padding)));
      Halves(r.sessionId, r.nonce + (r.body + padding));
      Halves(r.nonce, r.body + padding);
      Halves(r.body, padding);
    }
  }

  /** A reply is read from exactly the bytes that begin with its version, session, nonce and full body. */
  lemma ReplyAccepted(data: seq<byte>, r: SessionReply)
    ensures DecodeReply(data) == Ok(r) <==> GoodReply(r) && [2] + (r.sessionId + (r.nonce + r.body)) <= data
  {
    var front := [2] + (r.sessionId + (r.nonce + r.body));
    if GoodReply(r) && front <= data {
      var padding := data[|front|..];
      assert data == [2] + (r.sessionId + (r.nonce + (r.body + padding)));
      Halves([2], r.sessionId + (r.nonce + (r.body + padding)));
      Halves(r.sessionId, r.nonce + (r.body + padding));
      Halves(r.nonce, r.body + padding);
      Halves(r.body, padding);
    }
    if DecodeReply(data) == Ok(r) {
      var rest := data[1..][32..][32..];
      Cut(data, 1);
      Cut(data[1..], 32);
      Cut(data[1..][32..], 32);
      Under(r.nonce, r.body, rest);
      Under(r.sessionId, r.nonce + r.body, data[1..][32..]);
      Under([2], r.sessionId + (r.nonce + r.body), data[1..]);
    }
  }
}
