/** Reply blocks as bytes, for transport inside an encrypted body. */
module SurbCodec {
  import opened Bytes
  import opened Sizes
  import opened SphinxCrypto
  import opened WireCodec
  import opened SphinxNode
  import opened Surb
  import opened SurbRoute

  function JoinKeys(keys: seq<Key>): (s: seq<byte>)
    ensures |s| == Offset(32, |keys|)
  {
    if keys == [] then [] else keys[0] + JoinKeys(keys[1..])
  }

  /** What follows the header: the key count (one byte), the keys and the endpoints. */
  function EncodeKeys(s: Surb): seq<byte> {
    [|s.bodyKeys| % 256] + (JoinKeys(s.bodyKeys) + (s.bodyAeadKey + (s.aadDestination + s.firstHop)))
  }

  /** The header and ciphertext block are laid out as in a packet. */
  function EncodeSurb(s: Surb): seq<byte> {
    EncodeSphinx(SphinxPacket(s.header, s.kemCiphertexts, EncodeKeys(s)))
  }

  method SerializeSurb(s: Surb) returns (buf: seq<byte>)
    ensures buf == EncodeSurb(s)
  {
    var keys := [];
    for i := |s.bodyKeys| downto 0
      invariant keys == JoinKeys(s.bodyKeys[i..])
    {
      assert s.bodyKeys[i..][1..] == s.bodyKeys[i + 1..];
      keys := s.bodyKeys[i] + keys;
    }
    assert s.bodyKeys[0..] == s.bodyKeys;
    buf := [s.header.version] + (s.header.ephemeralKey + (s.header.sessionId +
           (U32(|s.kemCiphertexts|) + (s.kemCiphertexts + (s.header.routingInfo + (s.header.mac +
           ([|s.bodyKeys| % 256] + (keys + (s.bodyAeadKey + (s.aadDestination + s.firstHop))))))))));
  }

  function TakeKeys(data: seq<byte>, n: nat): (keys: seq<Key>)
    requires |data| >= Offset(32, n)
    ensures |keys| == n
    decreases n
  {
    if n == 0 then [] else [data[..32]] + TakeKeys(data[32..], n - 1)
  }

  const ENDPOINTS: nat := 32 + 16 + 16
  const MIN_SURB: nat := SPHINX_PREFIX + ROUTING_INFO_SIZE + MAC_SIZE + 1 + 32 + ENDPOINTS

  function DecodeEndpoints(header: SphinxHeader, kem: seq<byte>, keys: seq<Key>, rest: seq<byte>): Surb
    requires |rest| >= ENDPOINTS
  {
    Surb(header, kem, keys, rest[..32], rest[32..][..16], rest[32..][16..][..16])
  }

  /** From the routing section on. */
  function DecodeTail(version: byte, ephemeralKey: Key, sessionId: Bytes32, kem: seq<byte>, rest: seq<byte>)
      : Result<Surb, SphinxError>
  {
    if |rest| < ROUTING_INFO_SIZE + MAC_SIZE then Err(InvalidPacketSize)
    else
      var header := SphinxHeader(version, ephemeralKey, sessionId, rest[..ROUTING_INFO_SIZE],
          rest[ROUTING_INFO_SIZE..][..16]);
      var after := rest[ROUTING_INFO_SIZE..][16..];
      if |after| == 0 then Err(InvalidPacketSize)
      else
        var n := after[0];
        if n == 0 || n > MAX_HOPS || |after[1..]| < Offset(32, n) + ENDPOINTS then Err(InvalidPacketSize)
        else Ok(DecodeEndpoints(header, kem, TakeKeys(after[1..], n), after[1..][Offset(32, n)..]))
  }

  function DecodeSurb(data: seq<byte>): Result<Surb, SphinxError> {
    if |data| < MIN_SURB then Err(InvalidPacketSize)
    else if data[0] != SPHINX_VERSION_CLASSICAL && data[0] != SPHINX_VERSION_HYBRID
         then Err(UnsupportedVersion(data[0]))
    else
      var kemLen := FromU32(data[1..][32..][32..][..4]);
      var rest := data[1..][32..][32..][4..];
      if kemLen > KEM_BLOCK_SIZE || |rest| < kemLen then Err(InvalidPacketSize)
      else if data[0] == SPHINX_VERSION_HYBRID && kemLen != KEM_BLOCK_SIZE then Err(InvalidKemCiphertext)
      else DecodeTail(data[0], data[1..][..32], data[1..][32..][..32], rest[..kemLen], rest[kemLen..])
  }

  lemma {:induction false} TakeMore(data: seq<byte>, n: nat)
    requires |data| >= Offset(32, n + 1)
    ensures TakeKeys(data, n + 1) == TakeKeys(data, n) + [data[Offset(32, n)..][..32]]
    decreases n
  {
    if n > 0 {
      TakeMore(data[32..], n - 1);
      assert data[32..][Offset(32, n - 1)..] == data[Offset(32, n)..];
    }
  }

  /** The key loop of the decoder. */
  method ReadKeys(data: seq<byte>, n: nat) returns (keys: seq<Key>, offset: nat)
    requires |data| >= Offset(32, n)
    ensures keys == TakeKeys(data, n) && offset == Offset(32, n)
  {
    keys, offset := [], 0;
    var i := 0;
    while i < n
      invariant 0 <= i <= n && offset == Offset(32, i) <= Offset(32, n) <= |data|
      invariant keys == TakeKeys(data, i)
    {
      OffsetIsProduct(32, i + 1);
      OffsetIsProduct(32, n);
      TakeMore(data, i);
      keys := keys + [data[offset..][..32]];
      offset := offset + 32;
      i := i + 1;
    }
  }

  method DeserializeSurb(data: seq<byte>) returns (result: Result<Surb, SphinxError>)
    ensures result == DecodeSurb(data)
  {
    if |data| < MIN_SURB {
      return Err(InvalidPacketSize);
    }
    var version := data[0];
    if version != SPHINX_VERSION_CLASSICAL && version != SPHINX_VERSION_HYBRID {
      return Err(UnsupportedVersion(version));
    }
    var kemLen := FromU32(data[1..][32..][32..][..4]);
    var rest := data[1..][32..][32..][4..];
    if kemLen > KEM_BLOCK_SIZE || |rest| < kemLen {
      return Err(InvalidPacketSize);
    }
    if version == SPHINX_VERSION_HYBRID && kemLen != KEM_BLOCK_SIZE {
      return Err(InvalidKemCiphertext);
    }
    result := DeserializeTail(version, data[1..][..32], data[1..][32..][..32], rest[..kemLen], rest[kemLen..]);
  }

  method DeserializeTail(version: byte, ephemeralKey: Key, sessionId: Bytes32, kem: seq<byte>, rest: seq<byte>)
    returns (result: Result<Surb, SphinxError>)
    ensures result == DecodeTail(version, ephemeralKey, sessionId, kem, rest)
  {
    if |rest| < ROUTING_INFO_SIZE + MAC_SIZE {
      return Err(InvalidPacketSize);
    }
    var header := SphinxHeader(version, ephemeralKey, sessionId, rest[..ROUTING_INFO_SIZE],
        rest[ROUTING_INFO_SIZE..][..16]);
    var after := rest[ROUTING_INFO_SIZE..][16..];
    if |after| == 0 {
      return Err(InvalidPacketSize);
    }
    var n := after[0];
    if n == 0 || n > MAX_HOPS || |after[1..]| < Offset(32, n) + ENDPOINTS {
      return Err(InvalidPacketSize);
    }
    var keys, offset := ReadKeys(after[1..], n);
    result := Ok(DecodeEndpoints(header, kem, keys, after[1..][offset..]));
  }

  predicate GoodSurb(s: Surb) {
    && s.header.version <= SPHINX_VERSION_HYBRID
    && (if s.header.version == SPHINX_VERSION_HYBRID then |s.kemCiphertexts| == KEM_BLOCK_SIZE
         else |s.kemCiphertexts| <= KEM_BLOCK_SIZE)
    && |s.header.routingInfo| == ROUTING_INFO_SIZE
    && 1 <= |s.bodyKeys| <= MAX_HOPS
  }

  lemma {:induction false} KeysRoundTrip(keys: seq<Key>, after: seq<byte>)
    ensures |JoinKeys(keys) + after| >= Offset(32, |keys|)
    ensures TakeKeys(JoinKeys(keys) + after, |keys|) == keys
    ensures (JoinKeys(keys) + after)[Offset(32, |keys|)..] == after
  {
    if keys == [] {
      assert [] + after == after;
    } else {
      KeysRoundTrip(keys[1..], after);
      assert JoinKeys(keys) + after == keys[0] + (JoinKeys(keys[1..]) + after);
      Halves(keys[0], JoinKeys(keys[1..]) + after);
      Halves(JoinKeys(keys), after);
    }
  }

  lemma EndpointsRoundTrip(s: Surb, after: seq<byte>)
    ensures DecodeEndpoints(s.header, s.kemCiphertexts, s.bodyKeys,
                            s.bodyAeadKey + (s.aadDestination + (s.firstHop + after))) == s
  {
    Halves(s.bodyAeadKey, s.aadDestination + (s.firstHop + after));
    Halves(s.aadDestination, s.firstHop + after);
    Halves(s.firstHop, after);
  }

  lemma KeysSlices(s: Surb, after: seq<byte>)
    requires 1 <= |s.bodyKeys| <= MAX_HOPS
    ensures var rest := EncodeKeys(s) + after;
            var ends := s.bodyAeadKey + (s.aadDestination + (s.firstHop + after));
            && |rest| > 0 && rest[0] == |s.bodyKeys|
            && |rest[1..]| == Offset(32, |s.bodyKeys|) + |ends|
            && TakeKeys(rest[1..], |s.bodyKeys|) == s.bodyKeys
            && rest[1..][Offset(32, |s.bodyKeys|)..] == ends
  {
    var ends := s.bodyAeadKey + (s.aadDestination + (s.firstHop + after));
    assert EncodeKeys(s) + after == [|s.bodyKeys|] + (JoinKeys(s.bodyKeys) + ends);
    Halves([|s.bodyKeys|], JoinKeys(s.bodyKeys) + ends);
    KeysRoundTrip(s.bodyKeys, ends);
  }

  lemma TailRoundTrip(s: Surb, after: seq<byte>)
    requires GoodSurb(s)
    ensures DecodeTail(s.header.version, s.header.ephemeralKey, s.header.sessionId, s.kemCiphertexts,
                       s.header.routingInfo + (s.header.mac + (EncodeKeys(s) + after))) == Ok(s)
  {
    Halves(s.header.routingInfo, s.header.mac + (EncodeKeys(s) + after));
    Halves(s.header.mac, EncodeKeys(s) + after);
    KeysSlices(s, after);
    EndpointsRoundTrip(s, after);
  }

  lemma PacketAppend(header: SphinxHeader, kem: seq<byte>, body: seq<byte>, after: seq<byte>)
    ensures EncodeSphinx(SphinxPacket(header, kem, body)) + after
            == EncodeSphinx(SphinxPacket(header, kem, body + after))
  {
    assert header.mac + (body + after) == (header.mac + body) + after;
    var tail := header.mac + body;
    assert kem + (header.routingInfo + (tail + after)) == (kem + (header.routingInfo + tail)) + after;
    var rest := U32(|kem|) + (kem + (header.routingInfo + tail));
    assert U32(|kem|) + ((kem + (header.routingInfo + tail)) + after) == rest + after;
    assert header.ephemeralKey + (header.sessionId + (rest + after))
        == (header.ephemeralKey + (header.sessionId + rest)) + after;
  }

  lemma KeysSize(s: Surb)
    requires |s.bodyKeys| >= 1
    ensures |EncodeKeys(s)| >= 1 + 32 + ENDPOINTS
  {
  }

  lemma GoodRoundTrip(s: Surb, after: seq<byte>)
    requires GoodSurb(s)
    ensures DecodeSurb(EncodeSurb(s) + after) == Ok(s)
  {
    PacketAppend(s.header, s.kemCiphertexts, EncodeKeys(s), after);
    KeysSize(s);
    DecodeLaidOut(s.header, s.kemCiphertexts, EncodeKeys(s) + after);
    TailRoundTrip(s, after);
  }

  /** The decoder finds header and ciphertexts of a block laid out as a packet. */
  lemma DecodeLaidOut(header: SphinxHeader, kem: seq<byte>, rest: seq<byte>)
    requires header.version <= SPHINX_VERSION_HYBRID && |header.routingInfo| == ROUTING_INFO_SIZE
             && |rest| >= 1 + 32 + ENDPOINTS
    requires if header.version == SPHINX_VERSION_HYBRID then |kem| == KEM_BLOCK_SIZE else |kem| <= KEM_BLOCK_SIZE
    ensures DecodeSurb(EncodeSphinx(SphinxPacket(header, kem, rest)))
         == DecodeTail(header.version, header.ephemeralKey, header.sessionId, kem,
             header.routingInfo + (header.mac + rest))
  {
    SphinxSlices(SphinxPacket(header, kem, rest));
    U32RoundTrip(|kem|);
  }

  lemma DecodedIsGood(data: seq<byte>)
    requires DecodeSurb(data).Ok?
    ensures GoodSurb(DecodeSurb(data).value)
  {
  }

  /** A reply block survives transport, whatever follows it, exactly when it is well formed. */
  lemma SurbRoundTrip(s: Surb, after: seq<byte>)
    ensures DecodeSurb(EncodeSurb(s) + after) == Ok(s) <==> GoodSurb(s)
  {
    var data := EncodeSurb(s) + after;
    if GoodSurb(s) {
      GoodRoundTrip(s, after);
    } else if DecodeSurb(data).Ok? {
      DecodedIsGood(data);
    }
  }

  /** Every block that creation makes with sound keys is well formed. */
  lemma CreatedIsGood(c: Crypto, route: Route, draws: Draws, nodes: seq<MixNode>)
    requires Lawful(c) && RouteOwned(c, nodes, route.hops)
    ensures Create(c, route, draws).Ok? ==> GoodSurb(Create(c, route, draws).value)
  {
    if Create(c, route, draws).Ok? {
      LegsExist(c, route.mode, nodes, route.hops, draws.scalar, draws.coins);
      RouteFits(|route.hops|);
      BlocksFilled(c, route, draws, RouteLegs(c, route, draws).value);
    }
  }

  lemma BlocksFilled(c: Crypto, route: Route, draws: Draws, legs: seq<Leg>)
    requires 0 < |route.hops| == |legs| <= MAX_HOPS && Offset(SLOT_SIZE, |legs|) <= ROUTING_INFO_SIZE
    requires route.mode.Hybrid? ==> |Ciphertexts(legs)| <= KEM_BLOCK_SIZE
    ensures GoodSurb(Assemble(c, route, draws, legs))
  {
  }

  /** The most bytes a well-formed block takes. */
  const MAX_SURB: nat := SPHINX_PREFIX + KEM_BLOCK_SIZE + ROUTING_INFO_SIZE + MAC_SIZE + 1 + 32 * MAX_HOPS + ENDPOINTS

  lemma GoodSurbSize(s: Surb)
    requires GoodSurb(s)
    ensures |EncodeSurb(s)| <= MAX_SURB
  {
    SphinxSlices(SphinxPacket(s.header, s.kemCiphertexts, EncodeKeys(s)));
    OffsetIsProduct(32, |s.bodyKeys|);
  }

  lemma {:induction false} KeysRead(data: seq<byte>, n: nat)
    requires |data| >= Offset(32, n)
    ensures JoinKeys(TakeKeys(data, n)) + data[Offset(32, n)..] == data
    decreases n
  {
    if n == 0 {
      assert [] + data == data;
    } else {
      var later := data[32..];
      KeysRead(later, n - 1);
      assert later[Offset(32, n - 1)..] == data[Offset(32, n)..];
      assert TakeKeys(data, n)[1..] == TakeKeys(later, n - 1);
      JoinAssociates(data[..32], JoinKeys(TakeKeys(later, n - 1)), data[Offset(32, n)..]);
      Cut(data, 32);
    }
  }

  lemma EndpointsRead(header: SphinxHeader, kem: seq<byte>, keys: seq<Key>, rest: seq<byte>)
    requires |rest| >= ENDPOINTS
    ensures var s := DecodeEndpoints(header, kem, keys, rest);
            s.bodyAeadKey + (s.aadDestination + s.firstHop) <= rest
  {
    var s := DecodeEndpoints(header, kem, keys, rest);
    Cut(rest, 32);
    Cut(rest[32..], 16);
    Under(s.aadDestination, s.firstHop, rest[32..][16..]);
    Under(s.bodyAeadKey, s.aadDestination + s.firstHop, rest[32..]);
  }

  /** From the key count on. */
  lemma KeysAreRead(s: Surb, after: seq<byte>)
    requires 1 <= |s.bodyKeys| <= MAX_HOPS && |after| > 0 && after[0] == |s.bodyKeys|
    requires |after[1..]| >= Offset(32, |s.bodyKeys|) + ENDPOINTS && s.bodyKeys == TakeKeys(after[1..], |s.bodyKeys|)
    requires s == DecodeEndpoints(s.header, s.kemCiphertexts, s.bodyKeys, after[1..][Offset(32, |s.bodyKeys|)..])
    ensures EncodeKeys(s) <= after
  {
    var n := |s.bodyKeys|;
    var rest := after[1..][Offset(32, n)..];
    KeysRead(after[1..], n);
    EndpointsRead(s.header, s.kemCiphertexts, s.bodyKeys, rest);
    Under(JoinKeys(s.bodyKeys), s.bodyAeadKey + (s.aadDestination + s.firstHop), rest);
    Cut(after, 1);
    Under([after[0]], JoinKeys(s.bodyKeys) + (s.bodyAeadKey + (s.aadDestination + s.firstHop)), after[1..]);
  }

  lemma TailRead(version: byte, ephemeralKey: Key, sessionId: Bytes32, kem: seq<byte>, rest: seq<byte>)
    requires DecodeTail(version, ephemeralKey, sessionId, kem, rest).Ok?
    ensures var s := DecodeTail(version, ephemeralKey, sessionId, kem, rest).value;
            && s.header.version == version && s.header.ephemeralKey == ephemeralKey && s.header.sessionId == sessionId
            && s.kemCiphertexts == kem && |s.header.routingInfo| == ROUTING_INFO_SIZE && 1 <= |s.bodyKeys| <= MAX_HOPS
            && s.header.routingInfo + (s.header.mac + EncodeKeys(s)) <= rest
  {
    var s := DecodeTail(version, ephemeralKey, sessionId, kem, rest).value;
    var after := rest[ROUTING_INFO_SIZE..][16..];
    KeysAreRead(s, after);
    Cut(rest, ROUTING_INFO_SIZE);
    Cut(rest[ROUTING_INFO_SIZE..], 16);
    Under(s.header.mac, EncodeKeys(s), after);
    Under(s.header.routingInfo, s.header.mac + EncodeKeys(s), rest[ROUTING_INFO_SIZE..]);
  }

  lemma SurbFront(data: seq<byte>, kemLen: nat, tail: seq<byte>)
    requires |data| >= SPHINX_PREFIX + kemLen && tail <= data[1..][32..][32..][4..][kemLen..]
    ensures var rest := data[1..][32..][32..];
            [data[0]] + (data[1..][..32] + (data[1..][32..][..32] + (rest[..4] + (rest[4..][..kemLen] + tail)))) <= data
  {
    var rest := data[1..][32..][32..];
    var kem := rest[4..][..kemLen];
    Cut(data, 1);
    Cut(data[1..], 32);
    Cut(data[1..][32..], 32);
    Cut(rest, 4);
    Cut(rest[4..], kemLen);
    Under(kem, tail, rest[4..][kemLen..]);
    Under(rest[..4], kem + tail, rest[4..]);
    Under(data[1..][32..][..32], rest[..4] + (kem + tail), rest);
    Under(data[1..][..32], data[1..][32..][..32] + (rest[..4] + (kem + tail)), data[1..][32..]);
    Under([data[0]], data[1..][..32] + (data[1..][32..][..32] + (rest[..4] + (kem + tail))), data[1..]);
  }

  /** A reply block is read from exactly the bytes that begin with a well-formed one. */
  lemma SurbAccepted(data: seq<byte>, s: Surb)
    ensures DecodeSurb(data) == Ok(s) <==> GoodSurb(s) && EncodeSurb(s) <= data
  {
    if GoodSurb(s) && EncodeSurb(s) <= data {
      GoodRoundTrip(s, data[|EncodeSurb(s)|..]);
      assert data == EncodeSurb(s) + data[|EncodeSurb(s)|..];
    }
    if DecodeSurb(data) == Ok(s) {
      SurbRead(data);
    }
  }

  lemma SurbRead(data: seq<byte>)
    requires DecodeSurb(data).Ok?
    ensures GoodSurb(DecodeSurb(data).value) && EncodeSurb(DecodeSurb(data).value) <= data
  {
    var s := DecodeSurb(data).value;
    var field, rest := data[1..][32..][32..][..4], data[1..][32..][32..][4..];
    var kemLen := FromU32(field);
    FromBigEndianRoundTrip(field);
    TailRead(data[0], data[1..][..32], data[1..][32..][..32], rest[..kemLen], rest[kemLen..]);
    SurbFront(data, kemLen, s.header.routingInfo + (s.header.mac + EncodeKeys(s)));
  }
}
