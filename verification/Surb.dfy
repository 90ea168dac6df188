/** Single-use reply blocks: how a requester builds one and a responder uses it. */
module Surb {
  import opened Bytes
  import opened Sizes
  import opened SphinxCrypto
  import opened WireCodec
  import opened SphinxNode

  datatype Hop = Hop(nodeId: NodeId, publicKey: Key, kemPublicKey: seq<byte>)

  /** The way back to the requester. */
  datatype Route = Route(mode: Mode, hops: seq<Hop>, destination: NodeId) {
    /** The route behind its first hop. */
    function Rest(): Route
      requires hops != []
    {
      this.(hops := hops[1..])
    }

    /** Where the first hop sends what it gets. */
    function Next(): NodeId {
      if |hops| <= 1 then destination else hops[1].nodeId
    }
  }

  datatype Surb = Surb(
    header: SphinxHeader, kemCiphertexts: seq<byte>, bodyKeys: seq<Key>, bodyAeadKey: Key,
    aadDestination: NodeId, firstHop: NodeId)

  /** Everything random about one reply block. Hop coins are indexed by the hops that remain. */
  datatype Draws = Draws(sessionId: Bytes32, scalar: Scalar, coins: nat -> nat, noises: Noises)

  // ---------------------------------------------------------------- running secrets

  /** What the creator works out for one hop. */
  datatype Leg = Leg(alpha: Key, shared: Key, ciphertext: seq<byte>)

  function Share(c: Crypto, mode: Mode, hop: Hop, scalar: Scalar, coin: nat): Option<(Key, seq<byte>)> {
    var classical := c.mul(hop.publicKey, scalar);
    if mode.Classical? then Some((classical, []))
    else
      match c.encapsulate(hop.kemPublicKey, coin)
      case None => None
      case Some((k, ciphertext)) => Some((c.combine(classical, k), ciphertext))
  }

  /** Scalar and point are blinded together from hop to hop. */
  function Legs(c: Crypto, mode: Mode, hops: seq<Hop>, scalar: Scalar, alpha: Key, coins: nat -> nat)
    : (legs: Option<seq<Leg>>)
    ensures legs.Some? ==> |legs.value| == |hops|
    decreases |hops|
  {
    if hops == [] then Some([])
    else
      match Share(c, mode, hops[0], scalar, coins(|hops|))
      case None => None
      case Some((shared, ciphertext)) =>
        var b := c.blind(shared);
        match Legs(c, mode, hops[1..], c.times(scalar, b), c.mul(alpha, b), coins)
        case None => None
        case Some(rest) => Some([Leg(alpha, shared, ciphertext)] + rest)
  }

  // ---------------------------------------------------------------- nested slots

  datatype Sealed = Sealed(slot: seq<byte>, mac: Mac)

  function Block(next: NodeId, flag: byte, mac: Mac): (block: seq<byte>)
    ensures |block| == SLOT_SIZE
  {
    next + [flag] + mac
  }

  function SealHop(c: Crypto, version: byte, sessionId: Bytes32, leg: Leg, block: seq<byte>): (s: Sealed)
    ensures |s.slot| == |block|
  {
    var slot := XorStream(block, c.slotStream(c.streamKey(leg.shared)));
    Sealed(slot, HopMac(c, leg.shared, version, leg.alpha, sessionId, slot, Zeros(WIRE_BODY_SIZE)))
  }

  /** Each slot names the next hop and carries its tag; the last names the destination. */
  function SealAll(c: Crypto, route: Route, sessionId: Bytes32, legs: seq<Leg>): (sealed: seq<Sealed>)
    requires |legs| == |route.hops|
    ensures |sealed| == |legs|
    ensures forall i :: 0 <= i < |sealed| ==> |sealed[i].slot| == SLOT_SIZE
    decreases |legs|
  {
    if legs == [] then []
    else
      var rest := SealAll(c, route.Rest(), sessionId, legs[1..]);
      var block := if |legs| == 1 then Block(route.destination, DESTINATION, Zeros(MAC_SIZE))
                   else Block(route.Next(), FORWARD, rest[0].mac);
      [SealHop(c, Version(route.mode), sessionId, legs[0], block)] + rest
  }

  function Slots(sealed: seq<Sealed>): (s: seq<byte>)
    ensures (forall i :: 0 <= i < |sealed| ==> |sealed[i].slot| == SLOT_SIZE) ==> |s| == Offset(SLOT_SIZE, |sealed|)
    decreases |sealed|
  {
    if sealed == [] then [] else sealed[0].slot + Slots(sealed[1..])
  }

  function Ciphertexts(legs: seq<Leg>): seq<byte> {
    if legs == [] then [] else legs[0].ciphertext + Ciphertexts(legs[1..])
  }

  function BodyKeys(c: Crypto, legs: seq<Leg>): (keys: seq<Key>)
    ensures |keys| == |legs|
  {
    if legs == [] then [] else [c.bodyKey(legs[0].shared)] + BodyKeys(c, legs[1..])
  }

  /** Data followed by noise up to a fixed size. */
  function FillUp(data: seq<byte>, size: nat, noise: nat -> byte): seq<byte> {
    data + Noise(if |data| < size then size - |data| else 0, noise)
  }

  // ---------------------------------------------------------------- creating

  /** What the creator works out for a route. */
  function RouteLegs(c: Crypto, route: Route, draws: Draws): (legs: Option<seq<Leg>>)
    ensures legs.Some? ==> |legs.value| == |route.hops|
  {
    Legs(c, route.mode, route.hops, draws.scalar, c.mul(c.base, draws.scalar), draws.coins)
  }

  function Assemble(c: Crypto, route: Route, draws: Draws, legs: seq<Leg>): Surb
    requires 0 < |route.hops| == |legs|
  {
    var sealed := SealAll(c, route, draws.sessionId, legs);
    Surb(
      SphinxHeader(Version(route.mode), legs[0].alpha, draws.sessionId,
                   FillUp(Slots(sealed), ROUTING_INFO_SIZE, draws.noises.slots), sealed[0].mac),
      if route.mode.Classical? then [] else FillUp(Ciphertexts(legs), KEM_BLOCK_SIZE, draws.noises.kem),
      BodyKeys(c, legs), c.aeadKey(legs[|legs| - 1].shared), route.destination, route.hops[0].nodeId)
  }

  predicate KemKeysSized(hops: seq<Hop>) {
    forall i :: 0 <= i < |hops| ==> |hops[i].kemPublicKey| == KEM_PUBLIC_KEY_SIZE
  }

  function Create(c: Crypto, route: Route, draws: Draws): Result<Surb, SphinxError> {
    if |route.hops| == 0 || |route.hops| > MAX_HOPS then Err(RouteTooLong)
    else if route.mode.Hybrid? && !KemKeysSized(route.hops) then Err(InvalidKemPublicKey)
    else
      match RouteLegs(c, route, draws)
      case None => Err(InvalidKemPublicKey)
      case Some(legs) => Ok(Assemble(c, route, draws, legs))
  }

  // ---------------------------------------------------------------- the creator's loops

  function Append(done: seq<Leg>, rest: Option<seq<Leg>>): Option<seq<Leg>> {
    match rest
    case None => None
    case Some(legs) => Some(done + legs)
  }

  /** One turn of the creator's first loop. */
  lemma LegsMore(
      c: Crypto, mode: Mode, hops: seq<Hop>, i: nat, scalar: Scalar, alpha: Key, coins: nat -> nat, done: seq<Leg>)
    requires i < |hops|
    ensures var share := Share(c, mode, hops[i], scalar, coins(|hops| - i));
            var all := Append(done, Legs(c, mode, hops[i..], scalar, alpha, coins));
            if share.None? then all == None
            else
              var leg := Leg(alpha, share.value.0, share.value.1);
              var b := c.blind(leg.shared);
              && all == Append(done + [leg], Legs(c, mode, hops[i + 1..], c.times(scalar, b), c.mul(alpha, b), coins))
              && (i == |hops| - 1 ==> all == Some(done + [leg]))
  {
    assert hops[i..][1..] == hops[i + 1..];
    var share := Share(c, mode, hops[i], scalar, coins(|hops| - i));
    if share.Some? {
      var leg := Leg(alpha, share.value.0, share.value.1);
      var b := c.blind(leg.shared);
      var rest := Legs(c, mode, hops[i + 1..], c.times(scalar, b), c.mul(alpha, b), coins);
      if rest.Some? {
        assert done + ([leg] + rest.value) == (done + [leg]) + rest.value;
      }
      if i == |hops| - 1 {
        assert hops[i + 1..] == [];
        assert (done + [leg]) + [] == done + [leg];
      }
    }
  }

  /** Running scalar and point, hop by hop. */
  method ShareAll(c: Crypto, mode: Mode, hops: seq<Hop>, scalar: Scalar, alpha: Key, coins: nat -> nat)
    returns (legs: Option<seq<Leg>>)
    ensures legs == Legs(c, mode, hops, scalar, alpha, coins)
  {
    var done: seq<Leg> := [];
    var currentScalar, currentAlpha := scalar, alpha;
    var i := 0;
    assert hops[0..] == hops;
    ghost var all := Legs(c, mode, hops, scalar, alpha, coins);
    assert all.Some? ==> [] + all.value == all.value;
    while i < |hops|
      invariant 0 <= i <= |hops|
      invariant i < |hops| || all == Some(done)
      invariant i < |hops| ==> all == Append(done, Legs(c, mode, hops[i..], currentScalar, currentAlpha, coins))
    {
      var shared := Share(c, mode, hops[i], currentScalar, coins(|hops| - i));
      LegsMore(c, mode, hops, i, currentScalar, currentAlpha, coins, done);
      if shared.None? {
        return None;
      }
      var leg := Leg(currentAlpha, shared.value.0, shared.value.1);
      done := done + [leg];
      if i < |hops| - 1 {
        var blind := c.blind(leg.shared);
        currentScalar := c.times(currentScalar, blind);
        currentAlpha := c.mul(currentAlpha, blind);
      }
      i := i + 1;
    }
    legs := Some(done);
  }

  function RouteFrom(route: Route, i: nat): Route
    requires i <= |route.hops|
  {
    route.(hops := route.hops[i..])
  }

  lemma {:induction false} SealFrom(c: Crypto, route: Route, sessionId: Bytes32, legs: seq<Leg>, i: nat)
    requires |legs| == |route.hops| && i <= |legs|
    ensures SealAll(c, route, sessionId, legs)[i..] == SealAll(c, RouteFrom(route, i), sessionId, legs[i..])
    decreases |legs|
  {
    if i == 0 {
      assert route.hops[0..] == route.hops && legs[0..] == legs;
    } else {
      SealFrom(c, route.Rest(), sessionId, legs[1..], i - 1);
      assert RouteFrom(route.Rest(), i - 1) == RouteFrom(route, i) && legs[1..][i - 1..] == legs[i..];
    }
  }

  /** What slot `i` says before it is sealed. */
  function SlotBlock(route: Route, i: nat, next: Mac): seq<byte>
    requires i < |route.hops|
  {
    if i == |route.hops| - 1 then Block(route.destination, DESTINATION, next)
    else Block(route.hops[i + 1].nodeId, FORWARD, next)
  }

  /** Slots are filled in from the last hop to the first, because each carries the next one's tag. */
  method SealSlots(c: Crypto, route: Route, sessionId: Bytes32, legs: seq<Leg>) returns (sealed: array<Sealed>)
    requires |legs| == |route.hops|
    ensures fresh(sealed) && sealed[..] == SealAll(c, route, sessionId, legs)
  {
    var n := |legs|;
    sealed := new Sealed[n](i => Sealed([], Zeros(MAC_SIZE)));
    ghost var target := SealAll(c, route, sessionId, legs);
    var i := n;
    while i > 0
      invariant 0 <= i <= n
      invariant forall k :: i <= k < n ==> sealed[k] == target[k]
    {
      i := i - 1;
      SealStep(c, route, sessionId, legs, i);
      var next := if i == n - 1 then Zeros(MAC_SIZE) else sealed[i + 1].mac;
      var slot := SealHop(c, Version(route.mode), sessionId, legs[i], SlotBlock(route, i, next));
      assert slot == target[i];
      sealed[i] := slot;
    }
  }

  /** What slot `i` of the finished row is, in terms of the row behind it. */
  lemma SealStep(c: Crypto, route: Route, sessionId: Bytes32, legs: seq<Leg>, i: nat)
    requires |legs| == |route.hops| && i < |legs|
    ensures var target := SealAll(c, route, sessionId, legs);
            var next := if i == |legs| - 1 then Zeros(MAC_SIZE) else target[i + 1].mac;
            target[i] == SealHop(c, Version(route.mode), sessionId, legs[i], SlotBlock(route, i, next))
  {
    var target, from := SealAll(c, route, sessionId, legs), RouteFrom(route, i);
    SealFrom(c, route, sessionId, legs, i);
    SealFrom(c, route, sessionId, legs, i + 1);
    assert from.Rest() == RouteFrom(route, i + 1) && legs[i..][1..] == legs[i + 1..];
    assert target[i] == target[i..][0];
    if i < |legs| - 1 {
      assert target[i + 1] == target[i + 1..][0];
    }
  }

  method JoinSlots(sealed: array<Sealed>) returns (joined: seq<byte>)
    ensures joined == Slots(sealed[..])
  {
    joined := [];
    var i := sealed.Length;
    while i > 0
      invariant 0 <= i <= sealed.Length
      invariant joined == Slots(sealed[i..])
    {
      i := i - 1;
      assert sealed[i..][1..] == sealed[i + 1..];
      joined := sealed[i].slot + joined;
    }
    assert sealed[0..] == sealed[..];
  }

  method JoinCiphertexts(legs: seq<Leg>) returns (joined: seq<byte>)
    ensures joined == Ciphertexts(legs)
  {
    joined := [];
    for i := |legs| downto 0
      invariant joined == Ciphertexts(legs[i..])
    {
      assert legs[i..][1..] == legs[i + 1..];
      joined := legs[i].ciphertext + joined;
    }
    assert legs[0..] == legs;
  }

  method CheckKemKeys(hops: seq<Hop>) returns (ok: bool)
    ensures ok == KemKeysSized(hops)
  {
    for i := 0 to |hops|
      invariant KemKeysSized(hops[..i])
    {
      if |hops[i].kemPublicKey| != KEM_PUBLIC_KEY_SIZE {
        return false;
      }
    }
    assert hops[..|hops|] == hops;
    ok := true;
  }

  method CreateSurb(c: Crypto, route: Route, draws: Draws) returns (result: Result<Surb, SphinxError>)
    ensures result == Create(c, route, draws)
  {
    if |route.hops| == 0 || |route.hops| > MAX_HOPS {
      return Err(RouteTooLong);
    }
    if route.mode.Hybrid? {
      var ok := CheckKemKeys(route.hops);
      if !ok {
        return Err(InvalidKemPublicKey);
      }
    }
    var shared := ShareAll(c, route.mode, route.hops, draws.scalar, c.mul(c.base, draws.scalar), draws.coins);
    if shared.None? {
      return Err(InvalidKemPublicKey);
    }
    var legs := shared.value;
    var kemBlock := [];
    if route.mode.Hybrid? {
      var ciphertexts := JoinCiphertexts(legs);
      kemBlock := FillUp(ciphertexts, KEM_BLOCK_SIZE, draws.noises.kem);
    }
    var sealed := SealSlots(c, route, draws.sessionId, legs);
    var slots := JoinSlots(sealed);
    var header := SphinxHeader(Version(route.mode), legs[0].alpha, draws.sessionId,
                               FillUp(slots, ROUTING_INFO_SIZE, draws.noises.slots), sealed[0].mac);
    result := Ok(Surb(header, kemBlock, BodyKeys(c, legs), c.aeadKey(legs[|legs| - 1].shared),
                      route.destination, route.hops[0].nodeId));
  }

  // ---------------------------------------------------------------- using

  function ZeroPadded(payload: seq<byte>): (s: seq<byte>)
    requires |payload| <= BODY_SIZE
    ensures |s| == BODY_SIZE
  {
    payload + Zeros(BODY_SIZE - |payload|)
  }

  /** The end-to-end ciphertext of a payload under the block's own key and nonce. */
  function Innermost(c: Crypto, surb: Surb, payload: seq<byte>): seq<byte>
    requires |payload| <= BODY_SIZE
  {
    c.seal(surb.bodyAeadKey, c.aeadNonce(surb.bodyAeadKey), ZeroPadded(payload), surb.aadDestination)
  }

  /** The hybrid form refuses a classical block; both refuse an oversized payload. */
  function Wrap(c: Crypto, mode: Mode, surb: Surb, payload: seq<byte>): Result<SphinxPacket, SphinxError> {
    if mode.Hybrid? && surb.header.version != SPHINX_VERSION_HYBRID then Err(UnsupportedVersion(surb.header.version))
    else if |payload| > BODY_SIZE then Err(BodyTooLarge)
    else Ok(SphinxPacket(surb.header, surb.kemCiphertexts, Onion(c, surb.bodyKeys, Innermost(c, surb, payload))))
  }

  /** Layers go on from the last hop to the first, in place. */
  method LayerAll(c: Crypto, keys: seq<Key>, body: array<byte>)
    modifies body
    ensures body[..] == Onion(c, keys, old(body[..]))
  {
    var i := |keys|;
    while i > 0
      invariant 0 <= i <= |keys|
      invariant body[..] == Onion(c, keys[i..], old(body[..]))
    {
      i := i - 1;
      assert keys[i..][1..] == keys[i + 1..];
      XorInPlace(c.bodyStream(keys[i]), body);
    }
    assert keys[0..] == keys;
  }

  method WrapWithSurb(c: Crypto, mode: Mode, surb: Surb, payload: seq<byte>)
    returns (result: Result<SphinxPacket, SphinxError>)
    ensures result == Wrap(c, mode, surb, payload)
  {
    if mode.Hybrid? && surb.header.version != SPHINX_VERSION_HYBRID {
      return Err(UnsupportedVersion(surb.header.version));
    }
    if |payload| > BODY_SIZE {
      return Err(BodyTooLarge);
    }
    var inner := Innermost(c, surb, payload);
    var body := new byte[|inner|](i requires 0 <= i < |inner| => inner[i]);
    assert body[..] == inner;
    LayerAll(c, surb.bodyKeys, body);
    result := Ok(SphinxPacket(surb.header, surb.kemCiphertexts, body[..]));
  }

  /** A payload is wrapped if and only if it fits a body and the block suits the mode; the packet is the block's
      header and ciphertexts with a body of wire size. */
  lemma WrapsIff(c: Crypto, mode: Mode, surb: Surb, payload: seq<byte>)
    requires Lawful(c)
    ensures var result := Wrap(c, mode, surb, payload);
            && (result.Ok? <==> |payload| <= BODY_SIZE && (mode.Classical? || surb.header.version == 1))
            && (result.Ok? ==> && result.value.header == surb.header
                               && result.value.kemCiphertexts == surb.kemCiphertexts
                               && |result.value.body| == WIRE_BODY_SIZE)
  {
  }
}
