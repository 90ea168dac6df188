/** One hop of a reply block's packet: what the node works out, remembers and hands on. */
module SurbRoute {
  import opened Bytes
  import opened Sizes
  import opened FifoTable
  import opened SphinxCrypto
  import opened WireCodec
  import opened SphinxNode
  import opened Surb

  /** What a reply block has before it: the hops that remain and what its creator knows of them. */
  datatype Journey = Journey(c: Crypto, route: Route, sessionId: Bytes32, legs: seq<Leg>) {
    predicate Shaped() {
      0 < |route.hops| == |legs|
    }

    /** The journey behind the next hop. */
    function Rest(): Journey
      requires Shaped()
    {
      this.(route := route.Rest(), legs := legs[1..])
    }

    function Seals(): seq<Sealed>
      requires |route.hops| == |legs|
    {
      SealAll(c, route, sessionId, legs)
    }
  }

  /** Noise that earlier hops left at the end of the two blocks. */
  datatype Junk = Junk(slots: seq<byte>, kem: seq<byte>)

  function MoreJunk(junk: Junk, noises: Noises): Junk {
    Junk(junk.slots + Noise(SLOT_SIZE, noises.slots), junk.kem + Noise(KEM_CIPHERTEXT_SIZE, noises.kem))
  }

  /** The packet as the next hop receives it, with `inner` under the layers that remain. */
  function PacketAt(j: Journey, inner: seq<byte>, junk: Junk): SphinxPacket
    requires j.Shaped()
  {
    SphinxPacket(
      SphinxHeader(Version(j.route.mode), j.legs[0].alpha, j.sessionId, Slots(j.Seals()) + junk.slots,
          j.Seals()[0].mac),
      if j.route.mode.Classical? then [] else Ciphertexts(j.legs) + junk.kem,
      Onion(j.c, BodyKeys(j.c, j.legs), inner))
  }

  /** Every section of that packet has its fixed size. */
  predicate Sized(j: Journey, inner: seq<byte>, junk: Junk) {
    && j.Shaped()
    && Offset(SLOT_SIZE, |j.legs|) + |junk.slots| == ROUTING_INFO_SIZE
    && (j.route.mode.Hybrid? ==>
          && |j.legs[0].ciphertext| == KEM_CIPHERTEXT_SIZE
          && |Ciphertexts(j.legs)| + |junk.kem| == KEM_BLOCK_SIZE)
    && |inner| == WIRE_BODY_SIZE
  }

  // ---------------------------------------------------------------- keys agree

  /** The node holds the secrets of the hop's public keys. */
  predicate Owns(c: Crypto, node: MixNode, hop: Hop) {
    hop.publicKey == c.mul(c.base, node.privateKey) && hop.kemPublicKey == c.kemPublic(node.kemSecret)
  }

  /** What a node derives from a point and a ciphertext. */
  function NodeSecret(c: Crypto, mode: Mode, node: MixNode, alpha: Key, ciphertext: seq<byte>): Option<Key> {
    var classical := c.mul(alpha, node.privateKey);
    if mode.Classical? then Some(classical)
    else
      match c.decapsulate(node.kemSecret, ciphertext)
      case None => None
      case Some(k) => Some(c.combine(classical, k))
  }

  /** A hop's secret applied to the blinded point gives the creator's secret. */
  lemma SecretsAgree(c: Crypto, mode: Mode, node: MixNode, hop: Hop, scalar: Scalar, coin: nat)
    requires Lawful(c) && Owns(c, node, hop)
    ensures var share := Share(c, mode, hop, scalar, coin);
            && share.Some?
            && NodeSecret(c, mode, node, c.mul(c.base, scalar), share.value.1) == Some(share.value.0)
            && (mode.Hybrid? ==> |share.value.1| == KEM_CIPHERTEXT_SIZE)
  {
    assert c.mul(c.mul(c.base, scalar), node.privateKey) == c.mul(c.mul(c.base, node.privateKey), scalar);
    assert c.encapsulate(c.kemPublic(node.kemSecret), coin).Some?;
  }

  /** Blinding the point follows blinding the scalar. */
  lemma BlindingAgrees(c: Crypto, scalar: Scalar, b: Scalar)
    requires Lawful(c)
    ensures c.mul(c.mul(c.base, scalar), b) == c.mul(c.base, c.times(scalar, b))
  {
  }

  predicate RouteOwned(c: Crypto, nodes: seq<MixNode>, hops: seq<Hop>) {
    |nodes| == |hops| && forall i :: 0 <= i < |hops| ==> Owns(c, nodes[i], hops[i])
  }

  /** With owned keys the creator's loop never fails; ciphertexts fill their part of the block. */
  lemma {:induction false} LegsExist(
      c: Crypto, mode: Mode, nodes: seq<MixNode>, hops: seq<Hop>, scalar: Scalar, coins: nat -> nat)
    requires Lawful(c) && RouteOwned(c, nodes, hops)
    ensures var legs := Legs(c, mode, hops, scalar, c.mul(c.base, scalar), coins);
            legs.Some? && (mode.Hybrid? ==> |Ciphertexts(legs.value)| == Offset(KEM_CIPHERTEXT_SIZE, |hops|))
    decreases |hops|
  {
    if hops != [] {
      var alpha := c.mul(c.base, scalar);
      SecretsAgree(c, mode, nodes[0], hops[0], scalar, coins(|hops|));
      var (shared, ciphertext) := Share(c, mode, hops[0], scalar, coins(|hops|)).value;
      var b := c.blind(shared);
      BlindingAgrees(c, scalar, b);
      LegsExist(c, mode, nodes[1..], hops[1..], c.times(scalar, b), coins);
      var rest := Legs(c, mode, hops[1..], c.times(scalar, b), c.mul(alpha, b), coins).value;
      assert ([Leg(alpha, shared, ciphertext)] + rest)[1..] == rest;
    }
  }

  lemma RouteFits(n: nat)
    requires n <= MAX_HOPS
    ensures Offset(SLOT_SIZE, n) <= ROUTING_INFO_SIZE && Offset(KEM_CIPHERTEXT_SIZE, n) <= KEM_BLOCK_SIZE
  {
    OffsetIsProduct(SLOT_SIZE, n);
    OffsetIsProduct(KEM_CIPHERTEXT_SIZE, n);
  }

  // ---------------------------------------------------------------- one hop

  /** The hop recovers the creator's secret from what it sees. */
  lemma UnlockAt(j: Journey, inner: seq<byte>, junk: Junk, node: MixNode)
    requires Sized(j, inner, junk)
    requires NodeSecret(j.c, j.route.mode, node, j.legs[0].alpha, j.legs[0].ciphertext) == Some(j.legs[0].shared)
    ensures Unlock(j.c, j.route.mode, node, PacketAt(j, inner, junk)) == Ok(j.legs[0].shared)
  {
    if j.route.mode.Hybrid? {
      var rest := Ciphertexts(j.legs[1..]) + junk.kem;
      assert Ciphertexts(j.legs) + junk.kem == j.legs[0].ciphertext + rest;
      Halves(j.legs[0].ciphertext, rest);
    }
  }

  /** The routing block meant for the next hop. */
  function BlockFor(j: Journey): seq<byte>
    requires j.Shaped()
  {
    if |j.legs| == 1 then Block(j.route.destination, DESTINATION, Zeros(MAC_SIZE))
    else Block(j.route.Next(), FORWARD, j.Rest().Seals()[0].mac)
  }

  lemma SealsSplit(j: Journey)
    requires j.Shaped()
    ensures j.Seals()[0] == SealHop(j.c, Version(j.route.mode), j.sessionId, j.legs[0], BlockFor(j))
    ensures j.Seals()[1..] == j.Rest().Seals()
  {
  }

  /** Its slot decrypts to the next hop and the next tag, or to the destination; the placeholder tag
      verifies; and what follows are the slots of the hops behind. */
  lemma BlockAt(j: Journey, inner: seq<byte>, junk: Junk)
    requires Sized(j, inner, junk)
    ensures var p := PacketAt(j, inner, junk);
            && p.header.routingInfo[..SLOT_SIZE] == j.Seals()[0].slot
            && p.header.routingInfo[SLOT_SIZE..] == Slots(j.Rest().Seals()) + junk.slots
            && RoutingBlock(j.c, j.legs[0].shared, p) == BlockFor(j)
            && p.header.mac == MacFor(j.c, j.legs[0].shared, p, Zeros(WIRE_BODY_SIZE))
  {
    SealsSplit(j);
    var own, rest := j.Seals()[0].slot, Slots(j.Rest().Seals()) + junk.slots;
    assert Slots(j.Seals()) + junk.slots == own + rest;
    Halves(own, rest);
    XorStreamCancels(BlockFor(j), j.c.slotStream(j.c.streamKey(j.legs[0].shared)));
  }

  lemma BlockParts(next: NodeId, flag: byte, mac: Mac)
    ensures var block := Block(next, flag, mac); block[..16] == next && block[16] == flag && block[17..] == mac
  {
  }

  /** Taking off the hop's own layer leaves the layers of the hops behind it. */
  lemma LayerAt(c: Crypto, legs: seq<Leg>, inner: seq<byte>)
    requires legs != []
    ensures XorStream(Onion(c, BodyKeys(c, legs), inner), c.bodyStream(c.bodyKey(legs[0].shared)))
         == Onion(c, BodyKeys(c, legs[1..]), inner)
  {
    assert BodyKeys(c, legs)[1..] == BodyKeys(c, legs[1..]);
    XorStreamCancels(Onion(c, BodyKeys(c, legs[1..]), inner), c.bodyStream(c.bodyKey(legs[0].shared)));
  }

  /** The points of the journey are blinded from hop to hop. */
  predicate Blinded(j: Journey)
    requires j.Shaped()
  {
    |j.legs| > 1 ==> j.legs[1].alpha == j.c.mul(j.legs[0].alpha, j.c.blind(j.legs[0].shared))
  }

  lemma ShiftedAt(j: Journey, inner: seq<byte>, junk: Junk, noises: Noises)
    requires Sized(j, inner, junk) && |j.legs| > 1 && Blinded(j)
    ensures Shifted(j.c, j.route.mode, j.legs[0].shared, PacketAt(j, inner, junk), j.Rest().Seals()[0].mac, noises)
         == PacketAt(j.Rest(), inner, MoreJunk(junk, noises))
  {
    LayerAt(j.c, j.legs, inner);
    SlotsShift(j, inner, junk, Noise(SLOT_SIZE, noises.slots));
    if j.route.mode.Hybrid? {
      CiphertextsShift(j.legs, junk.kem, Noise(KEM_CIPHERTEXT_SIZE, noises.kem));
    }
  }

  lemma SlotsShift(j: Journey, inner: seq<byte>, junk: Junk, noise: seq<byte>)
    requires Sized(j, inner, junk)
    ensures PacketAt(j, inner, junk).header.routingInfo[SLOT_SIZE..] + noise
         == Slots(j.Rest().Seals()) + (junk.slots + noise)
  {
    BlockAt(j, inner, junk);
    var rest := Slots(j.Rest().Seals());
    assert (rest + junk.slots) + noise == rest + (junk.slots + noise);
  }

  lemma CiphertextsShift(legs: seq<Leg>, junk: seq<byte>, noise: seq<byte>)
    requires legs != [] && |legs[0].ciphertext| == KEM_CIPHERTEXT_SIZE
    ensures (Ciphertexts(legs) + junk)[KEM_CIPHERTEXT_SIZE..] + noise == Ciphertexts(legs[1..]) + (junk + noise)
  {
    var rest := Ciphertexts(legs[1..]);
    assert Ciphertexts(legs) + junk == legs[0].ciphertext + (rest + junk);
    Halves(legs[0].ciphertext, rest + junk);
    assert (rest + junk) + noise == rest + (junk + noise);
  }

  /** The session a hop remembers for later replies. */
  function SessionAt(j: Journey, now: nat): CachedSession
    requires j.Shaped()
  {
    CachedSession(j.route.Next(), j.c.bodyKey(j.legs[0].shared), |j.legs| == 1, Table(map[], []), now)
  }

  /** The hop can tell the packet from an ordinary one: its tag does not happen to fit the body. */
  predicate LooksLikeSurb(j: Journey, inner: seq<byte>)
    requires j.Shaped()
  {
    var own, body := j.Seals()[0], Onion(j.c, BodyKeys(j.c, j.legs), inner);
    own.mac != HopMac(j.c, j.legs[0].shared, Version(j.route.mode), j.legs[0].alpha, j.sessionId, own.slot, body)
  }

  /** The node after accepting the packet. */
  function NodeAfter(j: Journey, node: MixNode, now: nat, isSurb: bool): MixNode
    requires j.Shaped()
  {
    var tagged := node.(seen := Remember(node.seen, MAX_SEEN_TAGS, j.c.tag(j.legs[0].shared)));
    if isSurb then tagged.(sessions := InsertSession(tagged.sessions, j.sessionId, SessionAt(j, now))) else tagged
  }

  /** What a hop does with the packet. */
  function Handed(j: Journey, inner: seq<byte>, junk: Junk, noises: Noises): Result<Processed, SphinxError>
    requires j.Shaped()
  {
    if |j.legs| > 1 then Ok(Forward(j.route.Next(), PacketAt(j.Rest(), inner, MoreJunk(junk, noises))))
    else
      var key := j.c.aeadKey(j.legs[0].shared);
      match j.c.unseal(key, j.c.aeadNonce(key), inner, j.route.destination)
      case None => Err(BodyAuthFailed)
      case Some(text) => Ok(Deliver(j.route.destination, text))
  }

  lemma AdmitAt(j: Journey, inner: seq<byte>, junk: Junk, node: MixNode, isSurb: bool, now: nat, noises: Noises)
    requires Sized(j, inner, junk) && Blinded(j)
    ensures Admit(j.c, j.route.mode, node, PacketAt(j, inner, junk), j.legs[0].shared, isSurb, now, noises)
         == (NodeAfter(j, node, now, isSurb), Handed(j, inner, junk, noises))
  {
    BlockAt(j, inner, junk);
    if |j.legs| == 1 {
      BlockParts(j.route.destination, DESTINATION, Zeros(MAC_SIZE));
      LayerAt(j.c, j.legs, inner);
      assert j.legs[1..] == [];
    } else {
      BlockParts(j.route.Next(), FORWARD, j.Rest().Seals()[0].mac);
      ShiftedAt(j, inner, junk, noises);
    }
  }

  /** One whole hop: the tag is accepted, and the packet moves on or is opened. */
  lemma HopAt(j: Journey, inner: seq<byte>, junk: Junk, node: MixNode, now: nat, noises: Noises)
    requires Sized(j, inner, junk) && Blinded(j)
    requires NodeSecret(j.c, j.route.mode, node, j.legs[0].alpha, j.legs[0].ciphertext) == Some(j.legs[0].shared)
    requires j.c.tag(j.legs[0].shared) !in node.seen.entries
    ensures Process(j.c, j.route.mode, node, PacketAt(j, inner, junk), now, noises)
         == (NodeAfter(j, node, now, LooksLikeSurb(j, inner)), Handed(j, inner, junk, noises))
  {
    UnlockAt(j, inner, junk, node);
    BlockAt(j, inner, junk);
    AdmitAt(j, inner, junk, node, LooksLikeSurb(j, inner), now, noises);
  }
}
