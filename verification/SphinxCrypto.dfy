/** The cryptographic primitives of Sphinx as opaque functions with the laws routing relies on. */
module SphinxCrypto {
  import opened Bytes
  import opened Sizes

  type Key = Bytes32
  type Mac = Bytes16
  type NodeId = Bytes16
  type Scalar = nat

  /** Keystreams are unbounded; randomised operations take their coins as an argument. */
  datatype Crypto = Crypto(
    base: Key,
    mul: (Key, Scalar) -> Key,
    times: (Scalar, Scalar) -> Scalar,
    blind: Key -> Scalar,
    streamKey: Key -> Key,
    macKey: Key -> Key,
    bodyKey: Key -> Key,
    tag: Key -> Mac,
    mac: (Key, seq<byte>) -> Mac,
    slotStream: Key -> nat -> byte,
    bodyStream: Key -> nat -> byte,
    aeadKey: Key -> Key,
    aeadNonce: Key -> Bytes12,
    seal: (Key, Bytes12, seq<byte>, seq<byte>) -> seq<byte>,
    unseal: (Key, Bytes12, seq<byte>, seq<byte>) -> Option<seq<byte>>,
    combine: (Key, Key) -> Key,
    kemPublic: seq<byte> -> seq<byte>,
    encapsulate: (seq<byte>, nat) -> Option<(Key, seq<byte>)>,
    decapsulate: (seq<byte>, seq<byte>) -> Option<Key>)

  /** Scalars act on the multiples of the base point, and the order of two scalars does not matter. */
  ghost predicate ActionLaws(c: Crypto) {
    forall a: Scalar, b: Scalar {:trigger c.mul(c.mul(c.base, a), b)} ::
      c.mul(c.mul(c.base, a), b) == c.mul(c.mul(c.base, b), a) == c.mul(c.base, c.times(a, b))
  }

  /** Decryption undoes encryption; the tag adds a fixed length. */
  ghost predicate SealLaws(c: Crypto) {
    forall key: Key, nonce: Bytes12, text: seq<byte>, aad: seq<byte> {:trigger c.seal(key, nonce, text, aad)} ::
      && |c.seal(key, nonce, text, aad)| == |text| + BODY_TAG_SIZE
      && c.unseal(key, nonce, c.seal(key, nonce, text, aad), aad) == Some(text)
  }

  /** Decapsulation with a secret recovers what was encapsulated to its public key. */
  ghost predicate KemLaws(c: Crypto) {
    forall secret: seq<byte>, coin: nat {:trigger c.encapsulate(c.kemPublic(secret), coin)} ::
      && |c.kemPublic(secret)| == KEM_PUBLIC_KEY_SIZE
      && var made := c.encapsulate(c.kemPublic(secret), coin);
         made.Some? && |made.value.1| == KEM_CIPHERTEXT_SIZE
             && c.decapsulate(secret, made.value.1) == Some(made.value.0)
  }

  ghost predicate Lawful(c: Crypto) {
    ActionLaws(c) && SealLaws(c) && KemLaws(c)
  }

  /** Primitives that hide nothing: every secret and every tag is the same. */
  function Transparent(): Crypto {
    var key: Key := ZERO32;
    Crypto(
      key, (p, s) => p, (a, b) => a, k => 0, k => k, k => k, k => k, k => Zeros(16), (k, m) => Zeros(16),
      k => i => 0, k => i => 0, k => k, k => Zeros(12),
      (k, n, text, aad) => text + Zeros(BODY_TAG_SIZE),
      (k, n, sealed, aad) =>
        if |sealed| < BODY_TAG_SIZE then None else Some(sealed[..|sealed| - BODY_TAG_SIZE]),
      (a, b) => a, secret => Zeros(KEM_PUBLIC_KEY_SIZE),
      (pk, coin) => Some((key, Zeros(KEM_CIPHERTEXT_SIZE))), (secret, ct) => Some(key))
  }

  /** The laws do not contradict each other: even these primitives obey them. */
  lemma LawsAreConsistent()
    ensures Lawful(Transparent())
  {
    var c := Transparent();
    forall k: Key, n: Bytes12, text: seq<byte>, aad: seq<byte>
      ensures |c.seal(k, n, text, aad)| == |text| + BODY_TAG_SIZE
      ensures c.unseal(k, n, c.seal(k, n, text, aad), aad) == Some(text)
    {
      assert (text + Zeros(BODY_TAG_SIZE))[..|text|] == text;
    }
  }

  /** XOR with the beginning of a keystream. */
  function XorStream(text: seq<byte>, stream: nat -> byte): (out: seq<byte>)
    ensures |out| == |text|
  {
    seq<byte>(|text|, (i: int) requires 0 <= i < |text| => Xor(text[i], stream(i)))
  }

  lemma XorStreamCancels(text: seq<byte>, stream: nat -> byte)
    ensures XorStream(XorStream(text, stream), stream) == text
  {
    forall i | 0 <= i < |text| ensures XorStream(XorStream(text, stream), stream)[i] == text[i] {
      XorCancels(text[i], stream(i));
    }
  }

  /** The in-place form. */
  method XorInPlace(stream: nat -> byte, text: array<byte>)
    modifies text
    ensures text[..] == XorStream(old(text[..]), stream)
  {
    for i := 0 to text.Length
      invariant text[..i] == XorStream(old(text[..]), stream)[..i]
      invariant text[i..] == old(text[..])[i..]
    {
      assert text[i] == text[i..][0];
      text[i] := Xor(text[i], stream(i));
    }
    assert text[..text.Length] == text[..];
  }

  /** All layers, the first key outermost. */
  function Onion(c: Crypto, keys: seq<Key>, body: seq<byte>): (out: seq<byte>)
    ensures |out| == |body|
  {
    if keys == [] then body else XorStream(Onion(c, keys[1..], body), c.bodyStream(keys[0]))
  }

  /** Every hop in order takes off its own layer. */
  function Peel(c: Crypto, keys: seq<Key>, body: seq<byte>): seq<byte>
    decreases |keys|
  {
    if keys == [] then body else Peel(c, keys[1..], XorStream(body, c.bodyStream(keys[0])))
  }

  lemma {:induction false} PeelOnion(c: Crypto, keys: seq<Key>, body: seq<byte>)
    ensures Peel(c, keys, Onion(c, keys, body)) == body
    decreases |keys|
  {
    if keys != [] {
      XorStreamCancels(Onion(c, keys[1..], body), c.bodyStream(keys[0]));
      PeelOnion(c, keys[1..], body);
    }
  }

  function HopMacInput(version: byte, alpha: Key, sessionId: Bytes32, slot: seq<byte>, body: seq<byte>): seq<byte> {
    [version] + alpha + sessionId + slot + body
  }

  /** The tag a hop checks covers version, point, session, its own slot and the body. */
  function HopMac(c: Crypto, shared: Key, version: byte, alpha: Key, sessionId: Bytes32, slot: seq<byte>,
        body: seq<byte>): Mac {
    c.mac(c.macKey(shared), HopMacInput(version, alpha, sessionId, slot, body))
  }

  /** The parts of what is tagged, by place. */
  lemma HopMacParts(version: byte, alpha: Key, sessionId: Bytes32, slot: seq<byte>, body: seq<byte>)
    ensures var input := HopMacInput(version, alpha, sessionId, slot, body);
            && |input| == 65 + |slot| + |body| && input[0] == version && input[1..33] == alpha
            && input[33..65] == sessionId && input[65..65 + |slot|] == slot && input[65 + |slot|..] == body
  {
  }

  /** Two headers with slots of one size are tagged alike if and only if they agree in everything the tag covers. */
  lemma HopMacBinds(version: byte, alpha: Key, sessionId: Bytes32, slot: seq<byte>, body: seq<byte>,
                    version': byte, alpha': Key, sessionId': Bytes32, slot': seq<byte>, body': seq<byte>)
    requires |slot| == |slot'|
    ensures var mine := HopMacInput(version, alpha, sessionId, slot, body);
            mine == HopMacInput(version', alpha', sessionId', slot', body') <==>
            version == version' && alpha == alpha' && sessionId == sessionId' && slot == slot' && body == body'
  {
    HopMacParts(version, alpha, sessionId, slot, body);
    HopMacParts(version', alpha', sessionId', slot', body');
  }
}
