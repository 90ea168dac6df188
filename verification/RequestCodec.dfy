/** Chunk requests and responses as bytes. */
module RequestCodec {
  import opened Bytes
  import opened WireCodec

  const MSG_CHUNK_REQUEST: byte := 1
  const MSG_CHUNK_RESPONSE: byte := 2
  const MAX_RETRIEVAL_ROUTE_HOPS: nat := 32
  const MAX_SERIALIZED_SURB_SIZE: nat := 16 * 1024
  const HOP_SIZE: nat := 48

  datatype HopInfo = HopInfo(publicKey: Bytes32, nodeId: Bytes16)

  datatype ChunkRequest = ChunkRequest(
    chunkId: Bytes32, hops: seq<HopInfo>, destination: Bytes16, surb: Option<seq<byte>>)

  datatype ChunkResponse = ChunkResponse(chunkId: Bytes32, chunkData: seq<byte>, found: bool)

  datatype StorageError = InvalidChunkSize

  type Read<T> = Result<T, StorageError>

  // ---------------------------------------------------------------- requests

  function JoinHops(hops: seq<HopInfo>): (s: seq<byte>)
    ensures |s| == Offset(HOP_SIZE, |hops|)
  {
    if hops == [] then [] else hops[0].publicKey + (hops[0].nodeId + JoinHops(hops[1..]))
  }

  /** A reply block is announced by a marker and its length; without one the request just ends. */
  function EncodeSuffix(surb: Option<seq<byte>>): seq<byte> {
    match surb
    case None => []
    case Some(bytes) => [1] + (U32(|bytes|) + bytes)
  }

  function EncodeRequest(r: ChunkRequest): seq<byte> {
    [MSG_CHUNK_REQUEST] + (r.chunkId + (U32(|r.hops|) +
    (JoinHops(r.hops) + (r.destination + EncodeSuffix(r.surb)))))
  }

  /** The hop loop: the hops and what follows them. */
  function TakeHops(data: seq<byte>, n: nat): Read<(seq<HopInfo>, seq<byte>)>
    decreases n
  {
    if n == 0 then Ok(([], data))
    else if |data| < HOP_SIZE then Err(InvalidChunkSize)
    else
      match TakeHops(data[32..][16..], n - 1)
      case Err(e) => Err(e)
      case Ok((hops, rest)) => Ok(([HopInfo(data[..32], data[32..][..16])] + hops, rest))
  }

  predicate AllZero(s: seq<byte>) {
    forall i :: 0 <= i < |s| ==> s[i] == 0
  }

  /** A tail of zeros is the padding of a body; any other must be a reply block. */
  function DecodeSuffix(tail: seq<byte>): Read<Option<seq<byte>>> {
    if AllZero(tail) then Ok(None)
    else if |tail| < 5 || tail[0] != 1 then Err(InvalidChunkSize)
    else
      var len := FromU32(tail[1..][..4]);
      if len > MAX_SERIALIZED_SURB_SIZE || |tail| < 5 + len then Err(InvalidChunkSize)
      else Ok(Some(tail[1..][4..][..len]))
  }

  function DecodeAfterHops(chunkId: Bytes32, hops: seq<HopInfo>, rest: seq<byte>): Read<ChunkRequest> {
    if |rest| < 16 then Err(InvalidChunkSize)
    else
      match DecodeSuffix(rest[16..])
      case Err(e) => Err(e)
      case Ok(surb) => Ok(ChunkRequest(chunkId, hops, rest[..16], surb))
  }

  function DecodeRequest(data: seq<byte>): Read<ChunkRequest> {
    if |data| < 1 + 32 + 4 || data[0] != MSG_CHUNK_REQUEST then Err(InvalidChunkSize)
    else
      var count := FromU32(data[1..][32..][..4]);
      if count > MAX_RETRIEVAL_ROUTE_HOPS then Err(InvalidChunkSize)
      else
        match TakeHops(data[1..][32..][4..], count)
        case Err(e) => Err(e)
        case Ok((hops, rest)) => DecodeAfterHops(data[1..][..32], hops, rest)
  }

  method SerializeRequest(r: ChunkRequest) returns (buf: seq<byte>)
    ensures buf == EncodeRequest(r)
  {
    var hops := [];
    for i := |r.hops| downto 0
      invariant hops == JoinHops(r.hops[i..])
    {
      assert r.hops[i..][1..] == r.hops[i + 1..];
      hops := r.hops[i].publicKey + (r.hops[i].nodeId + hops);
    }
    assert r.hops[0..] == r.hops;
    var suffix := [];
    if r.surb.Some? {
      suffix := [1] + (U32(|r.surb.value|) + r.surb.value);
    }
    buf := [MSG_CHUNK_REQUEST] + (r.chunkId + (U32(|r.hops|) + (hops + (r.destination + suffix))));
  }

  /** Hops read already, in front of those still to be read. */
  function Prefixed(hops: seq<HopInfo>, later: Read<(seq<HopInfo>, seq<byte>)>): Read<(seq<HopInfo>, seq<byte>)> {
    match later
    case Err(e) => Err(e)
    case Ok((more, rest)) => Ok((hops + more, rest))
  }

  lemma PrefixedStep(hops: seq<HopInfo>, rest: seq<byte>, n: nat)
    requires n > 0 && |rest| >= HOP_SIZE
    ensures Prefixed(hops, TakeHops(rest, n))
         == Prefixed(hops + [HopInfo(rest[..32], rest[32..][..16])], TakeHops(rest[32..][16..], n - 1))
  {
    var hop, later := HopInfo(rest[..32], rest[32..][..16]), TakeHops(rest[32..][16..], n - 1);
    if later.Ok? {
      assert hops + ([hop] + later.value.0) == (hops + [hop]) + later.value.0;
    }
  }

  method ReadHops(data: seq<byte>, n: nat) returns (result: Read<(seq<HopInfo>, seq<byte>)>)
    ensures result == TakeHops(data, n)
  {
    var hops, rest := [], data;
    assert Prefixed(hops, TakeHops(rest, n)) == TakeHops(data, n) by {
      if TakeHops(data, n).Ok? {
        assert [] + TakeHops(data, n).value.0 == TakeHops(data, n).value.0;
      }
    }
    for i := 0 to n
      invariant Prefixed(hops, TakeHops(rest, n - i)) == TakeHops(data, n)
    {
      if |rest| < HOP_SIZE {
        return Err(InvalidChunkSize);
      }
      PrefixedStep(hops, rest, n - i);
      hops, rest := hops + [HopInfo(rest[..32], rest[32..][..16])], rest[32..][16..];
    }
    assert hops + [] == hops;
    result := Ok((hops, rest));
  }

  method DeserializeRequest(data: seq<byte>) returns (result: Read<ChunkRequest>)
    ensures result == DecodeRequest(data)
  {
    if |data| < 1 + 32 + 4 || data[0] != MSG_CHUNK_REQUEST {
      return Err(InvalidChunkSize);
    }
    var count := FromU32(data[1..][32..][..4]);
    if count > MAX_RETRIEVAL_ROUTE_HOPS {
      return Err(InvalidChunkSize);
    }
    var read := ReadHops(data[1..][32..][4..], count);
    match read {
      case Err(e) => result := Err(e);
      case Ok((hops, rest)) => result := DecodeAfterHops(data[1..][..32], hops, rest);
    }
  }

  predicate GoodRequest(r: ChunkRequest) {
    && |r.hops| <= MAX_RETRIEVAL_ROUTE_HOPS
    && (r.surb.Some? ==> |r.surb.value| <= MAX_SERIALIZED_SURB_SIZE)
  }

  lemma TakeFirstHop(hop: HopInfo, rest: seq<byte>, hops: seq<HopInfo>, after: seq<byte>)
    requires TakeHops(rest, |hops|) == Ok((hops, after))
    ensures TakeHops(hop.publicKey + (hop.nodeId + rest), |hops| + 1) == Ok(([hop] + hops, after))
  {
    Halves(hop.publicKey, hop.nodeId + rest);
    Halves(hop.nodeId, rest);
  }

  lemma JoinFirstHop(hops: seq<HopInfo>, after: seq<byte>)
    requires hops != []
    ensures JoinHops(hops) + after == hops[0].publicKey + (hops[0].nodeId + (JoinHops(hops[1..]) + after))
  {
    var key, id, rest := hops[0].publicKey, hops[0].nodeId, JoinHops(hops[1..]);
    JoinAssociates(key, id + rest, after);
    JoinAssociates(id, rest, after);
  }

  lemma {:induction false} HopsRoundTrip(hops: seq<HopInfo>, after: seq<byte>)
    ensures TakeHops(JoinHops(hops) + after, |hops|) == Ok((hops, after))
  {
    if hops == [] {
      assert [] + after == after;
    } else {
      HopsRoundTrip(hops[1..], after);
      TakeFirstHop(hops[0], JoinHops(hops[1..]) + after, hops[1..], after);
      JoinFirstHop(hops, after);
      assert [hops[0]] + hops[1..] == hops;
    }
  }

  lemma {:induction false} HopsCounted(data: seq<byte>, n: nat)
    ensures TakeHops(data, n).Ok? ==> |TakeHops(data, n).value.0| == n
  {
    if n > 0 && |data| >= HOP_SIZE {
      HopsCounted(data[32..][16..], n - 1);
    }
  }

  lemma SuffixRoundTrip(surb: Option<seq<byte>>, padding: nat)
    requires surb.Some? ==> |surb.value| <= MAX_SERIALIZED_SURB_SIZE
    ensures DecodeSuffix(EncodeSuffix(surb) + Zeros(padding)) == Ok(surb)
  {
    if surb.Some? {
      var bytes, tail := surb.value, EncodeSuffix(surb) + Zeros(padding);
      assert tail == [1] + (U32(|bytes|) + (bytes + Zeros(padding)));
      Halves([1], U32(|bytes|) + (bytes + Zeros(padding)));
      Halves(U32(|bytes|), bytes + Zeros(padding));
      Halves(bytes, Zeros(padding));
      U32RoundTrip(|bytes|);
      assert tail[0] != 0;
    }
  }

  lemma GoodRequestDecodes(r: ChunkRequest, padding: nat)
    requires GoodRequest(r)
    ensures DecodeRequest(EncodeRequest(r) + Zeros(padding)) == Ok(r)
  {
    var tail := EncodeSuffix(r.surb) + Zeros(padding);
    var rest := JoinHops(r.hops) + (r.destination + tail);
    assert EncodeRequest(r) + Zeros(padding) == [MSG_CHUNK_REQUEST] + (r.chunkId + (U32(|r.hops|) + rest));
    Halves([MSG_CHUNK_REQUEST], r.chunkId + (U32(|r.hops|) + rest));
    Halves(r.chunkId, U32(|r.hops|) + rest);
    Halves(U32(|r.hops|), rest);
    U32RoundTrip(|r.hops|);
    HopsRoundTrip(r.hops, r.destination + tail);
    Halves(r.destination, tail);
    SuffixRoundTrip(r.surb, padding);
  }

  lemma DecodedRequestIsGood(data: seq<byte>)
    requires DecodeRequest(data).Ok?
    ensures GoodRequest(DecodeRequest(data).value)
  {
    HopsCounted(data[1..][32..][4..], FromU32(data[1..][32..][..4]));
  }

  /** A request survives its bytes, zero-padded or not, if and only if it is within the two limits. */
  lemma RequestBytesRoundTrip(r: ChunkRequest, padding: nat)
    ensures DecodeRequest(EncodeRequest(r) + Zeros(padding)) == Ok(r) <==> GoodRequest(r)
  {
    var data := EncodeRequest(r) + Zeros(padding);
    if GoodRequest(r) {
      GoodRequestDecodes(r, padding);
    } else if DecodeRequest(data).Ok? {
      DecodedRequestIsGood(data);
    }
  }

  lemma {:induction false} HopsRead(data: seq<byte>, n: nat)
    requires TakeHops(data, n).Ok?
    ensures var (hops, rest) := TakeHops(data, n).value;
            |hops| == n && data == JoinHops(hops) + rest
    decreases n
  {
    if n == 0 {
      assert [] + data == data;
    } else {
      var later := data[32..][16..];
      HopsRead(later, n - 1);
      var (hops, rest) := TakeHops(later, n - 1).value;
      var all := [HopInfo(data[..32], data[32..][..16])] + hops;
      assert all[1..] == hops;
      JoinFirstHop(all, rest);
      Cut(data, 32);
      Cut(data[32..], 16);
    }
  }

  lemma SuffixRead(tail: seq<byte>)
    requires DecodeSuffix(tail).Ok?
    ensures var surb := DecodeSuffix(tail).value;
            && (surb.Some? ==> |surb.value| <= MAX_SERIALIZED_SURB_SIZE)
            && EncodeSuffix(surb) <= tail && (surb.None? <==> AllZero(tail))
  {
    if !AllZero(tail) {
      var field, rest := tail[1..][..4], tail[1..][4..];
      FromBigEndianRoundTrip(field);
      Cut(tail, 1);
      Cut(tail[1..], 4);
      Under(field, DecodeSuffix(tail).value.value, rest);
      Under([1], field + DecodeSuffix(tail).value.value, tail[1..]);
    }
  }

  /** Whatever is read as a request is within the limits, and the bytes begin with its encoding; without a reply
      block only zeros follow. */
  lemma RequestAccepted(data: seq<byte>)
    requires DecodeRequest(data).Ok?
    ensures var r := DecodeRequest(data).value;
            && GoodRequest(r) && EncodeRequest(r) <= data
            && (r.surb.None? <==> AllZero(data[|JoinHops(r.hops)| + 53..]))
  {
    DecodedRequestIsGood(data);
    var r := DecodeRequest(data).value;
    var field, rest := data[1..][32..][..4], data[1..][32..][4..];
    FromBigEndianRoundTrip(field);
    HopsRead(rest, FromU32(field));
    var (hops, after) := TakeHops(rest, FromU32(field)).value;
    AfterHopsRead(data[1..][..32], hops, after);
    var end := r.destination + EncodeSuffix(r.surb);
    Under(JoinHops(hops), end, after);
    RequestFront(data, JoinHops(hops) + end, rest);
    assert data[|JoinHops(hops)| + 53..] == rest[|JoinHops(hops)|..][16..];
  }

  lemma AfterHopsRead(chunkId: Bytes32, hops: seq<HopInfo>, after: seq<byte>)
    requires DecodeAfterHops(chunkId, hops, after).Ok?
    ensures var r := DecodeAfterHops(chunkId, hops, after).value;
            && r.chunkId == chunkId && r.hops == hops && |after| >= 16
            && r.destination + EncodeSuffix(r.surb) <= after && (r.surb.None? <==> AllZero(after[16..]))
  {
    SuffixRead(after[16..]);
    Cut(after, 16);
    Under(after[..16], EncodeSuffix(DecodeSuffix(after[16..]).value), after[16..]);
  }

  lemma RequestFront(data: seq<byte>, shorter: seq<byte>, rest: seq<byte>)
    requires |data| >= 37 && rest == data[1..][32..][4..] && shorter <= rest
    ensures [data[0]] + (data[1..][..32] + (data[1..][32..][..4] + shorter)) <= data
  {
    var field := data[1..][32..][..4];
    Cut(data, 1);
    Cut(data[1..], 32);
    Cut(data[1..][32..], 4);
    Under(field, shorter, rest);
    Under(data[1..][..32], field + shorter, data[1..][32..]);
    Under([data[0]], data[1..][..32] + (field + shorter), data[1..]);
  }

  // ---------------------------------------------------------------- responses

  function EncodeResponse(r: ChunkResponse): seq<byte> {
    [MSG_CHUNK_RESPONSE] + (r.chunkId + ([if r.found then 1 else 0] + (U32(|r.chunkData|) + r.chunkData)))
  }

  function DecodeResponse(data: seq<byte>): Read<ChunkResponse> {
    if |data| < 1 + 32 + 1 + 4 || data[0] != MSG_CHUNK_RESPONSE then Err(InvalidChunkSize)
    else
      var len := FromU32(data[1..][32..][1..][..4]);
      var rest := data[1..][32..][1..][4..];
      if |rest| < len then Err(InvalidChunkSize)
      else Ok(ChunkResponse(data[1..][..32], rest[..len], data[1..][32..][0] == 1))
  }

  lemma ShortResponseDecodes(r: ChunkResponse, after: seq<byte>)
    requires |r.chunkData| < U32_LIMIT
    ensures DecodeResponse(EncodeResponse(r) + after) == Ok(r)
  {
    var flag: seq<byte>, data := [if r.found then 1 else 0], r.chunkData;
    var rest := U32(|data|) + (data + after);
    JoinAssociates([MSG_CHUNK_RESPONSE], r.chunkId + (flag + (U32(|data|) + data)), after);
    JoinAssociates(r.chunkId, flag + (U32(|data|) + data), after);
    JoinAssociates(flag, U32(|data|) + data, after);
    JoinAssociates(U32(|data|), data, after);
    Halves([MSG_CHUNK_RESPONSE], r.chunkId + (flag + rest));
    Halves(r.chunkId, flag + rest);
    Halves(flag, rest);
    Halves(U32(|data|), data + after);
    Halves(data, after);
    U32RoundTrip(|data|);
  }

  /** A response survives its bytes, whatever follows, if and only if its length fits 32 bits. */
  lemma ResponseBytesRoundTrip(r: ChunkResponse, after: seq<byte>)
    ensures DecodeResponse(EncodeResponse(r) + after) == Ok(r) <==> |r.chunkData| < U32_LIMIT
  {
    if |r.chunkData| < U32_LIMIT {
      ShortResponseDecodes(r, after);
    }
  }

  /** Whatever is read as a response fits 32 bits, and the bytes begin with its encoding if and only if the flag
      byte is 0 or 1: every other flag is read as 0. */
  lemma ResponseAccepted(data: seq<byte>)
    requires DecodeResponse(data).Ok?
    ensures var r := DecodeResponse(data).value;
            |r.chunkData| < U32_LIMIT && |data| >= 38 && (EncodeResponse(r) <= data <==> data[33] <= 1)
  {
    var r := DecodeResponse(data).value;
    var after := data[1..][32..];
    var flag: seq<byte> := [if r.found then 1 else 0];
    var field, rest := after[1..][..4], after[1..][4..];
    FromBigEndianRoundTrip(field);
    Cut(data, 1);
    Cut(data[1..], 32);
    Cut(after, 1);
    Cut(after[1..], 4);
    Under(field, r.chunkData, rest);
    Under([2], r.chunkId + (flag + (field + r.chunkData)), data[1..]);
    Under(r.chunkId, flag + (field + r.chunkData), after);
    if data[33] <= 1 {
      assert flag == after[..1];
      Under(flag, field + r.chunkData, after[1..]);
    } else {
      assert (flag + (field + r.chunkData))[0] == 0 && after[0] == data[33];
    }
  }
}
