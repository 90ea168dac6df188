/** Reading framed messages from a byte stream that arrives in arbitrary pieces. */
module Stream {
  import opened Bytes
  import opened WireCodec
  import opened Framing

  datatype Outcome =
    | NeedMore
    | Message(message: WireMessage, rest: seq<byte>)
    | Failed(error: WireError, rest: seq<byte>)

  /** One attempt to take a message off the front of the buffer. */
  function TryRead(buf: seq<byte>): (out: Outcome)
    ensures out.Message? ==> |out.rest| < |buf|
  {
    if |buf| < FRAME_PREFIX then NeedMore
    else
      var total := FRAME_PREFIX + PayloadLength(buf);
      if PayloadLength(buf) > PADDED_MESSAGE_SIZE then
        Failed(MessageTooLarge(total, FRAME_PREFIX + PADDED_MESSAGE_SIZE), buf)
      else if |buf| < total then NeedMore
      else
        match DeserializeMessage(buf[..total])
        case Ok((m, _)) => Message(m, buf[total..])
        case Err(e) => Failed(e, buf[total..])
  }

  /** How reading ended: waiting with some bytes left, or with an error that closes the connection. */
  datatype End = Waiting(leftover: seq<byte>) | Closed(error: WireError)

  /** All messages at the front of a buffer, and the end of reading it. */
  function Drain(buf: seq<byte>): (seq<WireMessage>, End)
    decreases |buf|
  {
    match TryRead(buf)
    case NeedMore => ([], Waiting(buf))
    case Failed(e, _) => ([], Closed(e))
    case Message(m, rest) => var (ms, end) := Drain(rest); ([m] + ms, end)
  }

  /** A connection after some reads: the messages handled and how reading stands. */
  datatype Progress = Progress(handled: seq<WireMessage>, end: End)

  function OnRead(p: Progress, chunk: seq<byte>): Progress {
    match p.end
    case Closed(_) => p
    case Waiting(leftover) => var (ms, end) := Drain(leftover + chunk); Progress(p.handled + ms, end)
  }

  function ReadAll(p: Progress, chunks: seq<seq<byte>>): Progress
    decreases |chunks|
  {
    if chunks == [] then p else ReadAll(OnRead(p, chunks[0]), chunks[1..])
  }

  const START: Progress := Progress([], Waiting([]))

  class Connection {
    var readBuf: seq<byte>
    var handled: seq<WireMessage>
    var failure: Option<WireError>

    function State(): Progress
      reads this
    {
      Progress(handled, if failure.Some? then Closed(failure.value) else Waiting(readBuf))
    }

    constructor ()
      ensures State() == START
    {
      readBuf, handled, failure := [], [], None;
    }

    method TryReadMessage() returns (result: Parsed<Option<WireMessage>>)
      modifies this`readBuf
      ensures match TryRead(old(readBuf))
              case NeedMore => result == Ok(None) && readBuf == old(readBuf)
              case Message(m, rest) => result == Ok(Some(m)) && readBuf == rest
              case Failed(e, rest) => result == Err(e) && readBuf == rest
    {
      if |readBuf| < FRAME_PREFIX {
        return Ok(None);
      }
      var payloadLen := PayloadLength(readBuf);
      if payloadLen > PADDED_MESSAGE_SIZE {
        return Err(MessageTooLarge(FRAME_PREFIX + payloadLen, FRAME_PREFIX + PADDED_MESSAGE_SIZE));
      }
      var total := FRAME_PREFIX + payloadLen;
      if |readBuf| < total {
        return Ok(None);
      }
      var messageBytes := readBuf[..total];
      readBuf := readBuf[total..];
      var parsed := DeserializeMessage(messageBytes);
      match parsed {
        case Err(e) => result := Err(e);
        case Ok((m, _)) => result := Ok(Some(m));
      }
    }

    /** Takes in one read and handles every complete message. */
    method Receive(chunk: seq<byte>)
      requires failure.None?
      modifies this
      ensures State() == OnRead(old(State()), chunk)
    {
      readBuf := readBuf + chunk;
      while true
        invariant failure.None?
        invariant Progress(handled + Drain(readBuf).0, Drain(readBuf).1) == OnRead(old(State()), chunk)
        decreases |readBuf|
      {
        ghost var before := readBuf;
        var result := TryReadMessage();
        match result {
          case Err(e) =>
            failure := Some(e);
            return;
          case Ok(None) =>
            return;
          case Ok(Some(m)) =>
            DrainTakes(handled, before, m, readBuf);
            handled := handled + [m];
        }
      }
    }
  }

  lemma DrainTakes(handled: seq<WireMessage>, buf: seq<byte>, m: WireMessage, rest: seq<byte>)
    requires TryRead(buf) == Message(m, rest)
    ensures handled + Drain(buf).0 == (handled + [m]) + Drain(rest).0
    ensures Drain(buf).1 == Drain(rest).1
  {
    var after := Drain(rest).0;
    assert Drain(buf).0 == [m] + after;
    assert handled + ([m] + after) == (handled + [m]) + after;
  }

  // ---------------------------------------------------------------- split independence

  lemma SlicesOfMore(buf: seq<byte>, more: seq<byte>, total: nat)
    requires total <= |buf|
    ensures (buf + more)[..total] == buf[..total] && (buf + more)[total..] == buf[total..] + more
  {
  }

  /** More bytes behind do not change what a decided attempt decides. */
  lemma TryReadMore(buf: seq<byte>, more: seq<byte>)
    ensures match TryRead(buf)
            case NeedMore => true
            case Message(m, rest) => TryRead(buf + more) == Message(m, rest + more)
            case Failed(e, rest) => TryRead(buf + more) == Failed(e, rest + more)
  {
    if |buf| >= FRAME_PREFIX {
      assert (buf + more)[1..][..4] == buf[1..][..4];
      var total := FRAME_PREFIX + PayloadLength(buf);
      if total <= |buf| {
        SlicesOfMore(buf, more, total);
      }
    }
  }

  /** Reading in two steps is reading once. */
  lemma {:induction false} DrainMore(buf: seq<byte>, more: seq<byte>)
    ensures match Drain(buf).1
            case Waiting(leftover) =>
              Drain(buf + more) == (Drain(buf).0 + Drain(leftover + more).0, Drain(leftover + more).1)
            case Closed(_) => Drain(buf + more) == Drain(buf)
    decreases |buf|
  {
    TryReadMore(buf, more);
    match TryRead(buf) {
      case NeedMore =>
        assert [] + Drain(buf + more).0 == Drain(buf + more).0;
      case Failed(_, _) =>
      case Message(m, rest) =>
        DrainMore(rest, more);
        if Drain(rest).1.Waiting? {
          var leftover := Drain(rest).1.leftover;
          assert [m] + (Drain(rest).0 + Drain(leftover + more).0) == ([m] + Drain(rest).0) + Drain(leftover + more).0;
        }
    }
  }

  function Joined(chunks: seq<seq<byte>>): seq<byte>
    decreases |chunks|
  {
    if chunks == [] then [] else chunks[0] + Joined(chunks[1..])
  }

  lemma ReadOnce(p: Progress, whole: seq<byte>, chunk: seq<byte>)
    requires p == Progress(Drain(whole).0, Drain(whole).1)
    ensures OnRead(p, chunk) == Progress(Drain(whole + chunk).0, Drain(whole + chunk).1)
  {
    DrainMore(whole, chunk);
  }

  lemma {:induction false} ReadsFrom(p: Progress, whole: seq<byte>, chunks: seq<seq<byte>>)
    requires p == Progress(Drain(whole).0, Drain(whole).1)
    ensures ReadAll(p, chunks) == Progress(Drain(whole + Joined(chunks)).0, Drain(whole + Joined(chunks)).1)
    decreases |chunks|
  {
    if chunks == [] {
      assert whole + [] == whole;
    } else {
      ReadOnce(p, whole, chunks[0]);
      ReadsFrom(OnRead(p, chunks[0]), whole + chunks[0], chunks[1..]);
      assert whole + Joined(chunks) == (whole + chunks[0]) + Joined(chunks[1..]);
    }
  }

  /** However a byte stream is split into reads, the same messages are handled in the same order and
      reading ends the same way. */
  lemma SplitIndependence(chunks: seq<seq<byte>>)
    ensures ReadAll(START, chunks) == Progress(Drain(Joined(chunks)).0, Drain(Joined(chunks)).1)
  {
    assert [] + Joined(chunks) == Joined(chunks);
    ReadsFrom(START, [], chunks);
  }

  // ---------------------------------------------------------------- what closes a connection

  /** The length of payload that the bytes announce behind their first. */
  function Announced(bytes: seq<byte>): nat
    requires |bytes| >= 5
  {
    FromU32(bytes[1..5])
  }

  /** A frame of this many bytes, within the limit, is complete. */
  predicate Complete(bytes: seq<byte>, n: nat) {
    5 <= n <= |bytes| && n == 5 + Announced(bytes) && Announced(bytes) <= PADDED_MESSAGE_SIZE
  }

  /** The bytes begin with one frame after another, of these messages and none larger than the limit, and `rest`
      is what follows them. */
  predicate Begins(bytes: seq<byte>, ms: seq<WireMessage>, rest: seq<byte>)
    decreases |ms|
  {
    if ms == [] then rest == bytes
    else
      |bytes| >= 5 && var n := 5 + Announced(bytes);
      Complete(bytes, n) && DeserializeMessage(bytes[..n]) == Ok((ms[0], n)) && Begins(bytes[n..], ms[1..], rest)
  }

  /** The frame at the front is not all there yet, and not larger than the limit. */
  predicate Incomplete(bytes: seq<byte>) {
    |bytes| < 5 || (Announced(bytes) <= PADDED_MESSAGE_SIZE && |bytes| < 5 + Announced(bytes))
  }

  /** The frame at the front is refused: it is too large, or complete and no message. */
  predicate Refused(bytes: seq<byte>, e: WireError) {
    |bytes| >= 5 && var n := 5 + Announced(bytes);
    if n > 5 + PADDED_MESSAGE_SIZE then e == MessageTooLarge(n, 5 + PADDED_MESSAGE_SIZE)
    else Complete(bytes, n) && DeserializeMessage(bytes[..n]) == Err(e)
  }

  lemma {:induction false} DrainIsExact(bytes: seq<byte>) returns (rest: seq<byte>)
    ensures var (ms, end) := Drain(bytes);
            && Begins(bytes, ms, rest)
            && match end
               case Waiting(leftover) => leftover == rest && Incomplete(rest)
               case Closed(e) => Refused(rest, e)
    decreases |bytes|
  {
    rest := bytes;
    if |bytes| >= 5 {
      assert bytes[1..][..4] == bytes[1..5];
    }
    match TryRead(bytes)
    case Message(m, after) =>
      rest := DrainIsExact(after);
      ReadsOne(bytes, m, after);
      assert ([m] + Drain(after).0)[1..] == Drain(after).0;
    case _ =>
  }

  lemma ReadsOne(bytes: seq<byte>, m: WireMessage, after: seq<byte>)
    requires TryRead(bytes) == Message(m, after)
    ensures |bytes| >= 5
    ensures var n := 5 + Announced(bytes);
            Complete(bytes, n) && after == bytes[n..] && DeserializeMessage(bytes[..n]) == Ok((m, n))
  {
    assert bytes[1..][..4] == bytes[1..5];
    assert bytes[..5 + PayloadLength(bytes)][1..][..4] == bytes[1..5];
  }

  /** However a stream is split into reads: the messages handled are those of the frames it begins with; reading
      waits if and only if what follows them is an incomplete frame within the limit, which is what the buffer
      holds, and less than the largest frame; it is closed if and only if what follows them is too large or no
      message, with the error that says so. */
  lemma ReadingIsExact(chunks: seq<seq<byte>>) returns (rest: seq<byte>)
    ensures var p := ReadAll(START, chunks);
            && Begins(Joined(chunks), p.handled, rest)
            && (p.end.Waiting? <==> Incomplete(rest))
            && (p.end.Waiting? ==> p.end.leftover == rest && |rest| < 5 + PADDED_MESSAGE_SIZE)
            && (p.end.Closed? ==> Refused(rest, p.end.error))
  {
    SplitIndependence(chunks);
    rest := DrainIsExact(Joined(chunks));
  }

  // ---------------------------------------------------------------- written streams

  /** `write_message`: appends the frame, or refuses and appends nothing. */
  method WriteMessage(buf: seq<byte>, m: WireMessage, noise: nat -> byte) returns (out: seq<byte>, result: Parsed<()>)
    ensures GoodMessage(m) ==> result.Ok?
    ensures match SerializeMessage(m, noise)
            case Ok(frame) => result == Ok(()) && out == buf + frame
            case Err(e) => result == Err(e) && out == buf
  {
    FrameRoundTrip(m, noise, []);
    match SerializeMessage(m, noise) {
      case Ok(frame) => out, result := buf + frame, Ok(());
      case Err(e) => out, result := buf, Err(e);
    }
  }

  /** The frames of written messages; each has its own noise, a refused one is empty. */
  function Frames(ms: seq<WireMessage>, noise: nat -> nat -> byte): (frames: seq<seq<byte>>)
    ensures |frames| == |ms|
  {
    seq(|ms|, i requires 0 <= i < |ms| =>
      match SerializeMessage(ms[i], noise(i)) case Ok(frame) => frame case Err(_) => [])
  }

  /** A frame within the reader's cap is read whole. */
  lemma ReadFrame(kind: byte, payload: seq<byte>, m: WireMessage, n: nat)
    requires |payload| <= PADDED_MESSAGE_SIZE
    requires DeserializeMessage(Frame(kind, payload)) == Ok((m, n))
    ensures Drain(Frame(kind, payload)) == ([m], Waiting([]))
  {
    var frame := Frame(kind, payload);
    FrameSlices(kind, payload, []);
    assert frame + [] == frame;
    assert frame[..|frame|] == frame;
    assert TryRead(frame) == Message(m, []);
    var rest: seq<byte> := [];
    assert Drain(rest) == ([], Waiting(rest));
    assert [m] + Drain(rest).0 == [m];
  }

  /** The reader's cap never refuses what the writer produced. */
  lemma ReadWritten(m: WireMessage, noise: nat -> byte)
    requires GoodMessage(m)
    ensures SerializeMessage(m, noise).Ok?
    ensures Drain(SerializeMessage(m, noise).value) == ([m], Waiting([]))
  {
    FrameRoundTrip(m, noise, []);
    var frame := SerializeMessage(m, noise).value;
    assert frame + [] == frame;
    ReadFrame(Kind(m), Payload(m, noise), m, |frame|);
  }

  lemma DrainFirst(frame: seq<byte>, m: WireMessage, rest: seq<byte>, ms: seq<WireMessage>)
    requires Drain(frame) == ([m], Waiting([])) && Drain(rest) == (ms, Waiting([]))
    ensures Drain(frame + rest) == ([m] + ms, Waiting([]))
  {
    DrainMore(frame, rest);
    assert [] + rest == rest;
  }

  lemma DrainNothing()
    ensures Drain([]) == ([], Waiting([]))
  {
    assert TryRead([]) == NeedMore;
  }

  lemma JoinedFrom(frames: seq<seq<byte>>, k: nat)
    requires k < |frames|
    ensures Joined(frames[k..]) == frames[k] + Joined(frames[k + 1..])
  {
    assert frames[k..][1..] == frames[k + 1..];
  }

  lemma FrameIsRead(ms: seq<WireMessage>, noise: nat -> nat -> byte, k: nat)
    requires k < |ms| && GoodMessage(ms[k])
    ensures Drain(Frames(ms, noise)[k]) == ([ms[k]], Waiting([]))
  {
    ReadWritten(ms[k], noise(k));
  }

  lemma DrainFrame(frames: seq<seq<byte>>, k: nat, m: WireMessage, later: seq<WireMessage>)
    requires k < |frames| && Drain(frames[k]) == ([m], Waiting([]))
    requires Drain(Joined(frames[k + 1..])) == (later, Waiting([]))
    ensures Drain(Joined(frames[k..])) == ([m] + later, Waiting([]))
  {
    DrainFirst(frames[k], m, Joined(frames[k + 1..]), later);
    JoinedFrom(frames, k);
  }

  lemma {:induction false} DrainFrames(frames: seq<seq<byte>>, ms: seq<WireMessage>, k: nat)
    requires k <= |ms| == |frames| && forall i :: 0 <= i < |ms| ==> Drain(frames[i]) == ([ms[i]], Waiting([]))
    ensures Drain(Joined(frames[k..])) == (ms[k..], Waiting([]))
    decreases |ms| - k
  {
    if k == |ms| {
      DrainNothing();
      assert frames[k..] == [];
    } else {
      DrainFrames(frames, ms, k + 1);
      DrainFrame(frames, k, ms[k], ms[k + 1..]);
      assert [ms[k]] + ms[k + 1..] == ms[k..];
    }
  }

  /** Well-formed messages written one after another and read back in any pieces come out exactly as
      they went in, with nothing left over. */
  lemma WrittenIsRead(ms: seq<WireMessage>, noise: nat -> nat -> byte, chunks: seq<seq<byte>>)
    requires forall i :: 0 <= i < |ms| ==> GoodMessage(ms[i])
    requires Joined(chunks) == Joined(Frames(ms, noise))
    ensures ReadAll(START, chunks) == Progress(ms, Waiting([]))
  {
    var frames := Frames(ms, noise);
    forall i | 0 <= i < |ms| ensures Drain(frames[i]) == ([ms[i]], Waiting([])) {
      FrameIsRead(ms, noise, i);
    }
    DrainFrames(frames, ms, 0);
    assert frames[0..] == frames && ms[0..] == ms;
    SplitIndependence(chunks);
  }
}
