/** Fragments delivered in any order, any number of times: when does the payload come back? */
module Delivery {
  import opened Bytes
  import opened Fragment

  /** The pieces of one message, within what a reassembly takes. */
  predicate Deliverable(pieces: seq<seq<byte>>) {
    && 0 < |pieces| <= MAX_FRAGMENTS_PER_MESSAGE
    && forall i :: 0 <= i < |pieces| ==> |pieces[i]| <= MAX_FRAGMENT_DATA
  }

  predicate Numbered(order: seq<u32>, n: nat) {
    forall k :: 0 <= k < |order| ==> order[k] < n
  }

  predicate Covers(order: seq<u32>, n: nat) {
    forall i: u32 :: i < n ==> i in order
  }

  function Part(pieces: seq<seq<byte>>, i: u32): Fragment
    requires i < |pieces| < U32_LIMIT
  {
    Fragment(i, |pieces|, pieces[i])
  }

  /** What a receiver sees when the parts arrive in the given order, repeats included. */
  function Arrivals(pieces: seq<seq<byte>>, order: seq<u32>): (fs: seq<Fragment>)
    requires |pieces| < U32_LIMIT && Numbered(order, |pieces|)
    ensures |fs| == |order|
  {
    seq(|order|, k requires 0 <= k < |order| => Part(pieces, order[k]))
  }

  /** What a reassembly holds after those arrivals. */
  ghost function Holding(pieces: seq<seq<byte>>, order: seq<u32>, now: nat): Reassembly
    requires |pieces| < U32_LIMIT && Numbered(order, |pieces|)
  {
    Reassembly(if order == [] then None else Some(|pieces|), map i: u32 | i in order :: pieces[i], now)
  }

  lemma {:induction false} FeedAppend(r: Reassembly, fs: seq<Fragment>, f: Fragment)
    ensures Feed(r, fs + [f]) == Add(Feed(r, fs), f).0
    decreases |fs|
  {
    if fs == [] {
      assert Feed(r, [f]) == Feed(Add(r, f).0, [f][1..]);
    } else {
      FeedAppend(Add(r, fs[0]).0, fs[1..], f);
      assert (fs + [f])[1..] == fs[1..] + [f];
    }
  }

  lemma HoldingGrows(pieces: seq<seq<byte>>, order: seq<u32>, next: u32, now: nat)
    requires Deliverable(pieces) && Numbered(order, |pieces|) && next < |pieces|
    ensures Numbered(order + [next], |pieces|)
    ensures Add(Holding(pieces, order, now), Part(pieces, next))
         == (Holding(pieces, order + [next], now), next !in order)
  {
    assert (order + [next])[|order|] == next;
    assert forall i: u32 :: i in order + [next] <==> i in order || i == next;
    if next in order {
      assert Holding(pieces, order + [next], now).fragments == Holding(pieces, order, now).fragments;
    } else {
      assert Holding(pieces, order + [next], now).fragments
          == Holding(pieces, order, now).fragments[next := pieces[next]];
    }
  }

  /** After any arrivals the reassembly holds exactly the distinct parts that arrived. */
  lemma {:induction false} ArrivalsHeld(pieces: seq<seq<byte>>, order: seq<u32>, now: nat)
    requires Deliverable(pieces) && Numbered(order, |pieces|)
    ensures Feed(Fresh(now), Arrivals(pieces, order)) == Holding(pieces, order, now)
    decreases |order|
  {
    if order != [] {
      var before, last := order[..|order| - 1], order[|order| - 1];
      assert order == before + [last];
      ArrivalsHeld(pieces, before, now);
      HoldingGrows(pieces, before, last, now);
      assert Arrivals(pieces, order) == Arrivals(pieces, before) + [Part(pieces, last)];
      FeedAppend(Fresh(now), Arrivals(pieces, before), Part(pieces, last));
    }
  }

  function Join(pieces: seq<seq<byte>>): seq<byte> {
    if pieces == [] then [] else Join(pieces[..|pieces| - 1]) + pieces[|pieces| - 1]
  }

  lemma {:induction false} CollectJoins(pieces: seq<seq<byte>>, fragments: map<u32, seq<byte>>)
    requires |pieces| < U32_LIMIT
    requires forall i: u32 :: i < |pieces| ==> i in fragments && fragments[i] == pieces[i]
    ensures Collect(fragments, |pieces|) == Ok(Join(pieces))
    decreases |pieces|
  {
    if pieces != [] {
      CollectJoins(pieces[..|pieces| - 1], fragments);
    }
  }

  lemma HoldingCounts(pieces: seq<seq<byte>>, order: seq<u32>, now: nat)
    requires Deliverable(pieces) && Numbered(order, |pieces|)
    ensures IsComplete(Holding(pieces, order, now)) <==> Covers(order, |pieces|)
  {
    var r := Holding(pieces, order, now);
    assert |r.fragments.Keys| == |r.fragments|;
    RangeSize(|pieces|);
    if IsComplete(r) {
      SubsetOfSameSize(r.fragments.Keys, Range(|pieces|));
      forall i: u32 | i < |pieces| ensures i in order {
        assert i in Range(|pieces|);
      }
    }
    if Covers(order, |pieces|) {
      assert r.fragments.Keys == Range(|pieces|);
      assert 0 in order;
    }
  }

  lemma HoldingJoins(pieces: seq<seq<byte>>, order: seq<u32>, now: nat)
    requires Deliverable(pieces) && Numbered(order, |pieces|) && Covers(order, |pieces|)
    ensures Reassemble(Holding(pieces, order, now)) == Ok(Join(pieces))
  {
    assert 0 in order;
    CollectJoins(pieces, Holding(pieces, order, now).fragments);
  }

  /** Any order, any repeats: a new part is taken and a repeated one refused; the reassembly is
      complete exactly when every part has arrived, and then joins to all parts in sequence. */
  lemma ArrivalsComplete(pieces: seq<seq<byte>>, order: seq<u32>, next: u32, now: nat)
    requires Deliverable(pieces) && Numbered(order, |pieces|) && next < |pieces|
    ensures var r := Feed(Fresh(now), Arrivals(pieces, order));
            && Add(r, Part(pieces, next)).1 == (next !in order)
            && (IsComplete(r) <==> Covers(order, |pieces|))
            && (Covers(order, |pieces|) ==> Reassemble(r) == Ok(Join(pieces)))
  {
    ArrivalsHeld(pieces, order, now);
    HoldingGrows(pieces, order, next, now);
    HoldingCounts(pieces, order, now);
    if Covers(order, |pieces|) {
      HoldingJoins(pieces, order, now);
    }
  }

  // ---------------------------------------------------------------- whole payloads

  function PiecesOf(payload: seq<byte>, size: nat, n: nat): (pieces: seq<seq<byte>>)
    ensures |pieces| == n
    ensures forall i :: 0 <= i < n ==> pieces[i] == Piece(payload, size, i)
  {
    seq(n, i requires 0 <= i < n => Piece(payload, size, i))
  }

  /** Cutting and joining loses only what lies past piece `n`. */
  lemma {:induction false} PiecesJoin(payload: seq<byte>, size: nat, n: nat)
    ensures Join(PiecesOf(payload, size, n)) == payload[..Min(Offset(size, n), |payload|)]
  {
    if n == 0 {
      assert PiecesOf(payload, size, 0) == [] && payload[..0] == [];
    } else {
      PiecesJoin(payload, size, n - 1);
      PiecesGrow(payload, size, n);
      PieceExtends(payload, size, n);
    }
  }

  lemma PiecesGrow(payload: seq<byte>, size: nat, n: nat)
    requires n > 0
    ensures Join(PiecesOf(payload, size, n)) == Join(PiecesOf(payload, size, n - 1)) + Piece(payload, size, n - 1)
  {
    assert PiecesOf(payload, size, n)[..n - 1] == PiecesOf(payload, size, n - 1);
  }

  lemma PieceExtends(payload: seq<byte>, size: nat, n: nat)
    requires n > 0
    ensures payload[..Min(Offset(size, n - 1), |payload|)] + Piece(payload, size, n - 1)
         == payload[..Min(Offset(size, n), |payload|)]
  {
    var a, b := Min(Offset(size, n - 1), |payload|), Min(Offset(size, n), |payload|);
    assert Piece(payload, size, n - 1) == payload[a..b];
    SliceOn(payload, a, b);
  }

  lemma SliceOn(s: seq<byte>, a: nat, b: nat)
    requires a <= b <= |s|
    ensures s[..a] + s[a..b] == s[..b]
  {
  }

  /** The bodies put on the wire, in arrival order. */
  function Bodies(fs: seq<Fragment>, order: seq<u32>): (bs: seq<seq<byte>>)
    requires Numbered(order, |fs|)
    ensures |bs| == |order|
  {
    seq(|order|, k requires 0 <= k < |order| => Encode(fs[order[k]]))
  }

  /** A receiver decodes every body and feeds what decodes. */
  function Receive(r: Reassembly, bodies: seq<seq<byte>>): Reassembly
    decreases |bodies|
  {
    if bodies == [] then r else Receive(ReceiveOne(r, bodies[0]), bodies[1..])
  }

  function ReceiveOne(r: Reassembly, body: seq<byte>): Reassembly {
    match Decode(body)
    case Ok(f) => Add(r, f).0
    case Err(_) => r
  }

  lemma ReceiveEncoded(r: Reassembly, f: Fragment)
    requires |f.data| <= MAX_FRAGMENT_DATA
    ensures ReceiveOne(r, Encode(f)) == Add(r, f).0
  {
    EncodeRoundTrip(f);
  }

  function PayloadPieces(payload: seq<byte>): seq<seq<byte>> {
    PiecesOf(payload, MAX_FRAGMENT_DATA, TotalFragments(|payload|))
  }

  lemma {:induction false} ReceiveIsFeed(r: Reassembly, pieces: seq<seq<byte>>, fs: seq<Fragment>, order: seq<u32>)
    requires |pieces| == |fs| < U32_LIMIT && Numbered(order, |fs|)
    requires forall i: u32 :: i < |fs| ==> fs[i] == Part(pieces, i) && |pieces[i]| <= MAX_FRAGMENT_DATA
    ensures Receive(r, Bodies(fs, order)) == Feed(r, Arrivals(pieces, order))
    decreases |order|
  {
    if order != [] {
      var f := fs[order[0]];
      ReceiveEncoded(r, f);
      assert Bodies(fs, order)[0] == Encode(f);
      ReceiveIsFeed(Add(r, f).0, pieces, fs, order[1..]);
      assert Bodies(fs, order)[1..] == Bodies(fs, order[1..]);
      assert Arrivals(pieces, order)[1..] == Arrivals(pieces, order[1..]);
    }
  }

  const MAX_PAYLOAD: nat := MAX_FRAGMENTS_PER_MESSAGE * MAX_FRAGMENT_DATA

  lemma CountBounds(len: nat, n: u32)
    requires n == TotalFragments(len)
    ensures len <= MAX_PAYLOAD ==> n <= MAX_FRAGMENTS_PER_MESSAGE && len <= n * MAX_FRAGMENT_DATA
    ensures len > MAX_PAYLOAD && n <= MAX_FRAGMENTS_PER_MESSAGE ==> n * MAX_FRAGMENT_DATA < len
  {
  }

  /** What every payload's pieces join to. */
  lemma PayloadPiecesJoin(payload: seq<byte>)
    ensures |payload| <= MAX_PAYLOAD ==>
              Deliverable(PayloadPieces(payload)) && Join(PayloadPieces(payload)) == payload
    ensures |payload| > MAX_PAYLOAD && |PayloadPieces(payload)| <= MAX_FRAGMENTS_PER_MESSAGE ==>
              Deliverable(PayloadPieces(payload)) && Join(PayloadPieces(payload)) != payload
  {
    var n := TotalFragments(|payload|);
    CountBounds(|payload|, n);
    OffsetIsProduct(MAX_FRAGMENT_DATA, n);
    PiecesJoin(payload, MAX_FRAGMENT_DATA, n);
  }

  /** Any-order round trip: for a payload within the limit, whatever the order and repetition, the
      receiver completes exactly when the last distinct fragment is in, and then has the payload. */
  lemma AnyOrderRoundTrip(payload: seq<byte>, order: seq<u32>, now: nat)
    requires |payload| <= MAX_PAYLOAD && Numbered(order, |FragmentsOf(payload)|)
    ensures var r := Receive(Fresh(now), Bodies(FragmentsOf(payload), order));
            && (IsComplete(r) <==> Covers(order, |FragmentsOf(payload)|))
            && (IsComplete(r) ==> Reassemble(r) == Ok(payload))
  {
    PayloadPiecesJoin(payload);
    ReceiveIsFeed(Fresh(now), PayloadPieces(payload), FragmentsOf(payload), order);
    ArrivalsComplete(PayloadPieces(payload), order, 0, now);
  }

  lemma {:induction false} FeedRefuses(r: Reassembly, fs: seq<Fragment>)
    requires forall k :: 0 <= k < |fs| ==> fs[k].total > MAX_FRAGMENTS_PER_MESSAGE
    ensures Feed(r, fs) == r
    decreases |fs|
  {
    if fs != [] {
      assert Add(r, fs[0]).0 == r;
      FeedRefuses(r, fs[1..]);
    }
  }

  /** With every fragment delivered, the payload comes back if and only if it is within the limit:
      beyond it the fragments are refused, or (when the 32-bit count wraps) the end is lost. */
  lemma RoundTripLimit(payload: seq<byte>, order: seq<u32>, now: nat)
    requires Numbered(order, |FragmentsOf(payload)|) && Covers(order, |FragmentsOf(payload)|)
    ensures Reassemble(Receive(Fresh(now), Bodies(FragmentsOf(payload), order))) == Ok(payload)
            <==> |payload| <= MAX_PAYLOAD
  {
    PayloadPiecesJoin(payload);
    ReceiveIsFeed(Fresh(now), PayloadPieces(payload), FragmentsOf(payload), order);
    if |PayloadPieces(payload)| <= MAX_FRAGMENTS_PER_MESSAGE {
      ArrivalsComplete(PayloadPieces(payload), order, 0, now);
    } else {
      FeedRefuses(Fresh(now), Arrivals(PayloadPieces(payload), order));
    }
  }
}
