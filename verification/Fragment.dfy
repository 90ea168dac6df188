/** Splitting a payload into Sphinx-body-sized fragments and putting it together again. */
module Fragment {
  import opened Bytes
  import opened Sizes

  const FRAGMENT_HEADER_SIZE: nat := 12
  const MAX_FRAGMENT_DATA: nat := BODY_SIZE - FRAGMENT_HEADER_SIZE
  const MAX_FRAGMENTS_PER_MESSAGE: nat := 2048

  type u32 = x: nat | x < U32_LIMIT

  datatype Fragment = Fragment(id: u32, total: u32, data: seq<byte>)

  datatype FragmentError = TooShort | NoFragments | MissingFragment(index: nat)

  // ---------------------------------------------------------------- splitting

  /** Number of pieces of `size` bytes that cover `len` bytes. */
  function PieceCount(len: nat, size: nat): nat
    requires size > 0
  {
    (len + size - 1) / size
  }

  /** Piece `i` of the payload; empty past its end. */
  function Piece(payload: seq<byte>, size: nat, i: nat): (p: seq<byte>)
    ensures |p| <= size
  {
    var start := Min(Offset(size, i), |payload|);
    payload[start..Min(start + size, |payload|)]
  }

  /** The pieces are counted in a 32-bit word, and an empty payload still has one. */
  function TotalFragments(len: nat): (n: u32)
    ensures n >= 1
  {
    var n := PieceCount(len, MAX_FRAGMENT_DATA) % U32_LIMIT;
    if n < 1 then 1 else n
  }

  function FragmentsOf(payload: seq<byte>): (fs: seq<Fragment>)
    ensures |fs| == TotalFragments(|payload|)
    ensures forall i :: 0 <= i < |fs| ==> fs[i] == Fragment(i, |fs|, Piece(payload, MAX_FRAGMENT_DATA, i))
  {
    var n := TotalFragments(|payload|);
    seq(n, i requires 0 <= i < n => Fragment(i, n, Piece(payload, MAX_FRAGMENT_DATA, i)))
  }

  method FragmentPayload(payload: seq<byte>) returns (fragments: seq<Fragment>)
    ensures fragments == FragmentsOf(payload)
  {
    var total := TotalFragments(|payload|);
    fragments := [];
    for i := 0 to total
      invariant fragments == FragmentsOf(payload)[..i]
    {
      var start := i * MAX_FRAGMENT_DATA;
      var end := Min(start + MAX_FRAGMENT_DATA, |payload|);
      var data := if start < |payload| then payload[start..end] else [];
      OffsetIsProduct(MAX_FRAGMENT_DATA, i);
      assert data == Piece(payload, MAX_FRAGMENT_DATA, i);
      fragments := fragments + [Fragment(i, total, data)];
    }
  }

  // ---------------------------------------------------------------- fixed-size bodies

  function Header(id: nat, total: nat, len: nat): (s: seq<byte>)
    ensures |s| == FRAGMENT_HEADER_SIZE
  {
    U32(id) + U32(total) + U32(len)
  }

  /** The body of a fragment: header, data and zero padding; data past the room is cut off. */
  function Encode(f: Fragment): (body: seq<byte>)
    ensures |body| == BODY_SIZE
  {
    var len := Min(|f.data|, MAX_FRAGMENT_DATA);
    Header(f.id, f.total, len) + f.data[..len] + Zeros(MAX_FRAGMENT_DATA - len)
  }

  /** Copies `part` into a buffer that holds `done` followed by zeros. */
  method CopyAfter(buf: array<byte>, ghost done: seq<byte>, at: nat, part: seq<byte>)
    requires |done| == at && at + |part| <= buf.Length
    requires buf[..] == done + Zeros(buf.Length - at)
    modifies buf
    ensures buf[..] == done + part + Zeros(buf.Length - at - |part|)
  {
    for k := 0 to |part|
      invariant buf[..] == done + part[..k] + Zeros(buf.Length - at - k)
    {
      buf[at + k] := part[k];
    }
    assert part[..|part|] == part;
  }

  method SerializeFragment(f: Fragment) returns (buf: array<byte>)
    ensures fresh(buf) && buf[..] == Encode(f)
  {
    buf := new byte[BODY_SIZE](i => 0);
    var len := Min(|f.data|, MAX_FRAGMENT_DATA);
    assert buf[..] == [] + Zeros(BODY_SIZE);
    CopyAfter(buf, [], 0, U32(f.id));
    assert [] + U32(f.id) == U32(f.id);
    CopyAfter(buf, U32(f.id), 4, U32(f.total));
    CopyAfter(buf, U32(f.id) + U32(f.total), 8, U32(len));
    CopyAfter(buf, Header(f.id, f.total, len), 12, f.data[..len]);
  }

  function Decode(body: seq<byte>): Result<Fragment, FragmentError> {
    if |body| < FRAGMENT_HEADER_SIZE then Err(TooShort)
    else
      var len := FromU32(body[8..12]);
      if FRAGMENT_HEADER_SIZE + len > |body| then Err(TooShort)
      else Ok(Fragment(FromU32(body[0..4]), FromU32(body[4..8]), body[12..12 + len]))
  }

  lemma HeaderSlices(a: seq<byte>, b: seq<byte>, c: seq<byte>, data: seq<byte>, padding: seq<byte>)
    requires |a| == |b| == |c| == 4
    ensures var body := a + b + c + data + padding;
            body[0..4] == a && body[4..8] == b && body[8..12] == c && body[12..12 + |data|] == data
  {
  }

  /** Header and data are read back whatever follows them. */
  lemma DecodeIgnoresPadding(id: u32, total: u32, data: seq<byte>, padding: seq<byte>)
    requires |data| < U32_LIMIT
    ensures Decode(Header(id, total, |data|) + data + padding) == Ok(Fragment(id, total, data))
  {
    HeaderSlices(U32(id), U32(total), U32(|data|), data, padding);
    U32RoundTrip(id);
    U32RoundTrip(total);
    U32RoundTrip(|data|);
  }

  /** A fragment survives its fixed-size body exactly when its data fits; otherwise it is cut. */
  lemma EncodeRoundTrip(f: Fragment)
    ensures Decode(Encode(f)) == Ok(f.(data := f.data[..Min(|f.data|, MAX_FRAGMENT_DATA)]))
    ensures Decode(Encode(f)) == Ok(f) <==> |f.data| <= MAX_FRAGMENT_DATA
  {
    var len := Min(|f.data|, MAX_FRAGMENT_DATA);
    DecodeIgnoresPadding(f.id, f.total, f.data[..len], Zeros(MAX_FRAGMENT_DATA - len));
    if len == |f.data| {
      assert f.data[..len] == f.data;
    }
  }

  // ---------------------------------------------------------------- one reassembly

  datatype Reassembly = Reassembly(total: Option<u32>, fragments: map<u32, seq<byte>>, createdAt: nat)

  function Fresh(now: nat): Reassembly {
    Reassembly(None, map[], now)
  }

  predicate WellNumbered(f: Fragment) {
    0 < f.total <= MAX_FRAGMENTS_PER_MESSAGE && f.id < f.total
  }

  predicate InBounds(f: Fragment) {
    WellNumbered(f) && |f.data| <= MAX_FRAGMENT_DATA
  }

  /** The new state and whether the fragment was taken. */
  function Add(r: Reassembly, f: Fragment): (Reassembly, bool) {
    if !InBounds(f) || (r.total.Some? && r.total.value != f.total) then (r, false)
    else
      var named := r.(total := Some(f.total));
      if f.id in r.fragments then (named, false)
      else (named.(fragments := r.fragments[f.id := f.data]), true)
  }

  predicate CanAccept(r: Reassembly, f: Fragment) {
    InBounds(f) && (r.total.None? || (r.total.value == f.total && f.id !in r.fragments))
  }

  predicate IsComplete(r: Reassembly) {
    r.total.Some? && |r.fragments| == r.total.value
  }

  predicate IsExpired(r: Reassembly, now: nat, timeout: nat) {
    SatSub(now, r.createdAt) >= timeout
  }

  /** The first `n` fragments joined in order, or the first one that is missing. */
  function Collect(fragments: map<u32, seq<byte>>, n: u32): Result<seq<byte>, FragmentError> {
    if n == 0 then Ok([])
    else
      match Collect(fragments, n - 1)
      case Err(e) => Err(e)
      case Ok(data) => if n - 1 in fragments then Ok(data + fragments[n - 1]) else Err(MissingFragment(n - 1))
  }

  function Reassemble(r: Reassembly): Result<seq<byte>, FragmentError> {
    if r.total.None? then Err(NoFragments) else Collect(r.fragments, r.total.value)
  }

  class Reassembler {
    var total: Option<u32>
    var fragments: map<u32, seq<byte>>
    var createdAt: nat

    function State(): Reassembly
      reads this
    {
      Reassembly(total, fragments, createdAt)
    }

    constructor (now: nat)
      ensures State() == Fresh(now)
    {
      total, fragments, createdAt := None, map[], now;
    }

    method AddFragment(f: Fragment) returns (isNew: bool)
      modifies this
      ensures (State(), isNew) == Add(old(State()), f)
    {
      if f.total == 0 || f.total > MAX_FRAGMENTS_PER_MESSAGE {
        return false;
      }
      if f.id >= f.total {
        return false;
      }
      if |f.data| > MAX_FRAGMENT_DATA {
        return false;
      }
      match total {
        case None => total := Some(f.total);
        case Some(expected) =>
          if expected != f.total {
            return false;
          }
      }
      if f.id in fragments {
        return false;
      }
      fragments := fragments[f.id := f.data];
      isNew := true;
    }

    method CleanupExpired(now: nat, timeout: nat) returns (cleared: bool)
      modifies this
      ensures cleared == IsExpired(old(State()), now, timeout)
      ensures State() == if cleared then Fresh(now) else old(State())
    {
      cleared := SatSub(now, createdAt) >= timeout;
      if cleared {
        fragments, total, createdAt := map[], None, now;
      }
    }

    method ReassemblePayload() returns (result: Result<seq<byte>, FragmentError>)
      ensures result == Reassemble(State())
    {
      if total.None? {
        return Err(NoFragments);
      }
      var data := [];
      var i: nat := 0;
      while i < total.value
        invariant i <= total.value
        invariant Collect(fragments, i) == Ok(data)
      {
        if i !in fragments {
          MissingStays(fragments, i, total.value);
          return Err(MissingFragment(i));
        }
        data := data + fragments[i];
        i := i + 1;
      }
      result := Ok(data);
    }
  }

  lemma {:induction false} MissingStays(fragments: map<u32, seq<byte>>, i: u32, n: u32)
    requires i < n && i !in fragments && Collect(fragments, i).Ok?
    ensures Collect(fragments, n) == Err(MissingFragment(i))
  {
    if i < n - 1 {
      MissingStays(fragments, i, n - 1);
    }
  }

  // ---------------------------------------------------------------- invariant

  /** Ids stay below the fixed total, the total within the limit, and nothing is held before a
      total is known. */
  ghost predicate Sane(r: Reassembly) {
    && (r.total.None? ==> r.fragments == map[])
    && (r.total.Some? ==>
          && 0 < r.total.value <= MAX_FRAGMENTS_PER_MESSAGE
          && forall id :: id in r.fragments ==> id < r.total.value && |r.fragments[id]| <= MAX_FRAGMENT_DATA)
  }

  function Feed(r: Reassembly, fs: seq<Fragment>): Reassembly
    decreases |fs|
  {
    if fs == [] then r else Feed(Add(r, fs[0]).0, fs[1..])
  }

  /** Whatever fragments arrive, the invariant holds, the read-only test predicts the insert, and a
      reassembly complete by count has every fragment, so joining it cannot fail. */
  lemma {:induction false} ReassemblerInvariant(r: Reassembly, fs: seq<Fragment>, f: Fragment)
    requires Sane(r)
    ensures var final := Feed(r, fs);
            && Sane(final)
            && CanAccept(final, f) == Add(final, f).1
            && (IsComplete(final) ==> Reassemble(final).Ok?)
    decreases |fs|
  {
    if fs == [] {
      if IsComplete(r) {
        CompleteHasAll(r);
        AllPresentCollects(r.fragments, r.total.value);
      }
    } else {
      ReassemblerInvariant(Add(r, fs[0]).0, fs[1..], f);
    }
  }

  /** A fragment a reassembly of this total can use: numbered below a total of 1 to 2048 that is the one in use,
      with no more data than fits a body. */
  predicate Usable(f: Fragment, total: u32) {
    f.total == total && 0 < total <= 2048 && f.id < total && |f.data| <= MAX_FRAGMENT_DATA
  }

  function OnlyUsable(fs: seq<Fragment>, total: u32): seq<Fragment> {
    if fs == [] then [] else (if Usable(fs[0], total) then [fs[0]] else []) + OnlyUsable(fs[1..], total)
  }

  /** Once its total is known a reassembly is what its usable fragments make of it, whatever else arrives; and of
      each number it keeps the first. */
  lemma {:induction false} JunkIsIgnored(r: Reassembly, fs: seq<Fragment>)
    requires r.total.Some?
    ensures Feed(r, fs) == Feed(r, OnlyUsable(fs, r.total.value))
    ensures Feed(r, fs).total == r.total && Feed(r, fs).createdAt == r.createdAt
    ensures forall id :: id in r.fragments ==>
              id in Feed(r, fs).fragments && Feed(r, fs).fragments[id] == r.fragments[id]
    decreases |fs|
  {
    if fs != [] {
      JunkIsIgnored(Add(r, fs[0]).0, fs[1..]);
      if Usable(fs[0], r.total.value) {
        assert ([fs[0]] + OnlyUsable(fs[1..], r.total.value))[1..] == OnlyUsable(fs[1..], r.total.value);
      } else {
        assert Add(r, fs[0]).0 == r;
        assert OnlyUsable(fs, r.total.value) == OnlyUsable(fs[1..], r.total.value);
      }
    }
  }

  ghost function Range(n: nat): (ids: set<u32>)
    requires n < U32_LIMIT
    ensures forall i: u32 :: i in ids <==> i < n
  {
    if n == 0 then {} else Range(n - 1) + {n - 1}
  }

  lemma {:induction false} RangeSize(n: nat)
    requires n < U32_LIMIT
    ensures |Range(n)| == n
  {
    if n > 0 {
      RangeSize(n - 1);
    }
  }

  lemma SubsetOfSameSize<T>(a: set<T>, b: set<T>)
    requires a <= b && |a| == |b|
    ensures a == b
  {
    assert |b - a| == |b| - |a|;
    assert b == a + (b - a);
  }

  /** Pigeonhole: `total` distinct ids below `total` are all of them. */
  lemma CompleteHasAll(r: Reassembly)
    requires Sane(r) && IsComplete(r)
    ensures forall i: u32 :: i < r.total.value ==> i in r.fragments
  {
    RangeSize(r.total.value);
    assert |r.fragments.Keys| == |r.fragments|;
    SubsetOfSameSize(r.fragments.Keys, Range(r.total.value));
  }

  lemma {:induction false} AllPresentCollects(fragments: map<u32, seq<byte>>, n: u32)
    requires forall i: u32 :: i < n ==> i in fragments
    ensures Collect(fragments, n).Ok?
  {
    if n > 0 {
      AllPresentCollects(fragments, n - 1);
    }
  }
}
