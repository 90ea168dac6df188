/** The bandwidth limiter: whole bytes per elapsed millisecond, rounded down at every call. */
module TokenBucket {
  import opened Bytes

  datatype Bucket = Bucket(tokens: nat, maxTokens: nat, rate: nat, lastRefill: nat)

  function Full(maxTokens: nat, rate: nat, nowSecs: nat): Bucket {
    Bucket(maxTokens, maxTokens, rate, Min(nowSecs * 1000, U64_MAX))
  }

  /** Bytes earned in a time, with the product saturating at 64 bits. */
  function Earned(rate: nat, elapsed: nat): nat {
    Min(elapsed * rate, U64_MAX) / 1000
  }

  function Refill(b: Bucket, now: nat): Bucket {
    if now <= b.lastRefill then b
    else b.(tokens := Min(Min(b.tokens + Earned(b.rate, now - b.lastRefill), U64_MAX), b.maxTokens), lastRefill := now)
  }

  function TryConsume(b: Bucket, bytes: nat, now: nat): (Bucket, bool) {
    var r := Refill(b, now);
    if r.tokens >= bytes then (r.(tokens := r.tokens - bytes), true) else (r, false)
  }

  function SetRate(b: Bucket, rate: nat, maxTokens: nat): Bucket {
    b.(rate := rate, maxTokens := maxTokens, tokens := Min(b.tokens, maxTokens))
  }

  class Limiter {
    var tokens: nat
    var maxTokens: nat
    var rate: nat
    var lastRefill: nat

    function State(): Bucket
      reads this
    {
      Bucket(tokens, maxTokens, rate, lastRefill)
    }

    constructor (max: nat, refillRate: nat, nowSecs: nat)
      ensures State() == Full(max, refillRate, nowSecs)
    {
      tokens, maxTokens, rate, lastRefill := max, max, refillRate, Min(nowSecs * 1000, U64_MAX);
    }

    method DoRefill(now: nat)
      modifies this
      ensures State() == Refill(old(State()), now)
    {
      var elapsed := SatSub(now, lastRefill);
      if elapsed > 0 {
        tokens := Min(Min(tokens + Min(elapsed * rate, U64_MAX) / 1000, U64_MAX), maxTokens);
        lastRefill := now;
      }
    }

    method Consume(bytes: nat, now: nat) returns (ok: bool)
      modifies this
      ensures (State(), ok) == TryConsume(old(State()), bytes, now)
    {
      DoRefill(now);
      ok := tokens >= bytes;
      if ok {
        tokens := tokens - bytes;
      }
    }

    method ChangeRate(refillRate: nat, max: nat)
      modifies this
      ensures State() == SetRate(old(State()), refillRate, max)
    {
      rate := refillRate;
      maxTokens := max;
      tokens := Min(tokens, max);
    }
  }

  // ---------------------------------------------------------------- runs

  datatype Event = Attempt(bytes: nat, now: nat) | Retune(rate: nat, maxTokens: nat)

  function Step(b: Bucket, e: Event): Bucket {
    match e
    case Attempt(bytes, now) => TryConsume(b, bytes, now).0
    case Retune(rate, maxTokens) => SetRate(b, rate, maxTokens)
  }

  function Granted(b: Bucket, e: Event): nat {
    if e.Attempt? && TryConsume(b, e.bytes, e.now).1 then e.bytes else 0
  }

  /** The bucket and the bytes admitted so far. */
  function Run(b: Bucket, es: seq<Event>): (Bucket, nat) {
    if es == [] then (b, 0)
    else
      var (before, total) := Run(b, es[..|es| - 1]);
      (Step(before, es[|es| - 1]), total + Granted(before, es[|es| - 1]))
  }

  /** No rate above `limit`, no clock reading above `horizon`. */
  predicate Bounded(b: Bucket, es: seq<Event>, limit: nat, horizon: nat) {
    && b.rate <= limit && b.lastRefill <= horizon
    && forall i :: 0 <= i < |es| ==>
         match es[i]
         case Attempt(_, now) => now <= horizon
         case Retune(rate, _) => rate <= limit
  }

  lemma EarnedBound(rate: nat, limit: nat, elapsed: nat)
    requires rate <= limit
    ensures 1000 * Earned(rate, elapsed) <= limit * elapsed
  {
    assert elapsed * rate <= limit * elapsed;
  }

  lemma RefillBound(b: Bucket, now: nat, limit: nat)
    requires b.rate <= limit
    ensures var r := Refill(b, now);
            && b.lastRefill <= r.lastRefill
            && 1000 * r.tokens <= 1000 * b.tokens + limit * (r.lastRefill - b.lastRefill)
  {
    if now > b.lastRefill {
      EarnedBound(b.rate, limit, now - b.lastRefill);
    }
  }

  lemma Split(limit: nat, a: int, b: int)
    ensures limit * (a + b) == limit * a + limit * b
  {
  }

  lemma StepBound(b: Bucket, e: Event, limit: nat)
    requires b.rate <= limit
    ensures var after := Step(b, e);
            && b.lastRefill <= after.lastRefill && (after.lastRefill == b.lastRefill
               || (e.Attempt? && after.lastRefill == e.now))
            && 1000 * (after.tokens + Granted(b, e)) <= 1000 * b.tokens + limit * (after.lastRefill - b.lastRefill)
            && (b.tokens <= b.maxTokens ==> after.tokens <= after.maxTokens)
            && after.rate == (if e.Retune? then e.rate else b.rate)
  {
    if e.Attempt? {
      RefillBound(b, e.now, limit);
    }
  }

  /** Scaled by 1000 the rounding disappears: tokens plus admitted bytes never outgrow the time. */
  lemma {:induction false} RunBound(b: Bucket, es: seq<Event>, limit: nat, horizon: nat)
    requires Bounded(b, es, limit, horizon)
    ensures var (after, admitted) := Run(b, es);
            && after.rate <= limit && b.lastRefill <= after.lastRefill <= horizon
            && 1000 * (after.tokens + admitted) <= 1000 * b.tokens + limit * (after.lastRefill - b.lastRefill)
            && (b.tokens <= b.maxTokens ==> after.tokens <= after.maxTokens)
  {
    if es != [] {
      var last := es[|es| - 1];
      RunBound(b, es[..|es| - 1], limit, horizon);
      var before := Run(b, es[..|es| - 1]).0;
      StepBound(before, last, limit);
      Split(limit, Step(before, last).lastRefill - before.lastRefill, before.lastRefill - b.lastRefill);
    }
  }

  /** Whatever the attempts, rate changes up to `limit` and clock jumps: the bytes admitted by
      `horizon` total at most the initial tokens plus the floor of rate times elapsed time, and
      the bucket never overflows. */
  lemma RateBound(b: Bucket, es: seq<Event>, limit: nat, horizon: nat)
    requires Bounded(b, es, limit, horizon)
    ensures Run(b, es).1 <= b.tokens + limit * (horizon - b.lastRefill) / 1000
    ensures b.tokens <= b.maxTokens ==> Run(b, es).0.tokens <= Run(b, es).0.maxTokens
  {
    RunBound(b, es, limit, horizon);
    MoreTime(limit, Run(b, es).0.lastRefill - b.lastRefill, horizon - b.lastRefill);
    FloorBound(Run(b, es).1, b.tokens, limit * (horizon - b.lastRefill));
  }

  lemma MoreTime(limit: nat, a: nat, b: nat)
    requires a <= b
    ensures limit * a <= limit * b
  {
  }

  lemma FloorBound(admitted: nat, tokens: nat, earned: nat)
    requires 1000 * admitted <= 1000 * tokens + earned
    ensures admitted <= tokens + earned / 1000
  {
  }

  // ---------------------------------------------------------------- what an attempt has at hand

  /** `e` whole bytes are earned: the product of rate and time in thousands, rounded down and cut off at 64
      bits. */
  predicate Earns(rate: nat, elapsed: nat, e: nat) {
    var product := if rate * elapsed <= U64_MAX then rate * elapsed else U64_MAX;
    1000 * e <= product < 1000 * e + 1000
  }

  /** Exactly: an attempt has the old tokens and what the time since the last refill has earned, but no more
      than the capacity; it is admitted if and only if it asks for no more than that, and takes just what it
      asks for. A clock that has not moved on earns nothing. */
  lemma AttemptIsExact(b: Bucket, bytes: nat, now: nat, e: nat, have: nat)
    requires b.tokens <= b.maxTokens <= U64_MAX
    requires Earns(b.rate, if now > b.lastRefill then now - b.lastRefill else 0, e)
    requires have == if b.tokens + e <= b.maxTokens then b.tokens + e else b.maxTokens
    ensures var (after, ok) := TryConsume(b, bytes, now);
            && (ok <==> bytes <= have)
            && after.tokens == have - (if bytes <= have then bytes else 0)
            && after.lastRefill == (if now > b.lastRefill then now else b.lastRefill)
            && after.rate == b.rate && after.maxTokens == b.maxTokens
  {
    if now > b.lastRefill {
      var elapsed := now - b.lastRefill;
      assert elapsed * b.rate == b.rate * elapsed;
      assert e == Earned(b.rate, elapsed);
    }
  }

  /** No run of attempts loses what it starts with, however long it idles at the capacity in between. */
  lemma {:induction false} NothingIsForfeited(b: Bucket, es: seq<Event>)
    requires b.maxTokens <= U64_MAX && forall i :: 0 <= i < |es| ==> es[i].Attempt?
    ensures var (after, admitted) := Run(b, es);
            && after.maxTokens == b.maxTokens
            && after.tokens + admitted >= if b.tokens <= b.maxTokens then b.tokens else b.maxTokens
  {
    if es != [] {
      NothingIsForfeited(b, es[..|es| - 1]);
    }
  }

  /** After an idle time that earns the whole capacity, every attempt within the capacity is admitted. */
  lemma IdleLimiterAdmits(b: Bucket, bytes: nat, now: nat)
    requires bytes <= b.maxTokens <= U64_MAX && now > b.lastRefill
    requires 1000 * b.maxTokens <= (now - b.lastRefill) * b.rate <= U64_MAX
    ensures var (after, ok) := TryConsume(b, bytes, now);
            ok && after.tokens == b.maxTokens - bytes && after.lastRefill == now
  {
    EarnsCapacity((now - b.lastRefill) * b.rate, b.maxTokens);
  }

  lemma EarnsCapacity(product: nat, maxTokens: nat)
    requires 1000 * maxTokens <= product
    ensures product / 1000 >= maxTokens
  {
  }

  /** A new limiter admits its whole capacity at once. */
  lemma NewLimiterAdmits(maxTokens: nat, rate: nat, nowSecs: nat, bytes: nat, now: nat)
    requires bytes <= maxTokens <= U64_MAX
    ensures TryConsume(Full(maxTokens, rate, nowSecs), bytes, now).1
  {
  }

  /** A change of rate keeps the tokens wherever they fit the new capacity, and otherwise fills it; later
      attempts earn at the new rate from the time of the last refill on. */
  lemma RetuneKeepsTokens(b: Bucket, rate: nat, maxTokens: nat)
    ensures var after := Step(b, Retune(rate, maxTokens));
            && (b.tokens <= maxTokens ==> after == Bucket(b.tokens, maxTokens, rate, b.lastRefill))
            && (b.tokens > maxTokens ==> after == Bucket(maxTokens, maxTokens, rate, b.lastRefill))
  {
  }

  // ---------------------------------------------------------------- what rounding loses

  /** The attempt reads a clock that has not gone back, and its refill is clipped nowhere: neither by
      the capacity nor at 64 bits. */
  predicate Unclipped(b: Bucket, e: Event) {
    && e.Attempt? && e.now >= b.lastRefill
    && (e.now - b.lastRefill) * b.rate <= U64_MAX
    && b.tokens + Earned(b.rate, e.now - b.lastRefill) <= Min(b.maxTokens, U64_MAX)
  }

  predicate UnclippedRun(b: Bucket, es: seq<Event>) {
    es == [] || (UnclippedRun(b, es[..|es| - 1]) && Unclipped(Run(b, es[..|es| - 1]).0, es[|es| - 1]))
  }

  /** The attempt follows the last one within less than one byte's time. */
  predicate TooSoon(b: Bucket, e: Event) {
    e.Attempt? && e.now >= b.lastRefill && (e.now - b.lastRefill) * b.rate < 1000
  }

  predicate PolledTooFast(b: Bucket, es: seq<Event>) {
    es == [] || (PolledTooFast(b, es[..|es| - 1]) && TooSoon(Run(b, es[..|es| - 1]).0, es[|es| - 1]))
  }

  lemma EarnsNothingIff(rate: nat, elapsed: nat)
    ensures Earned(rate, elapsed) == 0 <==> elapsed * rate < 1000
  {
  }

  /** What one unclipped attempt adds to tokens and admitted bytes, and what rounding takes. */
  lemma UnclippedStep(b: Bucket, e: Event)
    requires Unclipped(b, e)
    ensures Step(b, e).tokens + Granted(b, e) == b.tokens + Earned(b.rate, e.now - b.lastRefill)
    ensures Step(b, e).lastRefill == e.now && Step(b, e).rate == b.rate
    ensures 1000 * Earned(b.rate, e.now - b.lastRefill) + 999 >= b.rate * (e.now - b.lastRefill)
    ensures Earned(b.rate, e.now - b.lastRefill) == 0 <==> TooSoon(b, e)
  {
    EarnsNothingIff(b.rate, e.now - b.lastRefill);
    assert (e.now - b.lastRefill) * b.rate == b.rate * (e.now - b.lastRefill);
  }

  /** Less than one byte is lost per call: together with `RunBound` the limiter is within one byte
      per call of the exact rate as long as nothing is clipped. */
  lemma {:induction false} RoundingLossBound(b: Bucket, es: seq<Event>)
    requires UnclippedRun(b, es)
    ensures var (after, admitted) := Run(b, es);
            && after.rate == b.rate && after.lastRefill >= b.lastRefill
            && after.tokens + admitted >= b.tokens
            && 1000 * (after.tokens + admitted) + 999 * |es| >= 1000 * b.tokens
               + b.rate * (after.lastRefill - b.lastRefill)
  {
    if es != [] {
      var n := |es| - 1;
      RoundingLossBound(b, es[..n]);
      var before := Run(b, es[..n]).0;
      UnclippedStep(before, es[n]);
      Split(b.rate, es[n].now - before.lastRefill, before.lastRefill - b.lastRefill);
    }
  }

  /** Starvation, exactly: an unclipped run earns nothing at all if and only if every attempt came
      within less than one byte's time of the one before. */
  lemma {:induction false} StarvesIffPolledTooFast(b: Bucket, es: seq<Event>)
    requires UnclippedRun(b, es)
    ensures Run(b, es).0.tokens + Run(b, es).1 == b.tokens <==> PolledTooFast(b, es)
  {
    if es != [] {
      var n := |es| - 1;
      StarvesIffPolledTooFast(b, es[..n]);
      RoundingLossBound(b, es[..n]);
      UnclippedStep(Run(b, es[..n]).0, es[n]);
    }
  }

  /** Clipped or not, a run polled that fast never admits more than its initial tokens. */
  lemma {:induction false} FastPollingStarves(b: Bucket, es: seq<Event>)
    requires PolledTooFast(b, es)
    ensures Run(b, es).0.tokens + Run(b, es).1 <= b.tokens
  {
    if es != [] {
      var before, last := Run(b, es[..|es| - 1]).0, es[|es| - 1];
      FastPollingStarves(b, es[..|es| - 1]);
      EarnsNothingIff(before.rate, last.now - before.lastRefill);
    }
  }

  /** From 1000 bytes per second on, no run starves once its clock has moved. */
  lemma FastRatesNeverStarve(b: Bucket, es: seq<Event>)
    requires b.rate >= 1000 && UnclippedRun(b, es) && Run(b, es).0.lastRefill > b.lastRefill
    ensures Run(b, es).0.tokens + Run(b, es).1 > b.tokens
  {
    StarvesIffPolledTooFast(b, es);
    RoundingLossBound(b, es);
    if PolledTooFast(b, es) {
      FastPollingStandsStill(b, es);
    }
  }

  lemma {:induction false} FastPollingStandsStill(b: Bucket, es: seq<Event>)
    requires b.rate >= 1000 && PolledTooFast(b, es)
    ensures Run(b, es).0.lastRefill == b.lastRefill && Run(b, es).0.rate == b.rate
  {
    if es != [] {
      var n := |es| - 1;
      FastPollingStandsStill(b, es[..n]);
      var before := Run(b, es[..n]).0;
      WithinOneMilli(b.rate, es[n].now - before.lastRefill);
    }
  }

  lemma WithinOneMilli(rate: nat, elapsed: nat)
    requires rate >= 1000 && elapsed * rate < 1000
    ensures elapsed == 0
  {
  }

  // ---------------------------------------------------------------- a starving run

  /** One attempt every millisecond, each for `bytes`. */
  function EveryMilli(b: Bucket, bytes: nat, n: nat): (es: seq<Event>)
    ensures |es| == n
  {
    seq(n, i requires 0 <= i < n => Attempt(bytes, b.lastRefill + i + 1))
  }

  lemma {:induction false} EveryMilliIsTooFast(b: Bucket, bytes: nat, n: nat)
    requires b.rate < 1000
    ensures PolledTooFast(b, EveryMilli(b, bytes, n))
    ensures var after := Run(b, EveryMilli(b, bytes, n)).0;
            after.rate == b.rate && after.lastRefill == b.lastRefill + n
  {
    if n > 0 {
      EveryMilliIsTooFast(b, bytes, n - 1);
      assert EveryMilli(b, bytes, n)[..n - 1] == EveryMilli(b, bytes, n - 1);
    }
  }

  /** A rate of 1 to 999 bytes per second, polled every millisecond for as long as one likes: only the
      initial tokens are ever admitted, although the rate has earned `rate * n / 1000` bytes. */
  lemma SlowRateStarves(b: Bucket, bytes: nat, n: nat)
    requires 0 < b.rate < 1000
    ensures Run(b, EveryMilli(b, bytes, n)).1 <= b.tokens
    ensures Run(b, EveryMilli(b, bytes, n)).0.lastRefill == b.lastRefill + n
  {
    EveryMilliIsTooFast(b, bytes, n);
    FastPollingStarves(b, EveryMilli(b, bytes, n));
  }
}
