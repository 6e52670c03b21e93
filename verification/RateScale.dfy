/** The limiter on a nanosecond scale.

    With a positive finite limit, one token takes `Period` nanoseconds to accrue.
    Measured in that unit a bucket gains exactly one per nanosecond, and every
    operation of the limiter becomes linear. */
module RateScale {
  import opened Clock
  import opened Rate

  ghost predicate Positive(limit: Limit) {
    limit.PerSecond? && limit.rate > 0.0
  }

  // Nanoseconds to accrue one token.
  ghost function Period(limit: Limit): (p: real)
    requires Positive(limit)
    ensures p > 0.0
  {
    SECOND as real / limit.rate
  }

  // Nanoseconds needed to accrue `tokens`.
  ghost function InNanos(limit: Limit, tokens: real): real
    requires Positive(limit)
  {
    tokens * Period(limit)
  }

  ghost function Level(s: LimiterState): real
    requires Positive(s.limit)
  {
    InNanos(s.limit, s.tokens)
  }

  ghost function LevelAt(s: LimiterState, t: Time): real
    requires Positive(s.limit)
  {
    InNanos(s.limit, TokensAt(s, t))
  }

  ghost function Capacity(s: LimiterState): real
    requires Positive(s.limit)
  {
    InNanos(s.limit, s.burst as real)
  }

  ghost function Elapsed(s: LimiterState, t: Time): Duration {
    if t < s.last then 0 else t - s.last
  }

  ghost function Min(x: real, y: real): real {
    if x < y then x else y
  }

  ghost function AsReal(k: int): real {
    k as real
  }

  ghost predicate Whole(x: real) {
    exists k :: x == AsReal(k)
  }

  lemma InNanosIsMonotone(limit: Limit, x: real, y: real)
    requires Positive(limit)
    ensures x < y <==> InNanos(limit, x) < InNanos(limit, y)
    ensures x == y <==> InNanos(limit, x) == InNanos(limit, y)
    ensures InNanos(limit, 0.0) == 0.0
  {
    var p := Period(limit);
    assert x < y ==> x * p < y * p;
    assert y < x ==> y * p < x * p;
  }

  lemma InNanosAdds(limit: Limit, x: real, y: real)
    requires Positive(limit)
    ensures InNanos(limit, x + y) == InNanos(limit, x) + InNanos(limit, y)
    ensures InNanos(limit, x - y) == InNanos(limit, x) - InNanos(limit, y)
    ensures InNanos(limit, -x) == -InNanos(limit, x)
  {
  }

  lemma AccrualIsOnePerNano(limit: Limit, d: Duration)
    requires Positive(limit)
    ensures InNanos(limit, TokensFromDuration(limit, d)) == d as real
  {
    var r := limit.rate;
    var x := d as real / SECOND as real;
    assert x * r * (SECOND as real / r) == x * SECOND as real by {
      assert r * (SECOND as real / r) == SECOND as real;
    }
  }

  lemma Cancelling(x: real, y: real, r: real)
    requires r > 0.0 && x * r == y * r
    ensures x == y
  {
    assert (x - y) * r == 0.0;
  }

  lemma WaitIsTruncatedDeficit(limit: Limit, tokens: real)
    requires Positive(limit)
    ensures var d := InNanos(limit, tokens);
            DurationFromTokens(limit, tokens)
              == if d > INF_DURATION as real then INF_DURATION else Truncate(d)
  {
    var r := limit.rate;
    assert tokens / r * SECOND as real == tokens * (SECOND as real / r) by {
      assert tokens == tokens / r * r;
      assert SECOND as real == SECOND as real / r * r;
      Cancelling(tokens / r * SECOND as real, tokens * (SECOND as real / r), r);
    }
  }

  /** Refilling: one nanosecond of time is one unit of level, up to the capacity. */
  lemma LevelGrowsLinearly(s: LimiterState, t: Time)
    requires Positive(s.limit)
    ensures LevelAt(s, t) == Min(Capacity(s), Level(s) + Elapsed(s, t) as real)
  {
    var gained := TokensFromDuration(s.limit, Elapsed(s, t));
    AccrualIsOnePerNano(s.limit, Elapsed(s, t));
    InNanosAdds(s.limit, s.tokens, gained);
    InNanosIsMonotone(s.limit, s.burst as real, s.tokens + gained);
  }

  // The level left by a call for `n` tokens, were it to be granted.
  ghost function LevelAfter(s: LimiterState, t: Time, n: int): real
    requires Positive(s.limit)
  {
    LevelAt(s, t) - InNanos(s.limit, n as real)
  }

  // The wait for a bucket left at `level`: what is missing, in whole nanoseconds.
  ghost function Wait(level: real): Duration {
    if level >= 0.0 then 0
    else if -level > INF_DURATION as real then INF_DURATION
    else (-level).Floor
  }

  // The wait ends before what is missing is there: the longest duration is too short for it.
  ghost predicate CutOff(level: real) {
    -level >= INF_DURATION as real + 1.0
  }

  lemma ReserveInNanos(s: LimiterState, t: Time, n: int, maxWait: Duration)
    requires Positive(s.limit)
    ensures var (s', r) := Reserve(s, t, n, maxWait);
            var level := LevelAfter(s, t, n);
            && s'.limit == s.limit && s'.burst == s.burst && s'.last == t
            && r.ok == (n <= s.burst && Wait(level) <= maxWait)
            && r.tokens == (if r.ok then n else 0)
            && r.limit == s.limit
            && r.timeToAct == s'.lastEvent == t + Wait(level)
            && Level(s') == if r.ok then level else 0.0
  {
    var tokens := TokensAt(s, t) - n as real;
    InNanosAdds(s.limit, TokensAt(s, t), n as real);
    InNanosAdds(s.limit, tokens, 0.0);
    InNanosIsMonotone(s.limit, tokens, 0.0);
    WaitIsTruncatedDeficit(s.limit, -tokens);
  }

  /** A reservation may act when the missing tokens are there, to the whole nanosecond, unless
      that takes longer than the longest duration. */
  lemma ActsWhenPaidIff(s: LimiterState, t: Time, n: int, maxWait: Duration)
    requires Positive(s.limit)
    ensures var missing := -LevelAfter(s, t, n);
            var whole := if missing > 0.0 then missing.Floor else 0;
            Reserve(s, t, n, maxWait).1.timeToAct == t + whole <==> missing < INF_DURATION as real + 1.0
  {
    ReserveInNanos(s, t, n, maxWait);
  }

  /** For `AllowN` a call is granted as soon as less than a nanosecond is missing. */
  lemma AllowInNanos(s: LimiterState, t: Time, n: int)
    requires Positive(s.limit)
    ensures var s' := Allow(s, t, n);
            var level := LevelAfter(s, t, n);
            && s'.limit == s.limit && s'.burst == s.burst && s'.last == t
            && Allowed(s, t, n) == (n <= s.burst && level > -1.0)
            && Level(s') == if Allowed(s, t, n) then level else 0.0
  {
    ReserveInNanos(s, t, n, 0);
    var level := LevelAfter(s, t, n);
    assert Wait(level) <= 0 <==> level > -1.0;
  }

  lemma PeriodOfEvery(interval: Duration)
    requires interval > 0
    ensures Positive(Every(interval))
    ensures Period(Every(interval)) == interval as real
  {
    var x := interval as real / SECOND as real;
    var s := SECOND as real;
    assert x > 0.0;
    assert Every(interval).rate == 1.0 / x;
    assert 1.0 / x > 0.0;
    assert x * s == interval as real;
    calc {
      s / (1.0 / x);
      { assert s * x * (1.0 / x) == s * (x * (1.0 / x)) == s; }
      s * x;
    }
  }

  /** `Every` is the one way to a limit whose period is a whole number of nanoseconds. */
  lemma WholePeriodIsEvery(limit: Limit)
    requires Positive(limit)
    ensures Whole(Period(limit)) <==> exists interval: Duration :: interval > 0 && limit == Every(interval)
  {
    if Whole(Period(limit)) {
      var interval :| Period(limit) == AsReal(interval);
      PeriodOfEvery(interval);
      SamePeriod(limit, Every(interval));
    }
    forall interval: Duration | interval > 0 && limit == Every(interval)
      ensures Whole(Period(limit))
    {
      PeriodOfEvery(interval);
      IntIsWhole(interval);
    }
  }

  lemma SamePeriod(a: Limit, b: Limit)
    requires Positive(a) && Positive(b) && Period(a) == Period(b)
    ensures a == b
  {
    assert a.rate * Period(a) == SECOND as real;
    assert b.rate * Period(b) == SECOND as real;
    var p := Period(a);
    assert (a.rate - b.rate) * p == 0.0;
  }

  lemma IntIsWhole(k: int)
    ensures Whole(k as real)
  {
    assert k as real == AsReal(k);
  }

  lemma WholeProduct(limit: Limit, n: int)
    requires Positive(limit) && Whole(Period(limit))
    ensures Whole(InNanos(limit, n as real))
  {
    var k :| Period(limit) == AsReal(k);
    assert n as real * k as real == AsReal(n * k);
  }

  lemma WholeSum(x: real, y: real)
    requires Whole(x) && Whole(y)
    ensures Whole(x + y) && Whole(x - y)
  {
    var a, b :| x == AsReal(a) && y == AsReal(b);
    assert x + y == AsReal(a + b);
    assert x - y == AsReal(a - b);
  }

  lemma FloorOfWhole(x: real)
    requires Whole(x)
    ensures x.Floor as real == x
  {
    var k :| x == AsReal(k);
    assert x.Floor == k;
  }

  /** A whole deficit is waited for exactly. */
  lemma WaitOfWhole(level: real)
    requires Whole(level) && !CutOff(level)
    ensures Wait(level) as real == if level < 0.0 then -level else 0.0
  {
    FloorOfWhole(level);
    if level < 0.0 {
      assert -level == AsReal(-level.Floor);
      FloorOfWhole(-level);
    }
  }

  /** Every level is a whole number of nanoseconds. */
  ghost predicate OnGrid(s: LimiterState) {
    Positive(s.limit) && Whole(Period(s.limit)) && Whole(Level(s))
  }

  lemma GridLevels(s: LimiterState, t: Time, n: int)
    requires OnGrid(s)
    ensures Whole(LevelAt(s, t)) && Whole(Capacity(s))
    ensures Whole(InNanos(s.limit, n as real)) && Whole(LevelAfter(s, t, n))
  {
    LevelGrowsLinearly(s, t);
    WholeProduct(s.limit, s.burst);
    WholeProduct(s.limit, n);
    IntIsWhole(Elapsed(s, t));
    WholeSum(Level(s), Elapsed(s, t) as real);
    WholeSum(LevelAt(s, t), InNanos(s.limit, n as real));
  }

  lemma ReserveStaysOnGrid(s: LimiterState, t: Time, n: int, maxWait: Duration)
    requires OnGrid(s)
    ensures OnGrid(Reserve(s, t, n, maxWait).0)
  {
    ReserveInNanos(s, t, n, maxWait);
    GridLevels(s, t, n);
    IntIsWhole(0);
  }

  lemma FreshIsOnGrid(limit: Limit, burst: int)
    requires Positive(limit) && Whole(Period(limit))
    ensures OnGrid(NewLimiter(limit, burst))
  {
    WholeProduct(limit, burst);
  }
}
