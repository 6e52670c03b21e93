/** When the two detectors agree, and when dropping a key can be noticed. */
module RedisBucketRuns {
  import opened Clock
  import opened Rate
  import opened RateScale
  import opened RateAllow
  import opened Detector
  import opened DetectorRuns
  import opened RedisBucket
  import opened Wrappers

  datatype KeyEvent = CallAt(at: Time) | DropAt(at: Time)

  function RateOf(c: Config): real
    requires c.interval > 0
    ensures RateOf(c) > 0.0
  {
    var x := c.interval as real / SECOND as real;
    assert x > 0.0;
    RefillRate(c.interval)
  }

  // The key after a run that starts without it.
  function KeyAfter(c: Config, es: seq<KeyEvent>): Key
    requires c.interval > 0
  {
    if es == [] then MISSING
    else
      var before, e := KeyAfter(c, es[..|es| - 1]), es[|es| - 1];
      if e.CallAt? then AfterScript(c.burst, RateOf(c), before, e.at) else MISSING
  }

  predicate KeyAllows(c: Config, k: Key, now: Time)
    requires c.interval > 0
  {
    ScriptAllows(c.burst, RateOf(c), k, now)
  }

  function CallsOf(es: seq<KeyEvent>): seq<Call> {
    if es == [] then []
    else
      var e := es[|es| - 1];
      CallsOf(es[..|es| - 1]) + if e.CallAt? then [Call(e.at, 1)] else []
  }

  ghost predicate InOrder(from: Time, es: seq<KeyEvent>, now: Time) {
    && (forall i, j :: 0 <= i <= j < |es| ==> es[i].at <= es[j].at)
    && (forall i :: 0 <= i < |es| ==> from <= es[i].at <= now)
    && from <= now
  }

  /** The script learns the time in whole microseconds. */
  predicate OnClock(now: Time) {
    now % MICROSECOND == 0
  }

  ghost predicate CallsOnClock(es: seq<KeyEvent>) {
    forall i | 0 <= i < |es| && es[i].CallAt? :: OnClock(es[i].at)
  }

  // The first time from `t` on at which the script can be called.
  function NextTick(t: Time): (u: Time)
    ensures OnClock(u) && t <= u < t + MICROSECOND
  {
    t + (-t) % MICROSECOND
  }

  // Redis drops the key no earlier than its deadline.
  ghost predicate Possible(c: Config, es: seq<KeyEvent>)
    requires c.interval > 0
  {
    forall i | 0 <= i < |es| && es[i].DropAt? ::
      var d := KeyAfter(c, es[..i]).deadline;
      d.Some? && d.value <= es[i].at
  }

  // Whether the last of the calls was allowed; true if there was none.
  predicate LastAllowed(c: Config, es: seq<KeyEvent>)
    requires c.interval > 0
  {
    if es == [] then true
    else
      var init, e := es[..|es| - 1], es[|es| - 1];
      if e.CallAt? then KeyAllows(c, KeyAfter(c, init), e.at) else LastAllowed(c, init)
  }

  // No drop follows a refusal without an allowed call between.
  ghost predicate DropsAfterAllowed(c: Config, es: seq<KeyEvent>)
    requires c.interval > 0
  {
    forall i | 0 <= i < |es| && es[i].DropAt? :: LastAllowed(c, es[..i])
  }

  /** The key holds what the limiter holds, or is missing while the limiter is full. */
  ghost predicate InStep(c: Config, k: Key, s: LimiterState, now: Time) {
    && Sane(c) && Proper(c, s, now)
    && (k.bucket.Some? ==> k.bucket.value == Hash(s.tokens, s.last))
    && (k.bucket.None? ==> Full(s, now))
  }

  lemma SameRefill(c: Config, k: Key, s: LimiterState, now: Time)
    requires InStep(c, k, s, now)
    ensures Refilled(c.burst, RateOf(c), k, now) == TokensAt(s, now)
  {
    assert Every(c.interval).rate == RateOf(c);
    if k.bucket.None? {
      InNanosIsMonotone(s.limit, TokensAt(s, now), s.burst as real);
      assert (now - now) as real / SECOND as real * RateOf(c) == 0.0;
    }
  }

  lemma CallStaysInStep(c: Config, k: Key, s: LimiterState, now: Time)
    requires InStep(c, k, s, now)
    ensures KeyAllows(c, k, now) == Allowed(s, now, 1)
    ensures InStep(c, AfterScript(c.burst, RateOf(c), k, now), Allow(s, now, 1), now)
  {
    SameRefill(c, k, s, now);
    CallStaysProper(c, s, now);
    AllowInNanos(s, now, 1);
    GridLevels(s, now, 1);
    InNanosIsMonotone(s.limit, TokensAt(s, now), 1.0);
    InNanosIsMonotone(s.limit, 1.0, TokensAt(s, now));
    if LevelAfter(s, now, 1) > -1.0 {
      WholeAboveMinusOne(LevelAfter(s, now, 1));
    }
  }

  lemma RefillInSeconds(c: Config)
    requires Sane(c)
    ensures c.burst as real / RateOf(c) * SECOND as real == (c.interval * c.burst) as real
  {
    var x := c.interval as real / SECOND as real;
    var r := RateOf(c);
    var b := c.burst as real;
    assert x > 0.0 && r == 1.0 / x;
    assert b / r == b * x by {
      assert r * x == 1.0;
      Cancelling(b / r, b * x, r);
    }
    assert b * x * SECOND as real == b * c.interval as real;
    assert b * c.interval as real == (c.interval * c.burst) as real;
  }

  // Rounding up to whole seconds.
  lemma CeilInSeconds(x: real, nanos: int)
    requires x * SECOND as real == nanos as real
    ensures nanos <= Ceil(x) * SECOND < nanos + SECOND
  {
    var k := Ceil(x);
    assert x <= k as real < x + 1.0;
    assert x * SECOND as real <= k as real * SECOND as real < (x + 1.0) * SECOND as real;
    assert k as real * SECOND as real == (k * SECOND) as real;
  }

  /** The key outlives the time its bucket takes to fill, by less than a second: its lifetime is
      that time, rounded up to whole seconds. */
  lemma LifetimeCoversRefill(c: Config)
    requires Sane(c)
    ensures c.interval * c.burst <= Lifetime(c.burst, RateOf(c)) < c.interval * c.burst + SECOND
    ensures Lifetime(c.burst, RateOf(c)) % SECOND == 0
    ensures Lifetime(c.burst, RateOf(c)) >= SECOND
  {
    RefillInSeconds(c);
    CeilInSeconds(c.burst as real / RateOf(c), c.interval * c.burst);
    WholeSeconds(Ceil(c.burst as real / RateOf(c)));
    RefillTakesAnInterval(c.interval, c.burst);
  }

  lemma WholeSeconds(k: int)
    ensures (k * SECOND) % SECOND == 0
    ensures k * SECOND > 0 ==> k * SECOND >= SECOND
  {
  }

  // When a call was last allowed since the key was last dropped, or made for the first time.
  function LastAllowedAt(c: Config, es: seq<KeyEvent>): Option<Time>
    requires c.interval > 0
  {
    if es == [] then None
    else
      var init, e := es[..|es| - 1], es[|es| - 1];
      if e.DropAt? then None
      else if KeyAllows(c, KeyAfter(c, init), e.at) then Some(e.at) else LastAllowedAt(c, init)
  }

  /** The deadline of a key is a lifetime after the last call that was allowed, whatever was refused
      since; and the key remembers when it was last called. */
  lemma {:induction false} DeadlineFollowsAllowedCalls(c: Config, es: seq<KeyEvent>)
    requires c.interval > 0
    ensures KeyAfter(c, es).deadline
              == if LastAllowedAt(c, es).None? then None
                 else Some(LastAllowedAt(c, es).value + Lifetime(c.burst, RateOf(c)))
    ensures es != [] && es[|es| - 1].CallAt? ==>
              KeyAfter(c, es).bucket.Some? && KeyAfter(c, es).bucket.value.lastRefreshed == es[|es| - 1].at
  {
    if es != [] {
      DeadlineFollowsAllowedCalls(c, es[..|es| - 1]);
    }
  }

  lemma TimeStaysInStep(c: Config, k: Key, s: LimiterState, t: Time, u: Time)
    requires InStep(c, k, s, t) && t <= u
    ensures InStep(c, k, s, u)
  {
    if k.bucket.None? {
      StaysFull(s, t, u);
    }
  }

  /** In step, and the deadline set by the last call if that was allowed. */
  ghost predicate Mirrors(c: Config, k: Key, s: LimiterState, lastAllowed: bool, now: Time) {
    && InStep(c, k, s, now)
    && (k.bucket.None? ==> k == MISSING)
    && (k.bucket.Some? && lastAllowed ==> k.deadline == Some(s.last + Lifetime(c.burst, RateOf(c))))
  }

  lemma CallMirrors(c: Config, k: Key, s: LimiterState, lastAllowed: bool, now: Time)
    requires Mirrors(c, k, s, lastAllowed, now)
    ensures Mirrors(c, AfterScript(c.burst, RateOf(c), k, now), Allow(s, now, 1), KeyAllows(c, k, now), now)
  {
    CallStaysInStep(c, k, s, now);
    CallStaysProper(c, s, now);
  }

  lemma DropMirrors(c: Config, k: Key, s: LimiterState, now: Time)
    requires Mirrors(c, k, s, true, now) && k.deadline.Some? && k.deadline.value <= now
    ensures Mirrors(c, MISSING, s, true, now)
  {
    LifetimeCoversRefill(c);
    if k.bucket.Some? {
      IdleLimiterFills(c, s, now);
    }
  }

  lemma PossiblePrefix(c: Config, from: Time, es: seq<KeyEvent>, now: Time)
    requires c.interval > 0 && es != [] && InOrder(from, es, now) && Possible(c, es)
    ensures var init, e := es[..|es| - 1], es[|es| - 1];
            && InOrder(from, init, e.at) && Possible(c, init)
            && (e.DropAt? ==> KeyAfter(c, init).deadline.Some? && KeyAfter(c, init).deadline.value <= e.at)
            && (DropsAfterAllowed(c, es) ==> DropsAfterAllowed(c, init) && (e.DropAt? ==> LastAllowed(c, init)))
            && (CallsOnClock(es) ==> CallsOnClock(init) && (e.CallAt? ==> OnClock(e.at)))
  {
    var init := es[..|es| - 1];
    assert forall i | 0 <= i < |init| :: init[i] == es[i] && init[..i] == es[..i];
  }

  lemma {:induction false} RunMirrors(c: Config, s: LimiterState, from: Time, es: seq<KeyEvent>, now: Time)
    requires InStep(c, MISSING, s, from) && InOrder(from, es, now)
    requires Possible(c, es) && DropsAfterAllowed(c, es)
    ensures Mirrors(c, KeyAfter(c, es), AfterCalls(s, CallsOf(es)), LastAllowed(c, es), now)
  {
    if es == [] {
      TimeStaysInStep(c, MISSING, s, from, now);
    } else {
      var init, e := es[..|es| - 1], es[|es| - 1];
      PossiblePrefix(c, from, es, now);
      RunMirrors(c, s, from, init, e.at);
      var k1, s1 := KeyAfter(c, init), AfterCalls(s, CallsOf(init));
      if e.CallAt? {
        OneMoreCall(s, CallsOf(init), Call(e.at, 1));
        CallMirrors(c, k1, s1, LastAllowed(c, init), e.at);
      } else {
        assert CallsOf(es) == CallsOf(init);
        DropMirrors(c, k1, s1, e.at);
      }
      TimeStaysInStep(c, KeyAfter(c, es), AfterCalls(s, CallsOf(es)), e.at, now);
    }
  }

  /** The two detectors agree: in every run of calls and drops the script answers a call as
      the in-memory detector does that draws at the same times for its fingerprint, whatever
      else that one went through; provided no key is dropped whose last call was refused. */
  lemma DetectorsAgree(c: Config, es: seq<KeyEvent>, ds: seq<Event>, f: Fingerprint,
                       now: Time, drawAt: Time, delay: Duration)
    requires Sane(c) && c.period >= KeepFor(c, delay)
    requires InOrder(0, es, drawAt) && CanFollow(f, ds, now, drawAt, delay) && OwnCalls(f, ds) == CallsOf(es)
    requires Possible(c, es) && DropsAfterAllowed(c, es)
    ensures KeyAllows(c, KeyAfter(c, es), drawAt) == !IsHerd(c, After(c, ds), f, drawAt)
  {
    ScriptRemembers(c, es, drawAt);
    AnswersAlike(c, ds, f, now, drawAt, delay);
    assert Remembered(c, f, ds) == AfterCalls(FreshLimiter(c), CallsOf(es));
  }

  lemma ScriptRemembers(c: Config, es: seq<KeyEvent>, now: Time)
    requires Sane(c) && InOrder(0, es, now) && Possible(c, es) && DropsAfterAllowed(c, es)
    ensures KeyAllows(c, KeyAfter(c, es), now) == Allowed(AfterCalls(FreshLimiter(c), CallsOf(es)), now, 1)
  {
    FreshIsProper(c, 0);
    RunMirrors(c, FreshLimiter(c), 0, es, now);
    CallStaysInStep(c, KeyAfter(c, es), AfterCalls(FreshLimiter(c), CallsOf(es)), now);
  }

  function CallsAt(t: Time, k: nat): seq<KeyEvent> {
    seq(k, _ => CallAt(t))
  }

  lemma {:induction false} CallsOfCallsAt(t: Time, k: nat)
    ensures CallsOf(CallsAt(t, k)) == UnitCalls(t, k)
  {
    if k > 0 {
      assert CallsAt(t, k)[..k - 1] == CallsAt(t, k - 1);
      CallsOfCallsAt(t, k - 1);
    }
  }

  ghost predicate OnlyCalls(es: seq<KeyEvent>) {
    forall i | 0 <= i < |es| :: es[i].CallAt?
  }

  // From a missing key on, the script answers as a limiter in state `s` does.
  ghost predicate AgreesFrom(c: Config, s: LimiterState, from: Time)
    requires c.interval > 0
  {
    forall es, now | InOrder(from, es, now) && OnlyCalls(es) && CallsOnClock(es) && OnClock(now) ::
      KeyAllows(c, KeyAfter(c, es), now) == Allowed(AfterCalls(s, CallsOf(es)), now, 1)
  }

  lemma FromNextTick(from: Time, es: seq<KeyEvent>, now: Time)
    requires InOrder(from, es, now) && OnlyCalls(es) && CallsOnClock(es) && OnClock(now)
    ensures InOrder(NextTick(from), es, now)
  {
  }

  /** Dropping the key goes unnoticed just when a limiter that was not forgotten would be full
      by the next time the script can be called. */
  lemma DropKeepsAgreementIff(c: Config, s: LimiterState, from: Time)
    requires Sane(c) && 0 <= from && Proper(c, s, from)
    ensures AgreesFrom(c, s, from) <==> Full(s, NextTick(from))
  {
    var tick := NextTick(from);
    if Full(s, tick) {
      forall es, now | InOrder(from, es, now) && OnlyCalls(es) && CallsOnClock(es) && OnClock(now)
        ensures KeyAllows(c, KeyAfter(c, es), now) == Allowed(AfterCalls(s, CallsOf(es)), now, 1)
      {
        FromNextTick(from, es, now);
        RunMirrors(c, s, tick, es, now);
        CallStaysInStep(c, KeyAfter(c, es), AfterCalls(s, CallsOf(es)), now);
      }
    } else {
      var es := CallsAt(tick, c.burst - 1);
      CallsOfCallsAt(tick, c.burst - 1);
      FreshIsProper(c, tick);
      RunMirrors(c, FreshLimiter(c), tick, es, tick);
      CallStaysInStep(c, KeyAfter(c, es), AfterCalls(FreshLimiter(c), CallsOf(es)), tick);
      GrantedWhenForgotten(c, tick);
      NotFullRefuses(c, s, tick);
      assert InOrder(from, es, tick) && OnlyCalls(es) && CallsOnClock(es);
    }
  }

  // ---- When a drop can be noticed ----

  /** Whenever Redis drops the key, the script answers as a limiter that is not forgotten. */
  ghost predicate DropsUnnoticed(c: Config)
    requires c.interval > 0
  {
    forall es, now | InOrder(0, es, now) && CallsOnClock(es) && OnClock(now) && Possible(c, es) ::
      KeyAllows(c, KeyAfter(c, es), now) == Allowed(AfterCalls(FreshLimiter(c), CallsOf(es)), now, 1)
  }

  // A token is there if `interval` has passed since the last call, or if the bucket is full.
  lemma RestedGrants(c: Config, s: LimiterState, now: Time)
    requires Sane(c) && Proper(c, s, now)
    requires s.last + c.interval <= now || Full(s, now)
    ensures Allowed(s, now, 1)
  {
    FreshIsProper(c, 0);
    assert InNanos(s.limit, 1.0) == c.interval as real;
    InNanosIsMonotone(s.limit, c.burst as real, 1.0);
    WholeAboveMinusOne(Level(s));
    LevelGrowsLinearly(s, now);
    AllowInNanos(s, now, 1);
  }

  lemma TicksApart(t: Time, u: Time)
    requires OnClock(t) && OnClock(u) && t < u
    ensures t + MICROSECOND <= u
  {
  }

  // With a token for every tick, a call is refused only at the time of the call before.
  lemma RefusedAtOnce(c: Config, s: LimiterState, now: Time)
    requires Sane(c) && Proper(c, s, now) && OnClock(s.last) && OnClock(now) && c.interval <= MICROSECOND
    requires !Allowed(s, now, 1)
    ensures s.last == now && !Full(s, now)
  {
    if Full(s, now) {
      RestedGrants(c, s, now);
    } else if s.last < now {
      TicksApart(s.last, now);
      RestedGrants(c, s, now);
    }
  }

  // So the deadline is still that of the last call.
  lemma TickMirrors(c: Config, k: Key, s: LimiterState, now: Time)
    requires Mirrors(c, k, s, true, now) && OnClock(s.last) && OnClock(now) && c.interval <= MICROSECOND
    ensures Mirrors(c, AfterScript(c.burst, RateOf(c), k, now), Allow(s, now, 1), true, now)
    ensures Allow(s, now, 1).last == now
  {
    CallMirrors(c, k, s, true, now);
    CallStaysInStep(c, k, s, now);
    CallStaysProper(c, s, now);
    if !Allowed(s, now, 1) {
      RefusedAtOnce(c, s, now);
    }
  }

  lemma {:induction false} TicksMirror(c: Config, es: seq<KeyEvent>, now: Time)
    requires Sane(c) && c.interval <= MICROSECOND
    requires InOrder(0, es, now) && CallsOnClock(es) && Possible(c, es)
    ensures var s := AfterCalls(FreshLimiter(c), CallsOf(es));
            Mirrors(c, KeyAfter(c, es), s, true, now) && OnClock(s.last)
  {
    if es == [] {
      FreshIsProper(c, now);
    } else {
      var init, e := es[..|es| - 1], es[|es| - 1];
      PossiblePrefix(c, 0, es, now);
      TicksMirror(c, init, e.at);
      var k, s := KeyAfter(c, init), AfterCalls(FreshLimiter(c), CallsOf(init));
      if e.CallAt? {
        OneMoreCall(FreshLimiter(c), CallsOf(init), Call(e.at, 1));
        TickMirrors(c, k, s, e.at);
      } else {
        assert CallsOf(es) == CallsOf(init);
        DropMirrors(c, k, s, e.at);
      }
      TimeStaysInStep(c, KeyAfter(c, es), AfterCalls(FreshLimiter(c), CallsOf(es)), e.at, now);
    }
  }

  /** Drain the bucket at time zero, then call in vain every microsecond. */
  function DrainAndPester(burst: nat, k: nat): seq<KeyEvent> {
    if k == 0 then CallsAt(0, burst) else DrainAndPester(burst, k - 1) + [CallAt(k * MICROSECOND)]
  }

  lemma {:induction false} PesterShape(burst: nat, k: nat)
    requires burst >= 1
    ensures var es := DrainAndPester(burst, k);
            es != [] && OnlyCalls(es) && CallsOnClock(es) && InOrder(0, es, k * MICROSECOND)
  {
    if k > 0 {
      PesterShape(burst, k - 1);
    }
  }

  /** The bucket is drained, and the deadline is what the calls at time zero made it. */
  ghost predicate Pestered(c: Config, k: Key, s: LimiterState, now: Time) {
    && InStep(c, k, s, now) && s.last == now && Level(s) == 0.0
    && k.deadline == Some(Lifetime(c.burst, RateOf(c)))
  }

  lemma DrainedKey(c: Config)
    requires Sane(c)
    ensures var es := CallsAt(0, c.burst);
            Pestered(c, KeyAfter(c, es), AfterCalls(FreshLimiter(c), CallsOf(es)), 0)
  {
    var es, init := CallsAt(0, c.burst), CallsAt(0, c.burst - 1);
    assert es[..|es| - 1] == init;
    CallsOfCallsAt(0, c.burst);
    CallsOfCallsAt(0, c.burst - 1);
    FreshIsProper(c, 0);
    RunMirrors(c, FreshLimiter(c), 0, init, 0);
    var k, s := KeyAfter(c, init), AfterCalls(FreshLimiter(c), CallsOf(init));
    GrantedWhenForgotten(c, 0);
    assert UnitCalls(0, c.burst)[..c.burst - 1] == UnitCalls(0, c.burst - 1);
    CallMirrors(c, k, s, LastAllowed(c, init), 0);
    CallStaysInStep(c, k, s, 0);
    DrainedLevel(c);
  }

  lemma OneTickIsNotEnough(c: Config, s: LimiterState, now: Time)
    requires Sane(c) && c.interval > MICROSECOND
    requires Proper(c, s, now) && Level(s) == 0.0 && s.last == now - MICROSECOND
    ensures !Allowed(s, now, 1) && Level(Allow(s, now, 1)) == 0.0 && Allow(s, now, 1).last == now
  {
    FreshIsProper(c, 0);
    assert InNanos(s.limit, 1.0) == c.interval as real;
    LevelGrowsLinearly(s, now);
    AllowInNanos(s, now, 1);
  }

  lemma PesterOnce(c: Config, k: Key, s: LimiterState, now: Time)
    requires Sane(c) && c.interval > MICROSECOND && Pestered(c, k, s, now - MICROSECOND)
    ensures !Allowed(s, now, 1)
    ensures Pestered(c, AfterScript(c.burst, RateOf(c), k, now), Allow(s, now, 1), now)
  {
    TimeStaysInStep(c, k, s, now - MICROSECOND, now);
    OneTickIsNotEnough(c, s, now);
    CallStaysInStep(c, k, s, now);
  }

  lemma {:induction false} PesteringKeepsDeadline(c: Config, k: nat)
    requires Sane(c) && c.interval > MICROSECOND
    ensures var es := DrainAndPester(c.burst, k);
            Pestered(c, KeyAfter(c, es), AfterCalls(FreshLimiter(c), CallsOf(es)), k * MICROSECOND)
  {
    if k == 0 {
      DrainedKey(c);
    } else {
      var es, init := DrainAndPester(c.burst, k), DrainAndPester(c.burst, k - 1);
      assert es[..|es| - 1] == init;
      assert CallsOf(es)[..|CallsOf(es)| - 1] == CallsOf(init);
      PesteringKeepsDeadline(c, k - 1);
      PesterOnce(c, KeyAfter(c, init), AfterCalls(FreshLimiter(c), CallsOf(init)), k * MICROSECOND);
    }
  }

  lemma FreshGrants(c: Config, t: Time)
    requires Sane(c) && 0 <= t
    ensures Allowed(FreshLimiter(c), t, 1) && KeyAllows(c, MISSING, t)
  {
    FreshIsProper(c, t);
    AllowInNanos(FreshLimiter(c), t, 1);
    InNanosIsMonotone(Every(c.interval), c.burst as real, 1.0);
    CallStaysInStep(c, MISSING, FreshLimiter(c), t);
  }

  lemma LifetimeInTicks(c: Config) returns (k: nat)
    requires Sane(c)
    ensures (k + 1) * MICROSECOND == Lifetime(c.burst, RateOf(c)) && OnClock(Lifetime(c.burst, RateOf(c)))
  {
    LifetimeCoversRefill(c);
    k := SecondsInTicks(Lifetime(c.burst, RateOf(c)));
  }

  lemma SecondsInTicks(d: Duration) returns (k: nat)
    requires d >= SECOND && d % SECOND == 0
    ensures (k + 1) * MICROSECOND == d && OnClock(d)
  {
    k := d / SECOND * 1_000_000 - 1;
    assert d == d / SECOND * SECOND;
  }

  // Calls and then a drop at the deadline.
  lemma DropAtDeadline(c: Config, calls: seq<KeyEvent>, deadline: Time)
    requires c.interval > 0 && OnlyCalls(calls) && CallsOnClock(calls) && InOrder(0, calls, deadline)
    requires KeyAfter(c, calls).deadline == Some(deadline)
    ensures var es := calls + [DropAt(deadline)];
            && InOrder(0, es, deadline) && CallsOnClock(es) && Possible(c, es)
            && CallsOf(es) == CallsOf(calls) && KeyAfter(c, es) == MISSING
  {
    var es := calls + [DropAt(deadline)];
    assert es[..|es| - 1] == calls;
    assert forall i | 0 <= i < |calls| :: es[i] == calls[i];
  }

  // A run of the key after which the script grants what a limiter not forgotten refuses.
  ghost predicate Notices(c: Config, es: seq<KeyEvent>, now: Time)
    requires c.interval > 0
  {
    && InOrder(0, es, now) && CallsOnClock(es) && OnClock(now) && Possible(c, es)
    && KeyAllows(c, KeyAfter(c, es), now)
    && !Allowed(AfterCalls(FreshLimiter(c), CallsOf(es)), now, 1)
  }

  lemma PesteredUntil(c: Config, k: nat, deadline: Time)
    requires Sane(c) && c.interval > MICROSECOND
    requires deadline == Lifetime(c.burst, RateOf(c)) && deadline - MICROSECOND == k * MICROSECOND
    ensures var calls := DrainAndPester(c.burst, k);
            && OnlyCalls(calls) && CallsOnClock(calls) && InOrder(0, calls, deadline)
            && KeyAfter(c, calls).deadline == Some(deadline)
            && !Allowed(AfterCalls(FreshLimiter(c), CallsOf(calls)), deadline, 1)
  {
    var calls := DrainAndPester(c.burst, k);
    PesterShape(c.burst, k);
    PesteringKeepsDeadline(c, k);
    PesterOnce(c, KeyAfter(c, calls), AfterCalls(FreshLimiter(c), CallsOf(calls)), deadline);
  }

  lemma DroppedThenNoticed(c: Config, calls: seq<KeyEvent>, deadline: Time)
    requires Sane(c) && OnlyCalls(calls) && CallsOnClock(calls) && InOrder(0, calls, deadline) && OnClock(deadline)
    requires KeyAfter(c, calls).deadline == Some(deadline)
    requires !Allowed(AfterCalls(FreshLimiter(c), CallsOf(calls)), deadline, 1)
    ensures Notices(c, calls + [DropAt(deadline)], deadline)
  {
    DropAtDeadline(c, calls, deadline);
    FreshGrants(c, deadline);
  }

  /** A refusal drains the bucket but does not extend the life of the key: with an interval above
      a microsecond, a run of calls in vain ends in one that the script grants and a limiter
      that is not forgotten refuses. */
  lemma DropAfterRefusalShows(c: Config)
    requires Sane(c) && c.interval > MICROSECOND
    ensures exists es, now :: Notices(c, es, now)
  {
    var k := LifetimeInTicks(c);
    var deadline := Lifetime(c.burst, RateOf(c));
    PesteredUntil(c, k, deadline);
    DroppedThenNoticed(c, DrainAndPester(c.burst, k), deadline);
  }

  /** Drops can be noticed just when a token takes longer than the clock of the script can tell
      apart. */
  lemma DropsGoUnnoticedIff(c: Config)
    requires Sane(c)
    ensures DropsUnnoticed(c) <==> c.interval <= MICROSECOND
  {
    if c.interval <= MICROSECOND {
      forall es, now | InOrder(0, es, now) && CallsOnClock(es) && OnClock(now) && Possible(c, es)
        ensures KeyAllows(c, KeyAfter(c, es), now) == Allowed(AfterCalls(FreshLimiter(c), CallsOf(es)), now, 1)
      {
        TicksMirror(c, es, now);
        CallStaysInStep(c, KeyAfter(c, es), AfterCalls(FreshLimiter(c), CallsOf(es)), now);
      }
    } else {
      DropAfterRefusalShows(c);
      var es, now :| Notices(c, es, now);
    }
  }
}
