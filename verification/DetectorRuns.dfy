/** When forgetting a limiter that was not used for `period` cannot be noticed. */
module DetectorRuns {
  import opened Clock
  import opened Rate
  import opened RateScale
  import opened RateAllow
  import opened MapExp
  import MapExpRuns
  import opened Detector
  import opened Wrappers

  datatype Event =
    | HerdCheck(f: Fingerprint, at: Time, drawAt: Time)
    | CoolCheck(f: Fingerprint, at: Time)
    | CoolDown(f: Fingerprint, at: Time)
    | LimiterPurge(at: Time)
    | CooldownPurge(at: Time)

  function Step(c: Config, d: DetectorState, e: Event): DetectorState {
    match e
    case HerdCheck(f, at, drawAt) => AfterHerdCheck(c, d, f, at, drawAt)
    case CoolCheck(f, at) => AfterCoolCheck(c, d, f, at)
    case CoolDown(f, at) => AfterCoolDown(c, d, f, at)
    case LimiterPurge(at) => AfterLimiterPurge(d, at)
    case CooldownPurge(at) => AfterCooldownPurge(d, at)
  }

  function After(c: Config, es: seq<Event>): DetectorState {
    if es == [] then NewDetector() else Step(c, After(c, es[..|es| - 1]), es[|es| - 1])
  }

  lemma OneMoreEvent(c: Config, es: seq<Event>, e: Event)
    ensures After(c, es + [e]) == Step(c, After(c, es), e)
  {
    assert (es + [e])[..|es|] == es;
  }

  // Events in order of time, none before the zero time and all by `now`.
  ghost predicate Ordered(es: seq<Event>, now: Time) {
    && (forall i, j :: 0 <= i <= j < |es| ==> es[i].at <= es[j].at)
    && (forall i :: 0 <= i < |es| ==> 0 <= es[i].at <= now)
    && 0 <= now
  }

  ghost predicate DrawnBy(f: Fingerprint, es: seq<Event>, now: Time) {
    forall i | 0 <= i < |es| && es[i].HerdCheck? && es[i].f == f :: es[i].drawAt <= now
  }

  /** The herd checks for `f` come one after the other, and draw by `delay` after they looked.
      In the meantime there may be purges, and checks for other fingerprints. */
  ghost predicate Paced(f: Fingerprint, es: seq<Event>, delay: Duration) {
    forall i | 0 <= i < |es| && es[i].HerdCheck? && es[i].f == f ::
      es[i].at <= es[i].drawAt <= es[i].at + delay && DrawnBy(f, es[..i], es[i].at)
  }

  /** The calls for one fingerprint that reach its limiter. */
  function OwnCalls(f: Fingerprint, es: seq<Event>): seq<Call> {
    if es == [] then []
    else
      var e := es[|es| - 1];
      OwnCalls(f, es[..|es| - 1]) + if e.HerdCheck? && e.f == f then [Call(e.drawAt, 1)] else []
  }

  lemma OneMoreOwnCall(f: Fingerprint, es: seq<Event>, e: Event)
    ensures OwnCalls(f, es + [e])
              == OwnCalls(f, es) + if e.HerdCheck? && e.f == f then [Call(e.drawAt, 1)] else []
  {
    assert (es + [e])[..|es|] == es;
  }

  /** A limiter for one fingerprint that is never forgotten. */
  function Remembered(c: Config, f: Fingerprint, es: seq<Event>): LimiterState {
    AfterCalls(FreshLimiter(c), OwnCalls(f, es))
  }

  ghost predicate Sane(c: Config) {
    c.interval > 0 && c.burst >= 1 && c.period > 0
  }

  // The state of a limiter that was only ever asked for single tokens up to `now`.
  ghost predicate Proper(c: Config, s: LimiterState, now: Time) {
    && s.limit == Every(c.interval) && s.burst == c.burst && s.last <= now
    && Sound(s) && OnGrid(s)
  }

  ghost predicate Full(s: LimiterState, now: Time)
    requires Positive(s.limit)
  {
    LevelAt(s, now) == Capacity(s)
  }

  lemma FreshIsProper(c: Config, now: Time)
    requires Sane(c) && 0 <= now
    ensures Proper(c, FreshLimiter(c), now) && Full(FreshLimiter(c), now)
    ensures Period(Every(c.interval)) == c.interval as real
    ensures Capacity(FreshLimiter(c)) == (c.interval * c.burst) as real
  {
    PeriodOfEvery(c.interval);
    IntIsWhole(c.interval);
    FreshIsSound(Every(c.interval), c.burst);
    FreshIsOnGrid(Every(c.interval), c.burst);
    LevelGrowsLinearly(FreshLimiter(c), now);
    assert c.burst as real * c.interval as real == (c.interval * c.burst) as real;
  }

  lemma CapacityIsSettled(c: Config, s: LimiterState)
    requires Sane(c) && s.limit == Every(c.interval) && s.burst == c.burst
    ensures Positive(s.limit) && Capacity(s) == (c.interval * c.burst) as real
  {
    FreshIsProper(c, 0);
  }

  lemma CallStaysProper(c: Config, s: LimiterState, t: Time)
    requires Sane(c) && Proper(c, s, t)
    ensures Proper(c, Allow(s, t, 1), t) && Allow(s, t, 1).last == t
  {
    AllowOne(s, t, 1);
  }

  lemma StaysFull(s: LimiterState, t: Time, u: Time)
    requires Positive(s.limit) && Full(s, t) && s.last <= t <= u
    ensures Full(s, u)
  {
    LevelGrowsLinearly(s, t);
    LevelGrowsLinearly(s, u);
  }

  /** A full limiter cannot be told from a new one. */
  lemma FullIsAsGoodAsNew(c: Config, s: LimiterState, t: Time)
    requires Sane(c) && Proper(c, s, t) && Full(s, t)
    ensures Allow(s, t, 1) == Allow(FreshLimiter(c), t, 1)
    ensures Allowed(s, t, 1) == Allowed(FreshLimiter(c), t, 1)
  {
    InNanosIsMonotone(s.limit, TokensAt(s, t), s.burst as real);
    var unused := FreshLimiter(c);
    assert TokensAt(s, t) == c.burst as real;
    PeriodOfEvery(c.interval);
    assert TokensAt(unused, t) == c.burst as real by {
      LevelGrowsLinearly(unused, t);
      InNanosIsMonotone(unused.limit, TokensAt(unused, t), unused.burst as real);
    }
  }

  lemma IdleLimiterFills(c: Config, s: LimiterState, now: Time)
    requires Sane(c) && Proper(c, s, now) && s.last + c.interval * c.burst <= now
    ensures Full(s, now)
  {
    WholeAboveMinusOne(Level(s));
    LevelGrowsLinearly(s, now);
    CapacityIsSettled(c, s);
  }

  // ---- The cached limiter and the one never forgotten ----

  // Full, and nothing draws from it later than `t`.
  ghost predicate Settled(s: LimiterState, t: Time)
    requires Positive(s.limit)
  {
    s.last <= t && Full(s, t)
  }

  /** How long a limiter must be kept, if a call can draw `delay` after it looked: until it has
      filled again from the worst such a call can leave. */
  function KeepFor(c: Config, delay: Duration): Duration {
    var refill := c.interval * c.burst;
    (if refill < delay then delay else refill) + (if delay < c.interval then delay else c.interval)
  }

  lemma KeptUntilFull(c: Config, s: LimiterState, t: Time, u: Time, delay: Duration)
    requires Sane(c) && Proper(c, s, t) && t <= u <= t + delay && c.period >= KeepFor(c, delay)
    ensures Proper(c, Allow(s, u, 1), u) && Settled(Allow(s, u, 1), t + c.period)
  {
    var s' := Allow(s, u, 1);
    PeriodOfEvery(c.interval);
    assert InNanos(s.limit, 1.0) == c.interval as real;
    WholeAboveMinusOne(Level(s));
    GridLevels(s, u, 1);
    if LevelAfter(s, u, 1) > -1.0 {
      WholeAboveMinusOne(LevelAfter(s, u, 1));
    }
    AllowOne(s, u, 1);
    LevelGrowsLinearly(s, u);
    CapacityIsSettled(c, s);
    CapacityIsSettled(c, s');
    LevelGrowsLinearly(s', t + c.period);
  }

  /** What the cache holds for `f` at `now`, against the limiter that is never forgotten: the
      same one, until that is full, or none, once it is. */
  ghost predicate Tracks(c: Config, d: DetectorState, f: Fingerprint, s: LimiterState, now: Time) {
    && Sane(c) && Proper(c, s, s.last)
    && MapExpRuns.Distinct(d.limiters.queue)
    && (f in d.limiters.items ==>
          && d.limiters.items[f] == s
          && Deadline(d.limiters.queue, f).Some? && Settled(s, Deadline(d.limiters.queue, f).value))
    && (f !in d.limiters.items ==> Settled(s, now))
  }

  // Fetching the limiter of `g` renews its entry and leaves those of others alone.
  lemma FetchQueue(c: Config, d: DetectorState, g: Fingerprint, now: Time, f: Fingerprint)
    requires MapExpRuns.Distinct(d.limiters.queue)
    ensures var q' := AfterFetch(c, d, g, now).limiters.queue;
            && MapExpRuns.Distinct(q')
            && (f != g ==> Deadline(q', f) == Deadline(d.limiters.queue, f))
            && (f == g && (g in d.limiters.items ==> Deadline(d.limiters.queue, g).Some?) ==>
                  Deadline(q', f) == Some(now + c.period))
  {
    var q, expiration := d.limiters.queue, now + c.period;
    if g in d.limiters.items {
      MapExpRuns.StaysDistinct(q, g, expiration);
      MapExpRuns.RenewedDeadline(q, g, expiration, f);
    } else {
      RenewedAndAdded(q, g, expiration, f);
    }
  }

  lemma RenewedAndAdded(q: Queue<Fingerprint>, g: Fingerprint, expiration: Time, f: Fingerprint)
    requires MapExpRuns.Distinct(q)
    ensures var q' := Added(Renewed(q, g, expiration), g, expiration);
            && MapExpRuns.Distinct(q')
            && Deadline(q', f) == if f == g then Some(expiration) else Deadline(q, f)
  {
    MapExpRuns.StaysDistinct(q, g, expiration);
    MapExpRuns.RenewedDeadline(q, g, expiration, f);
    MapExpRuns.StaysDistinct(Renewed(q, g, expiration), g, expiration);
    MapExpRuns.AddedDeadline(Renewed(q, g, expiration), g, expiration, f);
  }

  lemma HerdCheckTracks(c: Config, d: DetectorState, f: Fingerprint, s: LimiterState, t: Time, u: Time, delay: Duration)
    requires Tracks(c, d, f, s, t) && s.last <= t <= u <= t + delay && c.period >= KeepFor(c, delay)
    ensures Tracks(c, AfterHerdCheck(c, d, f, t, u), f, Allow(s, u, 1), t)
    ensures IsHerd(c, d, f, u) == !Allowed(s, u, 1)
  {
    FetchQueue(c, d, f, t, f);
    if f !in d.limiters.items {
      StaysFull(s, t, u);
      FullIsAsGoodAsNew(c, s, u);
    }
    KeptUntilFull(c, s, t, u, delay);
  }

  lemma OtherHerdCheckTracks(c: Config, d: DetectorState, f: Fingerprint, e: Event, s: LimiterState)
    requires e.HerdCheck? && e.f != f && Tracks(c, d, f, s, e.at)
    ensures Tracks(c, Step(c, d, e), f, s, e.at)
  {
    FetchQueue(c, d, e.f, e.at, f);
  }

  lemma PurgeTracks(c: Config, d: DetectorState, f: Fingerprint, s: LimiterState, now: Time)
    requires Tracks(c, d, f, s, now)
    ensures Tracks(c, AfterLimiterPurge(d, now), f, s, now)
  {
    MapExpRuns.PurgedDeadline(d.limiters.queue, now, f);
    if f in d.limiters.items && f in PurgedKeys(d.limiters.queue, now) {
      StaysFull(s, Deadline(d.limiters.queue, f).value, now);
    }
  }

  lemma TimePassesTracks(c: Config, d: DetectorState, f: Fingerprint, s: LimiterState, t: Time, u: Time)
    requires Tracks(c, d, f, s, t) && t <= u
    ensures Tracks(c, d, f, s, u)
  {
    if f !in d.limiters.items {
      StaysFull(s, t, u);
    }
  }

  lemma RememberedStep(c: Config, f: Fingerprint, es: seq<Event>)
    requires es != []
    ensures var init, e := es[..|es| - 1], es[|es| - 1];
            Remembered(c, f, es) == if e.HerdCheck? && e.f == f then Allow(Remembered(c, f, init), e.drawAt, 1)
                                    else Remembered(c, f, init)
  {
    var init, e := es[..|es| - 1], es[|es| - 1];
    if e.HerdCheck? && e.f == f {
      OneMoreCall(FreshLimiter(c), OwnCalls(f, init), Call(e.drawAt, 1));
    } else {
      assert OwnCalls(f, es) == OwnCalls(f, init);
    }
  }

  lemma {:induction false} LastDraw(c: Config, f: Fingerprint, es: seq<Event>, now: Time)
    requires Sane(c) && 0 <= now && DrawnBy(f, es, now)
    ensures Remembered(c, f, es).last <= now
  {
    PeriodOfEvery(c.interval);
    FreshIsSound(Every(c.interval), c.burst);
    RunStaysSound(FreshLimiter(c), OwnCalls(f, es));
    if es != [] {
      var init := es[..|es| - 1];
      assert forall i | 0 <= i < |init| :: init[i] == es[i];
      RunStaysSound(FreshLimiter(c), OwnCalls(f, init));
      LastDraw(c, f, init, now);
    }
  }

  lemma {:induction false} RunTracks(c: Config, es: seq<Event>, f: Fingerprint, now: Time, delay: Duration)
    requires Sane(c) && c.period >= KeepFor(c, delay) && Ordered(es, now) && Paced(f, es, delay)
    ensures Tracks(c, After(c, es), f, Remembered(c, f, es), now)
  {
    if es == [] {
      FreshIsProper(c, now);
      FreshIsProper(c, 0);
    } else {
      var init, e := es[..|es| - 1], es[|es| - 1];
      PacedPrefix(f, es, delay);
      RunTracks(c, init, f, e.at, delay);
      RememberedStep(c, f, es);
      var d, s := After(c, init), Remembered(c, f, init);
      if e.HerdCheck? && e.f == f {
        LastDraw(c, f, init, e.at);
        HerdCheckTracks(c, d, f, s, e.at, e.drawAt, delay);
      } else if e.HerdCheck? {
        OtherHerdCheckTracks(c, d, f, e, s);
      } else if e.LimiterPurge? {
        PurgeTracks(c, d, f, s, e.at);
      }
      TimePassesTracks(c, After(c, es), f, Remembered(c, f, es), e.at, now);
    }
  }

  lemma PacedPrefix(f: Fingerprint, es: seq<Event>, delay: Duration)
    requires es != [] && Paced(f, es, delay)
    ensures Paced(f, es[..|es| - 1], delay)
  {
    var init := es[..|es| - 1];
    assert forall i | 0 <= i < |init| :: init[i] == es[i] && init[..i] == es[..i];
  }

  // A check that looks at `now` and draws at `drawAt` can be the next for `f`.
  ghost predicate CanFollow(f: Fingerprint, es: seq<Event>, now: Time, drawAt: Time, delay: Duration) {
    && Ordered(es, now) && Paced(f, es, delay)
    && DrawnBy(f, es, now) && now <= drawAt <= now + delay
  }

  // The detector answers as a limiter that was `unused` at first and is never forgotten.
  ghost predicate AnswersLike(c: Config, unused: LimiterState, es: seq<Event>, f: Fingerprint, drawAt: Time) {
    IsHerd(c, After(c, es), f, drawAt) == !Allowed(AfterCalls(unused, OwnCalls(f, es)), drawAt, 1)
  }

  ghost predicate AnswersAsRemembered(c: Config, es: seq<Event>, f: Fingerprint, drawAt: Time) {
    AnswersLike(c, FreshLimiter(c), es, f, drawAt)
  }

  ghost predicate AlwaysAnswersLike(c: Config, unused: LimiterState, delay: Duration) {
    forall es, f, now, drawAt | CanFollow(f, es, now, drawAt, delay) :: AnswersLike(c, unused, es, f, drawAt)
  }

  ghost predicate EvictionInvisible(c: Config, delay: Duration) {
    AlwaysAnswersLike(c, FreshLimiter(c), delay)
  }

  lemma AnswersAlike(c: Config, es: seq<Event>, f: Fingerprint, now: Time, drawAt: Time, delay: Duration)
    requires Sane(c) && c.period >= KeepFor(c, delay) && CanFollow(f, es, now, drawAt, delay)
    ensures AnswersAsRemembered(c, es, f, drawAt)
  {
    RunTracks(c, es, f, now, delay);
    LastDraw(c, f, es, now);
    HerdCheckTracks(c, After(c, es), f, Remembered(c, f, es), now, drawAt, delay);
  }

  /** Eviction is invisible: whatever calls came before for whatever fingerprints, and
      whenever the maps were purged, the answer for a fingerprint is that of a limiter of its
      own that was never forgotten, and so depends on its own call times alone. That holds if
      limiters are kept for `KeepFor` at least, and if they are kept for any less it does not. */
  lemma EvictionIsInvisibleIff(c: Config, delay: Duration)
    requires Sane(c) && delay >= 0
    ensures EvictionInvisible(c, delay) <==> c.period >= KeepFor(c, delay)
  {
    if c.period >= KeepFor(c, delay) {
      forall es, f, now, drawAt | CanFollow(f, es, now, drawAt, delay)
        ensures AnswersLike(c, FreshLimiter(c), es, f, drawAt)
      {
        AnswersAlike(c, es, f, now, drawAt, delay);
      }
    } else {
      ShortPeriodShows(c, delay);
    }
  }

  /** The detector made for an interval and a burst: for every fingerprint it answers like a
      limiter of its own for that interval and burst, in all runs, just when no time passes between
      the two readings of the clock. */
  lemma EvictionIsInvisible(interval: Duration, burst: int, cooldown: Duration, delay: Duration)
    requires interval > 0 && burst >= 1 && delay >= 0
    ensures AlwaysAnswersLike(NewConfig(interval, burst, cooldown), NewLimiter(Every(interval), burst), delay)
            <==> delay == 0
  {
    var c := NewConfig(interval, burst, cooldown);
    assert interval * burst > 0;
    EvictionIsInvisibleIff(c, delay);
  }

  // ---- As long as a limiter is in use ----

  // When `f` was last looked for.
  function LastLook(f: Fingerprint, es: seq<Event>): Option<Time> {
    if es == [] then None
    else
      var e := es[|es| - 1];
      if e.HerdCheck? && e.f == f then Some(e.at) else LastLook(f, es[..|es| - 1])
  }

  // Less than `period` has passed since `f` was last looked for, if it was.
  predicate InUse(f: Fingerprint, es: seq<Event>, now: Time, period: Duration) {
    LastLook(f, es).Some? ==> now - LastLook(f, es).value < period
  }

  // It was never out of use.
  predicate KeptInUse(f: Fingerprint, es: seq<Event>, period: Duration) {
    es == [] ||
    var init, e := es[..|es| - 1], es[|es| - 1];
    KeptInUse(f, init, period) && (e.HerdCheck? && e.f == f ==> InUse(f, init, e.at, period))
  }

  /** What the cache holds for `f` at `now`, while it is in use. */
  ghost predicate Holds(c: Config, d: DetectorState, f: Fingerprint, s: LimiterState, look: Option<Time>, now: Time) {
    && MapExpRuns.Distinct(d.limiters.queue)
    && (look.None? ==> f !in d.limiters.items && s == FreshLimiter(c))
    && (look.Some? && now - look.value < c.period ==>
          && f in d.limiters.items && d.limiters.items[f] == s
          && Deadline(d.limiters.queue, f) == Some(look.value + c.period))
  }

  lemma HerdCheckHolds(c: Config, d: DetectorState, f: Fingerprint, s: LimiterState, look: Option<Time>, e: Event)
    requires e.HerdCheck? && Holds(c, d, f, s, look, e.at)
    requires e.f == f && look.Some? ==> e.at - look.value < c.period
    ensures if e.f == f then Holds(c, Step(c, d, e), f, Allow(s, e.drawAt, 1), Some(e.at), e.at)
            else Holds(c, Step(c, d, e), f, s, look, e.at)
  {
    FetchQueue(c, d, e.f, e.at, f);
  }

  lemma PurgeHolds(c: Config, d: DetectorState, f: Fingerprint, s: LimiterState, look: Option<Time>, now: Time)
    requires Holds(c, d, f, s, look, now)
    ensures Holds(c, AfterLimiterPurge(d, now), f, s, look, now)
  {
    MapExpRuns.PurgedDeadline(d.limiters.queue, now, f);
  }

  lemma StepHolds(c: Config, d: DetectorState, f: Fingerprint, s: LimiterState, look: Option<Time>, e: Event)
    requires Holds(c, d, f, s, look, e.at)
    requires e.HerdCheck? && e.f == f && look.Some? ==> e.at - look.value < c.period
    ensures if e.HerdCheck? && e.f == f then Holds(c, Step(c, d, e), f, Allow(s, e.drawAt, 1), Some(e.at), e.at)
            else Holds(c, Step(c, d, e), f, s, look, e.at)
  {
    if e.HerdCheck? {
      HerdCheckHolds(c, d, f, s, look, e);
    } else if e.LimiterPurge? {
      PurgeHolds(c, d, f, s, look, e.at);
    }
  }

  lemma {:induction false} RunHolds(c: Config, es: seq<Event>, f: Fingerprint, now: Time)
    requires Ordered(es, now) && KeptInUse(f, es, c.period)
    ensures Holds(c, After(c, es), f, Remembered(c, f, es), LastLook(f, es), now)
  {
    if es != [] {
      var init, e := es[..|es| - 1], es[|es| - 1];
      RunHolds(c, init, f, e.at);
      RememberedStep(c, f, es);
      StepHolds(c, After(c, init), f, Remembered(c, f, init), LastLook(f, init), e);
    }
  }

  /** A limiter in use is never forgotten: as long as a fingerprint is looked for at gaps below the
      period, its answers are those of a limiter of its own, whatever the period, and however
      late its calls draw. */
  lemma InUseIsNotForgotten(c: Config, es: seq<Event>, f: Fingerprint, now: Time, drawAt: Time)
    requires Ordered(es, now) && KeptInUse(f, es, c.period) && InUse(f, es, now, c.period)
    ensures AnswersAsRemembered(c, es, f, drawAt)
  {
    RunHolds(c, es, f, now);
  }

  // ---- What a purge forgets ----

  // Every limiter has an entry, which runs out a period after the latest look at most.
  ghost predicate Accounted(c: Config, d: DetectorState, latest: Time) {
    && MapExpRuns.Distinct(d.limiters.queue)
    && MapExpRuns.EndsBy(d.limiters.queue, latest + c.period)
    && forall g | g in d.limiters.items :: Deadline(d.limiters.queue, g).Some?
  }

  lemma HerdCheckAccounted(c: Config, d: DetectorState, e: Event, latest: Time)
    requires e.HerdCheck? && latest <= e.at && Accounted(c, d, latest)
    ensures Accounted(c, Step(c, d, e), e.at)
  {
    var q, expiration := d.limiters.queue, e.at + c.period;
    MapExpRuns.StaysBounded(q, e.f, expiration);
    MapExpRuns.StaysBounded(Renewed(q, e.f, expiration), e.f, expiration);
    forall g
      ensures g in Step(c, d, e).limiters.items ==> Deadline(Step(c, d, e).limiters.queue, g).Some?
      ensures MapExpRuns.Distinct(Step(c, d, e).limiters.queue)
    {
      FetchQueue(c, d, e.f, e.at, g);
    }
  }

  lemma PurgedKeyAccounted(d: DetectorState, now: Time, g: Fingerprint)
    requires MapExpRuns.Distinct(d.limiters.queue)
    requires g in d.limiters.items ==> Deadline(d.limiters.queue, g).Some?
    ensures var d' := AfterLimiterPurge(d, now);
            g in d'.limiters.items ==> Deadline(d'.limiters.queue, g).Some?
  {
    MapExpRuns.PurgedDeadline(d.limiters.queue, now, g);
  }

  lemma PurgedEndsBy(q: Queue<Fingerprint>, now: Time, latest: Time)
    requires MapExpRuns.Distinct(q) && MapExpRuns.EndsBy(q, latest)
    ensures MapExpRuns.Distinct(Purged(q, now)) && MapExpRuns.EndsBy(Purged(q, now), latest)
  {
  }

  lemma PurgeAccounted(c: Config, d: DetectorState, now: Time, latest: Time)
    requires Accounted(c, d, latest)
    ensures Accounted(c, AfterLimiterPurge(d, now), latest)
  {
    var d' := AfterLimiterPurge(d, now);
    PurgedEndsBy(d.limiters.queue, now, latest + c.period);
    forall g | g in d'.limiters.items
      ensures Deadline(d'.limiters.queue, g).Some?
    {
      PurgedKeyAccounted(d, now, g);
    }
  }

  lemma {:induction false} RunAccounted(c: Config, es: seq<Event>, latest: Time)
    requires forall i, j :: 0 <= i <= j < |es| ==> es[i].at <= es[j].at
    requires forall i | 0 <= i < |es| && es[i].HerdCheck? :: es[i].at <= latest
    ensures Accounted(c, After(c, es), latest)
  {
    if es != [] {
      var init, e := es[..|es| - 1], es[|es| - 1];
      assert forall i | 0 <= i < |init| :: init[i] == es[i] && es[i].at <= e.at;
      if e.HerdCheck? {
        RunAccounted(c, init, e.at);
        HerdCheckAccounted(c, After(c, init), e, e.at);
      } else {
        RunAccounted(c, init, latest);
        if e.LimiterPurge? {
          PurgeAccounted(c, After(c, init), e.at, latest);
        }
      }
    }
  }

  /** A purge forgets a limiter just when its entry and all entries before it have run out, and
      keeps the others as they are. */
  lemma PurgeForgetsIff(c: Config, es: seq<Event>, f: Fingerprint, now: Time, latest: Time)
    requires forall i, j :: 0 <= i <= j < |es| ==> es[i].at <= es[j].at
    requires forall i | 0 <= i < |es| && es[i].HerdCheck? :: es[i].at <= latest
    ensures var d := After(c, es);
            var d' := AfterLimiterPurge(d, now);
            && Lookup(d'.limiters, f)
               == (if MapExpRuns.Reached(d.limiters.queue, f, now) then None else Lookup(d.limiters, f))
            && d'.cooldowns == d.cooldowns
  {
    RunAccounted(c, es, latest);
    MapExpRuns.PurgeRemovesIff(After(c, es).limiters, now, f);
  }

  /** So a purge that comes a period or more after the latest look leaves no limiter. */
  lemma IdleCacheEmpties(c: Config, es: seq<Event>, f: Fingerprint, now: Time)
    requires forall i, j :: 0 <= i <= j < |es| ==> es[i].at <= es[j].at
    requires forall i | 0 <= i < |es| && es[i].HerdCheck? :: es[i].at + c.period <= now
    ensures f !in AfterLimiterPurge(After(c, es), now).limiters.items
  {
    RunAccounted(c, es, now - c.period);
    AccountedEmpties(c, After(c, es), f, now);
  }

  lemma AccountedEmpties(c: Config, d: DetectorState, f: Fingerprint, now: Time)
    requires Accounted(c, d, now - c.period)
    ensures f !in AfterLimiterPurge(d, now).limiters.items
  {
    MapExpRuns.PurgeRemovesIff(d.limiters, now, f);
    if f in d.limiters.items {
      MapExpRuns.AllReached(d.limiters.queue, f, now);
    }
  }

  // ---- A shorter period shows ----

  function Repeat(f: Fingerprint, at: Time, k: nat): seq<Event> {
    seq(k, _ => HerdCheck(f, at, at))
  }

  // The detector knows this one limiter.
  predicate Only(d: DetectorState, f: Fingerprint, s: LimiterState, expiration: Time) {
    d.limiters == MapState(map[f := s], [Item(f, expiration)]) && d.cooldowns == EmptyMap()
  }

  lemma FirstCheck(c: Config, f: Fingerprint, at: Time, drawAt: Time)
    ensures Only(AfterHerdCheck(c, NewDetector(), f, at, drawAt), f, Allow(FreshLimiter(c), drawAt, 1), at + c.period)
  {
  }

  lemma NextCheck(c: Config, d: DetectorState, f: Fingerprint, s: LimiterState, at: Time, drawAt: Time)
    requires Only(d, f, s, at + c.period)
    ensures Only(AfterHerdCheck(c, d, f, at, drawAt), f, Allow(s, drawAt, 1), at + c.period)
  {
    var q := d.limiters.queue;
    assert Renewed(q, f, at + c.period) == [Item(f, at + c.period)];
  }

  lemma CheckOnly(c: Config, d: DetectorState, f: Fingerprint, s: LimiterState, at: Time, first: bool)
    requires if first then d == NewDetector() && s == FreshLimiter(c) else Only(d, f, s, at + c.period)
    ensures Only(AfterHerdCheck(c, d, f, at, at), f, Allow(s, at, 1), at + c.period)
  {
    if first {
      FirstCheck(c, f, at, at);
    } else {
      NextCheck(c, d, f, s, at, at);
    }
  }

  // On a detector as new, `k` calls at once for one fingerprint concern its limiter only.
  lemma {:induction false} RepeatFromNew(c: Config, es: seq<Event>, f: Fingerprint, at: Time, k: nat)
    requires After(c, es) == NewDetector()
    ensures var d := After(c, es + Repeat(f, at, k));
            var s := AfterCalls(FreshLimiter(c), UnitCalls(at, k));
            && (if k == 0 then d == NewDetector() else Only(d, f, s, at + c.period))
            && LimiterFor(c, d, f) == s
  {
    if k == 0 {
      assert es + Repeat(f, at, k) == es;
    } else {
      var earlier, calls := es + Repeat(f, at, k - 1), UnitCalls(at, k - 1);
      assert es + Repeat(f, at, k) == earlier + [HerdCheck(f, at, at)];
      assert UnitCalls(at, k) == calls + [Call(at, 1)];
      RepeatFromNew(c, es, f, at, k - 1);
      OneMoreEvent(c, earlier, HerdCheck(f, at, at));
      OneMoreCall(FreshLimiter(c), calls, Call(at, 1));
      CheckOnly(c, After(c, earlier), f, AfterCalls(FreshLimiter(c), calls), at, k == 1);
    }
  }

  lemma {:induction false} OwnCallsRepeat(es: seq<Event>, f: Fingerprint, at: Time, k: nat)
    ensures OwnCalls(f, es + Repeat(f, at, k)) == OwnCalls(f, es) + UnitCalls(at, k)
  {
    var run := es + Repeat(f, at, k);
    if k == 0 {
      assert run == es;
    } else {
      assert run[..|run| - 1] == es + Repeat(f, at, k - 1);
      OwnCallsRepeat(es, f, at, k - 1);
    }
  }

  /** `k` calls at one instant: as long as there is enough they are granted, and what they
      leave is no more than what was there less their cost, or nothing. */
  lemma {:induction false} DrawMany(c: Config, s: LimiterState, t: Time, k: nat)
    requires Sane(c) && Proper(c, s, t)
    ensures var s' := AfterCalls(s, UnitCalls(t, k));
            var left := LevelAt(s, t) - InNanos(s.limit, k as real);
            && Proper(c, s', t)
            && (left >= 0.0 ==> LevelAt(s', t) == left)
            && (LevelAt(s', t) <= left || LevelAt(s', t) <= 0.0)
  {
    InNanosIsMonotone(s.limit, 0.0, 0.0);
    if k > 0 {
      assert UnitCalls(t, k)[..k - 1] == UnitCalls(t, k - 1);
      DrawMany(c, s, t, k - 1);
      var before := AfterCalls(s, UnitCalls(t, k - 1));
      CallStaysProper(c, before, t);
      AllowInNanos(before, t, 1);
      LevelGrowsLinearly(before, t);
      LevelGrowsLinearly(Allow(before, t, 1), t);
      InNanosAdds(s.limit, (k - 1) as real, 1.0);
      InNanosIsMonotone(s.limit, 0.0, 1.0);
      InNanosIsMonotone(s.limit, 0.0, s.burst as real);
    }
  }

  lemma PurgeOnly(d: DetectorState, f: Fingerprint, s: LimiterState, expiration: Time)
    requires Only(d, f, s, expiration)
    ensures AfterLimiterPurge(d, expiration) == NewDetector()
  {
    var m := d.limiters;
    assert PurgedKeys(m.queue, expiration) == [f];
    assert AfterPurge(m, expiration).items == map[];
  }

  /** Drain the bucket and call once more, drawing late; let it be forgotten too early, and ask
      for all of it again but for one token. */
  ghost function LateAndPurged(c: Config, f: Fingerprint, delay: Duration): seq<Event>
    requires Sane(c)
  {
    Repeat(f, 0, c.burst) + [HerdCheck(f, 0, delay)] + [LimiterPurge(c.period)]
  }

  ghost function Back(c: Config, delay: Duration): Time {
    if c.period < delay then delay else c.period
  }

  ghost function DrainTwice(c: Config, f: Fingerprint, delay: Duration): seq<Event>
    requires Sane(c)
  {
    LateAndPurged(c, f, delay) + Repeat(f, Back(c, delay), c.burst - 1)
  }

  lemma OnlyAfterDrain(c: Config, f: Fingerprint, delay: Duration)
    requires Sane(c)
    ensures var drained := AfterCalls(FreshLimiter(c), UnitCalls(0, c.burst));
            Only(After(c, Repeat(f, 0, c.burst) + [HerdCheck(f, 0, delay)]), f, Allow(drained, delay, 1), c.period)
  {
    var drain := Repeat(f, 0, c.burst);
    OneMoreEvent(c, drain, HerdCheck(f, 0, delay));
    assert [] + drain == drain;
    RepeatFromNew(c, [], f, 0, c.burst);
    NextCheck(c, After(c, drain), f, AfterCalls(FreshLimiter(c), UnitCalls(0, c.burst)), 0, delay);
  }

  lemma NewAfterPurge(c: Config, f: Fingerprint, delay: Duration)
    requires Sane(c)
    ensures After(c, LateAndPurged(c, f, delay)) == NewDetector()
  {
    var late := Repeat(f, 0, c.burst) + [HerdCheck(f, 0, delay)];
    OnlyAfterDrain(c, f, delay);
    PurgeOnly(After(c, late), f, Allow(AfterCalls(FreshLimiter(c), UnitCalls(0, c.burst)), delay, 1), c.period);
    OneMoreEvent(c, late, LimiterPurge(c.period));
  }

  lemma ForgetfulGrants(c: Config, f: Fingerprint, delay: Duration)
    requires Sane(c) && delay >= 0
    ensures !IsHerd(c, After(c, DrainTwice(c, f, delay)), f, Back(c, delay))
  {
    NewAfterPurge(c, f, delay);
    RepeatFromNew(c, LateAndPurged(c, f, delay), f, Back(c, delay), c.burst - 1);
    GrantedWhenForgotten(c, Back(c, delay));
  }

  lemma CallsOfDrain(c: Config, f: Fingerprint, delay: Duration)
    requires Sane(c)
    ensures OwnCalls(f, LateAndPurged(c, f, delay)) == UnitCalls(0, c.burst) + [Call(delay, 1)]
  {
    var drain := Repeat(f, 0, c.burst);
    OwnCallsRepeat([], f, 0, c.burst);
    assert [] + drain == drain && OwnCalls(f, []) == [];
    OneMoreOwnCall(f, drain, HerdCheck(f, 0, delay));
    OneMoreOwnCall(f, drain + [HerdCheck(f, 0, delay)], LimiterPurge(c.period));
  }

  lemma RememberedDrain(c: Config, f: Fingerprint, delay: Duration)
    requires Sane(c)
    ensures var drained := AfterCalls(FreshLimiter(c), UnitCalls(0, c.burst));
            Remembered(c, f, DrainTwice(c, f, delay))
              == AfterCalls(Allow(drained, delay, 1), UnitCalls(Back(c, delay), c.burst - 1))
  {
    CallsOfDrain(c, f, delay);
    OwnCallsRepeat(LateAndPurged(c, f, delay), f, Back(c, delay), c.burst - 1);
    var first, second := UnitCalls(0, c.burst) + [Call(delay, 1)], UnitCalls(Back(c, delay), c.burst - 1);
    assert (first + second)[..c.burst + 1] == first && (first + second)[c.burst + 1..] == second;
    AfterCallsSplits(FreshLimiter(c), first + second, c.burst + 1);
    OneMoreCall(FreshLimiter(c), UnitCalls(0, c.burst), Call(delay, 1));
  }

  lemma DrainedLevel(c: Config)
    requires Sane(c)
    ensures var s := AfterCalls(FreshLimiter(c), UnitCalls(0, c.burst));
            s.limit == Every(c.interval) && Positive(s.limit) && Level(s) == 0.0 && s.last == 0
  {
    var init := UnitCalls(0, c.burst - 1);
    assert UnitCalls(0, c.burst)[..c.burst - 1] == init;
    FreshIsProper(c, 0);
    DrawMany(c, FreshLimiter(c), 0, c.burst - 1);
    var s := AfterCalls(FreshLimiter(c), init);
    GrantedWhenForgotten(c, 0);
    AllowInNanos(s, 0, 1);
    InNanosAdds(s.limit, (c.burst - 1) as real, 1.0);
  }

  lemma DrainedLater(c: Config, delay: Duration)
    requires Sane(c) && delay >= 0
    ensures var s := Allow(AfterCalls(FreshLimiter(c), UnitCalls(0, c.burst)), delay, 1);
            var refill := c.interval * c.burst;
            var filled := if refill < delay then refill else delay;
            && Proper(c, s, delay) && s.last == delay
            && Level(s) == (if filled < c.interval then 0 else filled - c.interval) as real
  {
    var drained := AfterCalls(FreshLimiter(c), UnitCalls(0, c.burst));
    FreshIsProper(c, 0);
    DrawMany(c, FreshLimiter(c), 0, c.burst);
    DrainedLevel(c);
    CapacityIsSettled(c, drained);
    assert InNanos(drained.limit, 1.0) == c.interval as real;
    AllowOne(drained, delay, 1);
  }

  /** Of `filled` at `delay` a token was drawn; it is not full at `back`, `refill` being full. */
  lemma StillShort(s: LimiterState, refill: int, interval: Duration, delay: Duration, period: Duration, back: Time)
    requires Positive(s.limit) && Capacity(s) == refill as real && s.last == delay
    requires 0 < interval <= refill && delay >= 0
    requires period < (if refill < delay then delay else refill) + if delay < interval then delay else interval
    requires back == if period < delay then delay else period
    requires var filled := if refill < delay then refill else delay;
             Level(s) == (if filled < interval then 0 else filled - interval) as real
    ensures !Full(s, back)
  {
    var filled := if refill < delay then refill else delay;
    var left := if filled < interval then 0 else filled - interval;
    assert left + (back - delay) < refill;
    LevelGrowsLinearly(s, back);
  }

  lemma RefillTakesAnInterval(interval: Duration, burst: int)
    requires interval > 0 && burst >= 1
    ensures interval <= interval * burst
  {
  }

  lemma StaysProper(c: Config, s: LimiterState, t: Time, u: Time)
    requires Proper(c, s, t) && t <= u
    ensures Proper(c, s, u)
  {
  }

  lemma NotFullAt(c: Config, s: LimiterState, refill: int, delay: Duration)
    requires Sane(c) && delay >= 0 && Proper(c, s, delay) && s.last == delay
    requires refill == c.interval * c.burst && c.period < KeepFor(c, delay)
    requires var filled := if refill < delay then refill else delay;
             Level(s) == (if filled < c.interval then 0 else filled - c.interval) as real
    ensures !Full(s, Back(c, delay))
  {
    RefillTakesAnInterval(c.interval, c.burst);
    CapacityIsSettled(c, s);
    StillShort(s, refill, c.interval, delay, c.period, Back(c, delay));
  }

  // The late draw leaves less than a bucket that would be full in time.
  lemma NotFullYet(c: Config, delay: Duration)
    requires Sane(c) && delay >= 0 && c.period < KeepFor(c, delay)
    ensures var s := Allow(AfterCalls(FreshLimiter(c), UnitCalls(0, c.burst)), delay, 1);
            Proper(c, s, Back(c, delay)) && !Full(s, Back(c, delay))
  {
    var s := Allow(AfterCalls(FreshLimiter(c), UnitCalls(0, c.burst)), delay, 1);
    DrainedLater(c, delay);
    NotFullAt(c, s, c.interval * c.burst, delay);
    StaysProper(c, s, delay, Back(c, delay));
  }

  lemma RememberingRefuses(c: Config, f: Fingerprint, delay: Duration)
    requires Sane(c) && delay >= 0 && c.period < KeepFor(c, delay)
    ensures !Allowed(Remembered(c, f, DrainTwice(c, f, delay)), Back(c, delay), 1)
  {
    RememberedDrain(c, f, delay);
    NotFullYet(c, delay);
    NotFullRefuses(c, Allow(AfterCalls(FreshLimiter(c), UnitCalls(0, c.burst)), delay, 1), Back(c, delay));
  }

  lemma DrainTwiceCanBe(c: Config, f: Fingerprint, delay: Duration)
    requires Sane(c) && delay >= 0
    ensures CanFollow(f, DrainTwice(c, f, delay), Back(c, delay), Back(c, delay), delay)
  {
    var es, b := DrainTwice(c, f, delay), c.burst;
    assert forall i | 0 <= i < |es| ::
      es[i] == if i < b then HerdCheck(f, 0, 0)
               else if i == b then HerdCheck(f, 0, delay)
               else if i == b + 1 then LimiterPurge(c.period)
               else HerdCheck(f, Back(c, delay), Back(c, delay));
  }

  lemma ShortPeriodShows(c: Config, delay: Duration)
    requires Sane(c) && delay >= 0 && c.period < KeepFor(c, delay)
    ensures !EvictionInvisible(c, delay)
  {
    var es := DrainTwice(c, "", delay);
    ForgetfulGrants(c, "", delay);
    RememberingRefuses(c, "", delay);
    DrainTwiceCanBe(c, "", delay);
    assert !AnswersAsRemembered(c, es, "", Back(c, delay));
  }

  lemma WholeBelowZero(x: real)
    requires Whole(x) && x < 0.0
    ensures x <= -1.0
  {
    var k :| x == AsReal(k);
    assert k < 0;
  }

  lemma NotFullRefuses(c: Config, s: LimiterState, t: Time)
    requires Sane(c) && Proper(c, s, t) && !Full(s, t)
    ensures !Allowed(AfterCalls(s, UnitCalls(t, c.burst - 1)), t, 1)
  {
    LevelGrowsLinearly(s, t);
    DrawMany(c, s, t, c.burst - 1);
    var s' := AfterCalls(s, UnitCalls(t, c.burst - 1));
    InNanosAdds(s.limit, (c.burst - 1) as real, 1.0);
    InNanosIsMonotone(s.limit, 0.0, 1.0);
    GridLevels(s', t, 1);
    WholeBelowZero(LevelAfter(s', t, 1));
    AllowInNanos(s', t, 1);
  }

  lemma GrantedWhenForgotten(c: Config, t: Time)
    requires Sane(c) && 0 <= t
    ensures Allowed(AfterCalls(FreshLimiter(c), UnitCalls(t, c.burst - 1)), t, 1)
  {
    FreshIsProper(c, t);
    DrawMany(c, FreshLimiter(c), t, c.burst - 1);
    var s := AfterCalls(FreshLimiter(c), UnitCalls(t, c.burst - 1));
    InNanosAdds(s.limit, (c.burst - 1) as real, 1.0);
    InNanosIsMonotone(s.limit, 0.0, 1.0);
    AllowInNanos(s, t, 1);
  }
}
