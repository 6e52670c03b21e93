/** A sustained herd elects one leader. */
module HerdElection {
  import opened Clock
  import opened Rate
  import opened RateScale
  import RateAllow
  import RatePenalty
  import opened Detector
  import DetectorRuns
  import opened Anicetus
  import opened AnicetusRuns
  import opened Wrappers

  // ---- One limiter, asked for single tokens ----

  ghost predicate Singles(calls: seq<Call>) {
    forall i | 0 <= i < |calls| :: calls[i].n == 1
  }

  // Calls follow each other by less than `interval`.
  ghost predicate Sustained(calls: seq<Call>, interval: Duration) {
    forall i | 1 <= i < |calls| :: calls[i].at - calls[i - 1].at < interval
  }

  // The first call that is refused, or the number of calls.
  function FirstRefusal(s: LimiterState, calls: seq<Call>): (k: nat)
    ensures k <= |calls|
  {
    if calls == [] then 0
    else
      var last := |calls| - 1;
      var k := FirstRefusal(s, calls[..last]);
      if k < last then k else if RateAllow.Granted(s, calls, last) then |calls| else last
  }

  lemma {:induction false} FirstRefusalIsFirst(s: LimiterState, calls: seq<Call>)
    ensures var k := FirstRefusal(s, calls);
            && (forall i | 0 <= i < k :: RateAllow.Granted(s, calls, i))
            && (k < |calls| ==> !RateAllow.Granted(s, calls, k))
  {
    if calls != [] {
      var last := |calls| - 1;
      FirstRefusalIsFirst(s, calls[..last]);
      assert forall i | 0 <= i < last :: calls[..last][..i] == calls[..i];
      assert forall i | 0 <= i < last :: RateAllow.Granted(s, calls[..last], i) == RateAllow.Granted(s, calls, i);
    }
  }

  lemma FirstRefusalOfPrefix(s: LimiterState, calls: seq<Call>)
    requires calls != []
    ensures var last := |calls| - 1;
            var k := FirstRefusal(s, calls[..last]);
            FirstRefusal(s, calls)
              == if k < last then k else if RateAllow.Granted(s, calls, last) then |calls| else last
  {
  }

  lemma {:induction false} GrantedInPrefix(s: LimiterState, calls: seq<Call>, k: nat)
    requires k <= FirstRefusal(s, calls) && Singles(calls)
    ensures RateAllow.TokensGranted(s, calls[..k]) == k
  {
    if k > 0 {
      FirstRefusalIsFirst(s, calls);
      GrantedInPrefix(s, calls, k - 1);
      assert calls[..k][..k - 1] == calls[..k - 1];
      assert RateAllow.Granted(s, calls, k - 1);
      assert RateAllow.Granted(s, calls[..k], k - 1) == RateAllow.Granted(s, calls, k - 1);
    }
  }

  // Sound calls of single tokens on a limiter made for the configuration.
  ghost predicate Steady(c: Config, calls: seq<Call>) {
    DetectorRuns.Sane(c) && Singles(calls) && RateAllow.Ordered(FreshLimiter(c), calls)
  }

  lemma FreshFacts(c: Config)
    requires DetectorRuns.Sane(c)
    ensures RateAllow.Sound(FreshLimiter(c)) && OnGrid(FreshLimiter(c))
    ensures Level(FreshLimiter(c)) == Capacity(FreshLimiter(c))
    ensures Period(Every(c.interval)) == c.interval as real
  {
    DetectorRuns.FreshIsProper(c, 0);
    RateAllow.FreshIsSound(Every(c.interval), c.burst);
  }

  lemma EarlyCallIsGranted(s: LimiterState, t: Time, k: nat)
    requires RateAllow.Sound(s) && s.last <= t && k < s.burst
    requires Level(s) >= Capacity(s) - InNanos(s.limit, k as real)
    ensures Allowed(s, t, 1)
    ensures var s' := Allow(s, t, 1);
            s'.limit == s.limit && s'.burst == s.burst
            && Level(s') >= Capacity(s) - InNanos(s.limit, (k + 1) as real)
  {
    RateAllow.AllowOne(s, t, 1);
    InNanosAdds(s.limit, k as real, 1.0);
    InNanosIsMonotone(s.limit, s.burst as real, (k + 1) as real);
    InNanosIsMonotone(s.limit, k as real, 0.0);
  }

  // Granted calls leave the bucket short of no more than what they took.
  lemma {:induction false} FewCallsAreGranted(c: Config, calls: seq<Call>)
    requires Steady(c, calls) && |calls| <= c.burst
    ensures FirstRefusal(FreshLimiter(c), calls) == |calls|
    ensures var s := RateAllow.AfterCalls(FreshLimiter(c), calls);
            && s.limit == Every(c.interval) && s.burst == c.burst && RateAllow.Sound(s)
            && Level(s) >= Capacity(s) - InNanos(s.limit, |calls| as real)
  {
    var s := FreshLimiter(c);
    FreshFacts(c);
    RateAllow.RunStaysSound(s, calls);
    if calls == [] {
      InNanosIsMonotone(s.limit, 0.0, 0.0);
    } else {
      var last := |calls| - 1;
      RateAllow.RunStaysSound(s, calls[..last]);
      FewCallsAreGranted(c, calls[..last]);
      FirstRefusalOfPrefix(s, calls);
      EarlyCallIsGranted(RateAllow.AfterCalls(s, calls[..last]), calls[last].at, last);
    }
  }

  lemma GrantedPrefixLasts(s: LimiterState, calls: seq<Call>, m: nat)
    requires m <= |calls| && FirstRefusal(s, calls[..m]) == m
    ensures FirstRefusal(s, calls) >= m
  {
    FirstRefusalIsFirst(s, calls);
    FirstRefusalIsFirst(s, calls[..m]);
    forall i | 0 <= i < m
      ensures RateAllow.Granted(s, calls, i)
    {
      assert calls[..m][..i] == calls[..i];
      assert RateAllow.Granted(s, calls[..m], i);
    }
  }

  lemma AtLeastTheBurst(c: Config, calls: seq<Call>)
    requires Steady(c, calls)
    ensures FirstRefusal(FreshLimiter(c), calls) >= if |calls| < c.burst then |calls| else c.burst
  {
    var early := if |calls| < c.burst then |calls| else c.burst;
    FewCallsAreGranted(c, calls[..early]);
    GrantedPrefixLasts(FreshLimiter(c), calls, early);
  }

  lemma NanosOfTokens(c: Config, k: int)
    requires c.interval > 0 && Positive(Every(c.interval))
    ensures InNanos(Every(c.interval), k as real) == (k * c.interval) as real
  {
    PeriodOfEvery(c.interval);
    assert k as real * c.interval as real == (k * c.interval) as real;
  }

  lemma GrantedWithinBound(c: Config, calls: seq<Call>, k: nat)
    requires Steady(c, calls) && 0 < k <= FirstRefusal(FreshLimiter(c), calls)
    ensures Positive(Every(c.interval))
    ensures InNanos(Every(c.interval), k as real)
              <= InNanos(Every(c.interval), c.burst as real) + (calls[k - 1].at - calls[0].at) as real
  {
    FreshFacts(c);
    GrantedInPrefix(FreshLimiter(c), calls, k);
    RateAllow.WholeRunIsBounded(FreshLimiter(c), calls[..k]);
  }

  lemma AtMostWhatAccrues(c: Config, calls: seq<Call>, k: nat)
    requires Steady(c, calls) && 0 < k <= FirstRefusal(FreshLimiter(c), calls)
    ensures (k - c.burst) * c.interval <= calls[k - 1].at - calls[0].at
  {
    GrantedWithinBound(c, calls, k);
    InNanosAdds(Every(c.interval), k as real, c.burst as real);
    NanosOfTokens(c, k - c.burst);
    assert (k - c.burst) as real == k as real - c.burst as real;
  }

  /** How many calls are let through before the first refusal: the burst at least, and at most
      the burst and one more for each full `interval` between the first and the last of them. */
  ghost predicate WithinBounds(interval: Duration, burst: int, calls: seq<Call>, k: int)
    requires 0 <= k <= |calls|
  {
    && k >= (if |calls| < burst then |calls| else burst)
    && (k > 0 ==> (k - burst) * interval <= calls[k - 1].at - calls[0].at)
  }

  lemma GrantsBeforeRefusal(c: Config, calls: seq<Call>)
    requires Steady(c, calls)
    ensures WithinBounds(c.interval, c.burst, calls, FirstRefusal(FreshLimiter(c), calls))
  {
    AtLeastTheBurst(c, calls);
    if FirstRefusal(FreshLimiter(c), calls) > 0 {
      AtMostWhatAccrues(c, calls, FirstRefusal(FreshLimiter(c), calls));
    }
  }

  // Once a sustained run is refused it stays refused.
  lemma RefusedFromThenOn(c: Config, calls: seq<Call>, j: nat)
    requires Steady(c, calls) && Sustained(calls, c.interval)
    requires FirstRefusal(FreshLimiter(c), calls) <= j < |calls|
    ensures !RateAllow.Granted(FreshLimiter(c), calls, j)
  {
    FreshFacts(c);
    FirstRefusalIsFirst(FreshLimiter(c), calls);
    assert Period(Every(c.interval)).Floor == c.interval;
    RatePenalty.RefusalsLastUntilAGap(FreshLimiter(c), calls, FirstRefusal(FreshLimiter(c), calls), j);
  }

  // ---- Anicetus ----

  // The evaluations of `f`, as calls of its limiter at the times they draw.
  function Draws(f: Fingerprint, es: seq<Event>): seq<Call> {
    if es == [] then []
    else
      var e := es[|es| - 1];
      Draws(f, es[..|es| - 1]) + if Evaluates(f, e) then [Call(e.drawAt, 1)] else []
  }

  // The same at the times they look for it.
  function Looks(f: Fingerprint, es: seq<Event>): seq<Call> {
    if es == [] then []
    else
      var e := es[|es| - 1];
      Looks(f, es[..|es| - 1]) + if Evaluates(f, e) then [Call(e.at, 1)] else []
  }

  // Their answers.
  function Statuses(c: Config, f: Fingerprint, es: seq<Event>): seq<Status> {
    if es == [] then []
    else
      var init, e := es[..|es| - 1], es[|es| - 1];
      Statuses(c, f, init)
      + if Evaluates(f, e) then [Evaluated(c, After(c, init), f, e.at, e.drawAt, e.o).1] else []
  }

  // Nobody reports a request for `f` as done or failed, and no operation for `f` fails.
  ghost predicate Undisturbed(f: Fingerprint, es: seq<Event>) {
    forall i | 0 <= i < |es| ::
      match es[i]
      case Evaluate(g, _, _, o) => g == f ==> o == FINE
      case RequestDone(g, _, _, _) => g != f
      case Cleanup(g, _, _) => g != f
      case _ => true
  }

  // The calls of the detector that an event makes, of those that take effect.
  function DetectorCalls(s: State, e: Event): seq<DetectorRuns.Event> {
    match e
    case Evaluate(f, at, drawAt, o) =>
      (if o.cool == NotDone then [] else [DetectorRuns.CoolCheck(f, at)])
      + (if o.cool != Done || IsCool(s.detector, f) || o.herd == NotDone then []
         else [DetectorRuns.HerdCheck(f, at, drawAt)])
    case RequestDone(f, at, store, cool) =>
      if store == Done && cool != NotDone then [DetectorRuns.CoolDown(f, at)] else []
    case Cleanup(_, _, _) => []
    case LimiterPurge(at) => [DetectorRuns.LimiterPurge(at)]
    case CooldownPurge(at) => [DetectorRuns.CooldownPurge(at)]
  }

  function DetectorEvents(c: Config, es: seq<Event>): seq<DetectorRuns.Event> {
    if es == [] then []
    else
      var init := es[..|es| - 1];
      DetectorEvents(c, init) + DetectorCalls(After(c, init), es[|es| - 1])
  }

  lemma DetectorStep(c: Config, s: State, e: Event)
    ensures var calls := DetectorCalls(s, e);
            && |calls| <= 2
            && (|calls| == 0 ==> Step(c, s, e).detector == s.detector)
            && (|calls| == 1 ==> Step(c, s, e).detector == DetectorRuns.Step(c, s.detector, calls[0]))
            && (|calls| == 2 ==> Step(c, s, e).detector
                                   == DetectorRuns.Step(c, DetectorRuns.Step(c, s.detector, calls[0]), calls[1]))
  {
  }

  lemma OneDetectorCall(c: Config, earlier: seq<DetectorRuns.Event>, call: DetectorRuns.Event,
                        calls: seq<DetectorRuns.Event>)
    requires calls == [call]
    ensures DetectorRuns.After(c, earlier + calls) == DetectorRuns.Step(c, DetectorRuns.After(c, earlier), call)
  {
    DetectorRuns.OneMoreEvent(c, earlier, call);
  }

  lemma TwoDetectorCalls(c: Config, earlier: seq<DetectorRuns.Event>, calls: seq<DetectorRuns.Event>)
    requires |calls| == 2
    ensures DetectorRuns.After(c, earlier + calls)
              == DetectorRuns.Step(c, DetectorRuns.Step(c, DetectorRuns.After(c, earlier), calls[0]), calls[1])
  {
    var first := earlier + [calls[0]];
    assert earlier + calls == first + [calls[1]];
    OneDetectorCall(c, earlier, calls[0], [calls[0]]);
    OneDetectorCall(c, first, calls[1], [calls[1]]);
  }

  lemma DetectorSteps(c: Config, earlier: seq<DetectorRuns.Event>, calls: seq<DetectorRuns.Event>)
    requires |calls| <= 2
    ensures var d := DetectorRuns.After(c, earlier);
            DetectorRuns.After(c, earlier + calls)
              == if |calls| == 0 then d
                 else if |calls| == 1 then DetectorRuns.Step(c, d, calls[0])
                 else DetectorRuns.Step(c, DetectorRuns.Step(c, d, calls[0]), calls[1])
  {
    if |calls| == 0 {
      assert earlier + calls == earlier;
    } else if |calls| == 1 {
      OneDetectorCall(c, earlier, calls[0], calls);
    } else {
      TwoDetectorCalls(c, earlier, calls);
    }
  }

  lemma {:induction false} DetectorRunsAlong(c: Config, es: seq<Event>)
    ensures After(c, es).detector == DetectorRuns.After(c, DetectorEvents(c, es))
  {
    if es != [] {
      var init, e := es[..|es| - 1], es[|es| - 1];
      DetectorRunsAlong(c, init);
      DetectorStep(c, After(c, init), e);
      DetectorSteps(c, DetectorEvents(c, init), DetectorCalls(After(c, init), e));
    }
  }

  lemma DetectorCallsAt(s: State, e: Event)
    ensures forall x | x in DetectorCalls(s, e) :: x.at == e.at
  {
  }

  lemma OrderExtends(es: seq<DetectorRuns.Event>, calls: seq<DetectorRuns.Event>, at: Time, now: Time)
    requires DetectorRuns.Ordered(es, at) && at <= now && forall x | x in calls :: x.at == at
    ensures DetectorRuns.Ordered(es + calls, now)
  {
  }

  lemma {:induction false} DetectorEventsInOrder(c: Config, es: seq<Event>, now: Time)
    requires Ordered(es, now)
    ensures DetectorRuns.Ordered(DetectorEvents(c, es), now)
  {
    if es != [] {
      var init, e := es[..|es| - 1], es[|es| - 1];
      DetectorEventsInOrder(c, init, e.at);
      DetectorCallsAt(After(c, init), e);
      OrderExtends(DetectorEvents(c, init), DetectorCalls(After(c, init), e), e.at, now);
    }
  }

  lemma {:induction false} NeverCool(c: Config, f: Fingerprint, es: seq<Event>)
    requires Undisturbed(f, es)
    ensures f !in After(c, es).detector.cooldowns.items
  {
    if es != [] {
      var init, e := es[..|es| - 1], es[|es| - 1];
      UndisturbedPrefix(f, es);
      NeverCool(c, f, init);
      CooldownStep(c, After(c, init), e);
    }
  }

  lemma UndisturbedPrefix(f: Fingerprint, es: seq<Event>)
    requires es != [] && Undisturbed(f, es)
    ensures var init, e := es[..|es| - 1], es[|es| - 1];
            && Undisturbed(f, init)
            && (Evaluates(f, e) ==> e.o == FINE)
            && (e.RequestDone? || e.Cleanup? ==> e.f != f)
  {
    var init, e := es[..|es| - 1], es[|es| - 1];
    assert es[|es| - 1] == e && forall i | 0 <= i < |init| :: init[i] == es[i];
  }

  // What the calls of one event are to `f`.
  lemma OwnCallsOfStep(s: State, e: Event, f: Fingerprint)
    requires !IsCool(s.detector, f) && (Evaluates(f, e) ==> e.o == FINE)
    ensures var calls := DetectorCalls(s, e);
            if Evaluates(f, e)
            then calls == [DetectorRuns.CoolCheck(f, e.at), DetectorRuns.HerdCheck(f, e.at, e.drawAt)]
            else forall x | x in calls :: !(x.HerdCheck? && x.f == f)
  {
  }

  // Calls that do not concern the limiter of `f`.
  lemma {:induction false} OthersCalls(f: Fingerprint, ds: seq<DetectorRuns.Event>, calls: seq<DetectorRuns.Event>,
                                       period: Duration)
    requires forall x | x in calls :: !(x.HerdCheck? && x.f == f)
    ensures DetectorRuns.OwnCalls(f, ds + calls) == DetectorRuns.OwnCalls(f, ds)
    ensures DetectorRuns.LastLook(f, ds + calls) == DetectorRuns.LastLook(f, ds)
    ensures DetectorRuns.KeptInUse(f, ds + calls, period) == DetectorRuns.KeptInUse(f, ds, period)
  {
    if calls == [] {
      assert ds + calls == ds;
    } else {
      var init := calls[..|calls| - 1];
      assert calls[|calls| - 1] in calls && forall x | x in init :: x in calls;
      assert (ds + calls)[..|ds + calls| - 1] == ds + init;
      OthersCalls(f, ds, init, period);
    }
  }

  lemma OneMoreLook(f: Fingerprint, ds: seq<DetectorRuns.Event>, e: DetectorRuns.Event, period: Duration)
    requires e.HerdCheck? && e.f == f
    ensures DetectorRuns.OwnCalls(f, ds + [e]) == DetectorRuns.OwnCalls(f, ds) + [Call(e.drawAt, 1)]
    ensures DetectorRuns.LastLook(f, ds + [e]) == Some(e.at)
    ensures DetectorRuns.KeptInUse(f, ds + [e], period)
            <==> DetectorRuns.KeptInUse(f, ds, period) && DetectorRuns.InUse(f, ds, e.at, period)
  {
    assert (ds + [e])[..|ds|] == ds;
  }

  lemma EventCalls(c: Config, f: Fingerprint, s: State, e: Event, ds: seq<DetectorRuns.Event>)
    requires !IsCool(s.detector, f) && (Evaluates(f, e) ==> e.o == FINE)
    ensures var ds' := ds + DetectorCalls(s, e);
            if Evaluates(f, e)
            then && DetectorRuns.OwnCalls(f, ds') == DetectorRuns.OwnCalls(f, ds) + [Call(e.drawAt, 1)]
                 && DetectorRuns.LastLook(f, ds') == Some(e.at)
                 && DetectorRuns.KeptInUse(f, ds', c.period)
                    == (DetectorRuns.KeptInUse(f, ds, c.period) && DetectorRuns.InUse(f, ds, e.at, c.period))
            else && DetectorRuns.OwnCalls(f, ds') == DetectorRuns.OwnCalls(f, ds)
                 && DetectorRuns.LastLook(f, ds') == DetectorRuns.LastLook(f, ds)
                 && DetectorRuns.KeptInUse(f, ds', c.period) == DetectorRuns.KeptInUse(f, ds, c.period)
  {
    OwnCallsOfStep(s, e, f);
    if Evaluates(f, e) {
      var cool, herd := DetectorRuns.CoolCheck(f, e.at), DetectorRuns.HerdCheck(f, e.at, e.drawAt);
      OthersCalls(f, ds, [cool], c.period);
      OneMoreLook(f, ds + [cool], herd, c.period);
      assert ds + DetectorCalls(s, e) == ds + [cool] + [herd];
    } else {
      OthersCalls(f, ds, DetectorCalls(s, e), c.period);
    }
  }

  lemma {:induction false} CallsReachTheLimiter(c: Config, f: Fingerprint, es: seq<Event>)
    requires Undisturbed(f, es)
    ensures DetectorRuns.OwnCalls(f, DetectorEvents(c, es)) == Draws(f, es)
  {
    if es != [] {
      var init, e := es[..|es| - 1], es[|es| - 1];
      UndisturbedPrefix(f, es);
      CallsReachTheLimiter(c, f, init);
      NeverCool(c, f, init);
      EventCalls(c, f, After(c, init), e, DetectorEvents(c, init));
    }
  }

  // `f` is looked for at gaps below the period.
  ghost predicate SustainedLooks(f: Fingerprint, es: seq<Event>, interval: Duration) {
    Sustained(Looks(f, es), interval)
  }

  lemma {:induction false} LooksKeepInUse(c: Config, f: Fingerprint, es: seq<Event>)
    requires Undisturbed(f, es) && c.interval <= c.period && SustainedLooks(f, es, c.interval)
    ensures var looks := Looks(f, es);
            && DetectorRuns.LastLook(f, DetectorEvents(c, es))
               == (if looks == [] then None else Some(looks[|looks| - 1].at))
            && DetectorRuns.KeptInUse(f, DetectorEvents(c, es), c.period)
  {
    if es != [] {
      var init, e := es[..|es| - 1], es[|es| - 1];
      UndisturbedPrefix(f, es);
      SustainedPrefix(Looks(f, init), Looks(f, es), c.interval);
      LooksKeepInUse(c, f, init);
      NeverCool(c, f, init);
      EventCalls(c, f, After(c, init), e, DetectorEvents(c, init));
      if Evaluates(f, e) && Looks(f, init) != [] {
        LastGap(Looks(f, es), c.interval);
      }
    }
  }

  lemma SustainedPrefix(init: seq<Call>, calls: seq<Call>, interval: Duration)
    requires Sustained(calls, interval) && init <= calls
    ensures Sustained(init, interval)
  {
    assert forall i | 0 <= i < |init| :: init[i] == calls[i];
  }

  lemma LastGap(calls: seq<Call>, interval: Duration)
    requires Sustained(calls, interval) && |calls| >= 2
    ensures calls[|calls| - 1].at - calls[|calls| - 2].at < interval
  {
  }

  // The detector sees a herd just when the limiter of `f` alone would refuse the call.
  ghost predicate HerdIsRefusal(c: Config, f: Fingerprint, es: seq<Event>, drawAt: Time) {
    && !IsCool(After(c, es).detector, f)
    && SeesHerd(c, es, f, drawAt) == !Allowed(RateAllow.AfterCalls(FreshLimiter(c), Draws(f, es)), drawAt, 1)
  }

  lemma RefusalsShow(c: Config, f: Fingerprint, es: seq<Event>, drawAt: Time)
    requires Undisturbed(f, es)
    requires DetectorRuns.AnswersAsRemembered(c, DetectorEvents(c, es), f, drawAt)
    ensures HerdIsRefusal(c, f, es, drawAt)
  {
    NeverCool(c, f, es);
    DetectorRunsAlong(c, es);
    CallsReachTheLimiter(c, f, es);
  }

  /** Amid all other traffic a herd is seen just when the fingerprint's own limiter refuses, if
      limiters are kept long enough for the time calls take. */
  lemma HerdSeenWhenRefused(c: Config, f: Fingerprint, es: seq<Event>, now: Time, drawAt: Time, delay: Duration)
    requires DetectorRuns.Sane(c) && c.period >= DetectorRuns.KeepFor(c, delay) && Undisturbed(f, es)
    requires DetectorRuns.CanFollow(f, DetectorEvents(c, es), now, drawAt, delay)
    ensures HerdIsRefusal(c, f, es, drawAt)
  {
    DetectorRuns.AnswersAlike(c, DetectorEvents(c, es), f, now, drawAt, delay);
    RefusalsShow(c, f, es, drawAt);
  }

  /** And also if the fingerprint is looked for at gaps below `interval`, however long its calls
      take. */
  lemma HerdSeenWhileSustained(c: Config, f: Fingerprint, es: seq<Event>, now: Time, drawAt: Time)
    requires c.interval <= c.period && Ordered(es, now) && Undisturbed(f, es) && SustainedLooks(f, es, c.interval)
    requires Looks(f, es) != [] ==> now - Looks(f, es)[|Looks(f, es)| - 1].at < c.interval
    ensures HerdIsRefusal(c, f, es, drawAt)
  {
    LooksKeepInUse(c, f, es);
    DetectorEventsInOrder(c, es, now);
    DetectorRuns.InUseIsNotForgotten(c, DetectorEvents(c, es), f, now, drawAt);
    RefusalsShow(c, f, es, drawAt);
  }

  /** `k` are let through, then one leads and the others wait. */
  ghost predicate Elects(statuses: seq<Status>, k: int) {
    && 0 <= k <= |statuses|
    && (forall i | 0 <= i < k :: statuses[i] == OpenGates)
    && (k < |statuses| ==> statuses[k] == Process)
    && (forall i | k < i < |statuses| :: statuses[i] == Wait)
  }

  // The pattern, and the entry it leaves.
  ghost predicate Pattern(statuses: seq<Status>, k: int, entry: Option<bool>) {
    Elects(statuses, k) && entry == if k < |statuses| then Some(false) else None
  }

  lemma PatternGrows(statuses: seq<Status>, k: int, entry: Option<bool>,
                     herd: bool, status: Status, entry': Option<bool>)
    requires Pattern(statuses, k, entry) && (k < |statuses| ==> herd)
    requires if !herd then status == OpenGates && entry' == None
             else if entry == None then status == Process && entry' == Some(false)
             else entry' == entry && (entry == Some(false) ==> status == Wait)
    ensures Pattern(statuses + [status], if herd then k else |statuses| + 1, entry')
  {
  }

  ghost predicate Elected(c: Config, f: Fingerprint, es: seq<Event>) {
    && |Statuses(c, f, es)| == |Draws(f, es)|
    && Pattern(Statuses(c, f, es), FirstRefusal(FreshLimiter(c), Draws(f, es)), EntryOf(After(c, es).entries, f))
  }

  // What one more call means for the first refusal, in a sustained run.
  lemma OneMoreSustainedCall(c: Config, calls: seq<Call>)
    requires calls != [] && Steady(c, calls) && Sustained(calls, c.interval)
    ensures var last := |calls| - 1;
            var k := FirstRefusal(FreshLimiter(c), calls[..last]);
            if k < last
            then !RateAllow.Granted(FreshLimiter(c), calls, last) && FirstRefusal(FreshLimiter(c), calls) == k
            else FirstRefusal(FreshLimiter(c), calls)
                   == if RateAllow.Granted(FreshLimiter(c), calls, last) then last + 1 else last
  {
    FirstRefusalOfPrefix(FreshLimiter(c), calls);
    if FirstRefusal(FreshLimiter(c), calls[..|calls| - 1]) < |calls| - 1 {
      RefusedFromThenOn(c, calls, |calls| - 1);
    }
  }

  // What one more evaluation answers and leaves.
  lemma EvaluationOutcome(c: Config, s: State, f: Fingerprint, at: Time, drawAt: Time)
    requires !IsCool(s.detector, f)
    ensures var (s', status) := Evaluated(c, s, f, at, drawAt, FINE);
            var entry, entry' := EntryOf(s.entries, f), EntryOf(s'.entries, f);
            if !IsHerd(c, s.detector, f, drawAt) then status == OpenGates && entry' == None
            else if entry == None then status == Process && entry' == Some(false)
            else entry' == entry && (entry == Some(false) ==> status == Wait)
  {
  }

  lemma AfterEvaluation(c: Config, f: Fingerprint, es: seq<Event>)
    requires es != [] && Evaluates(f, es[|es| - 1]) && es[|es| - 1].o == FINE
    ensures var init, e := es[..|es| - 1], es[|es| - 1];
            var (s', status) := Evaluated(c, After(c, init), f, e.at, e.drawAt, FINE);
            && After(c, es) == s' && Statuses(c, f, es) == Statuses(c, f, init) + [status]
            && Draws(f, es) == Draws(f, init) + [Call(e.drawAt, 1)]
  {
  }

  lemma AfterOther(c: Config, f: Fingerprint, es: seq<Event>)
    requires es != [] && !Evaluates(f, es[|es| - 1]) && Undisturbed(f, es)
    ensures var init := es[..|es| - 1];
            && EntryOf(After(c, es).entries, f) == EntryOf(After(c, init).entries, f)
            && Statuses(c, f, es) == Statuses(c, f, init) && Draws(f, es) == Draws(f, init)
  {
    UndisturbedPrefix(f, es);
    EntryStep(c, f, es);
  }

  // An evaluation of `f` continues the pattern.
  lemma EvaluationElects(c: Config, f: Fingerprint, init: seq<Event>, at: Time, drawAt: Time, calls: seq<Call>)
    requires HerdIsRefusal(c, f, init, drawAt)
    requires calls == Draws(f, init) + [Call(drawAt, 1)]
    requires Steady(c, calls) && Sustained(calls, c.interval)
    requires Elected(c, f, init)
    ensures var (s', status) := Evaluated(c, After(c, init), f, at, drawAt, FINE);
            Pattern(Statuses(c, f, init) + [status], FirstRefusal(FreshLimiter(c), calls), EntryOf(s'.entries, f))
  {
    assert calls[..|calls| - 1] == Draws(f, init);
    OneMoreSustainedCall(c, calls);
    EvaluationOutcome(c, After(c, init), f, at, drawAt);
    var (s', status) := Evaluated(c, After(c, init), f, at, drawAt, FINE);
    PatternGrows(Statuses(c, f, init), FirstRefusal(FreshLimiter(c), Draws(f, init)),
                 EntryOf(After(c, init).entries, f), SeesHerd(c, init, f, drawAt), status, EntryOf(s'.entries, f));
  }

  ghost predicate InOrder(calls: seq<Call>) {
    forall i :: 1 <= i < |calls| ==> calls[i - 1].at <= calls[i].at
  }

  /** The evaluations of `f` draw after they looked, and in the order in which they looked. */
  ghost predicate DrawsInOrder(f: Fingerprint, es: seq<Event>) {
    && (forall i | 0 <= i < |es| && Evaluates(f, es[i]) :: es[i].at <= es[i].drawAt)
    && InOrder(Draws(f, es))
  }

  lemma {:induction false} DrawsAreSingle(f: Fingerprint, es: seq<Event>, now: Time)
    requires Ordered(es, now)
    requires forall i | 0 <= i < |es| && Evaluates(f, es[i]) :: es[i].at <= es[i].drawAt
    ensures Singles(Draws(f, es)) && forall k | 0 <= k < |Draws(f, es)| :: Draws(f, es)[k].at >= 0
  {
    if es != [] {
      var init := es[..|es| - 1];
      assert forall i | 0 <= i < |init| :: init[i] == es[i];
      DrawsAreSingle(f, init, es[|es| - 1].at);
    }
  }

  lemma DrawsAreSteady(c: Config, f: Fingerprint, es: seq<Event>, now: Time)
    requires DetectorRuns.Sane(c) && Ordered(es, now) && DrawsInOrder(f, es)
    ensures Steady(c, Draws(f, es))
  {
    DrawsAreSingle(f, es, now);
  }

  // Sustained in looks as well as in draws.
  ghost predicate Herd(f: Fingerprint, es: seq<Event>, interval: Duration) {
    DrawsInOrder(f, es) && SustainedLooks(f, es, interval) && Sustained(Draws(f, es), interval)
  }

  lemma HerdPrefix(f: Fingerprint, es: seq<Event>, interval: Duration)
    requires es != [] && Herd(f, es, interval)
    ensures Herd(f, es[..|es| - 1], interval)
    ensures var looks := Looks(f, es[..|es| - 1]);
            Evaluates(f, es[|es| - 1]) && looks != [] ==> es[|es| - 1].at - looks[|looks| - 1].at < interval
  {
    var init := es[..|es| - 1];
    assert forall i | 0 <= i < |init| :: init[i] == es[i];
    SustainedPrefix(Looks(f, init), Looks(f, es), interval);
    SustainedPrefix(Draws(f, init), Draws(f, es), interval);
    assert forall i | 0 <= i < |Draws(f, init)| :: Draws(f, init)[i] == Draws(f, es)[i];
    if Evaluates(f, es[|es| - 1]) && Looks(f, init) != [] {
      LastGap(Looks(f, es), interval);
    }
  }

  lemma {:induction false} SustainedRunElects(c: Config, f: Fingerprint, es: seq<Event>, now: Time)
    requires DetectorRuns.Sane(c) && c.period >= c.interval
    requires Ordered(es, now) && Undisturbed(f, es) && Herd(f, es, c.interval)
    ensures Elected(c, f, es)
  {
    if es != [] {
      var init, e := es[..|es| - 1], es[|es| - 1];
      UndisturbedPrefix(f, es);
      HerdPrefix(f, es, c.interval);
      SustainedRunElects(c, f, init, e.at);
      if Evaluates(f, e) {
        DrawsAreSteady(c, f, es, now);
        AfterEvaluation(c, f, es);
        HerdSeenWhileSustained(c, f, init, e.at, e.drawAt);
        EvaluationElects(c, f, init, e.at, e.drawAt, Draws(f, es));
      } else {
        AfterOther(c, f, es);
      }
    }
  }

  /** A sustained herd elects one leader. From a fresh state, whatever happens to other
      fingerprints and whenever the maps are purged, evaluations of one fingerprint that follow
      each other by less than `interval`, in the times they look and in the times they draw, with
      none of its requests reported done or failed, are let through `k` times; from the first that
      is refused on, exactly one leads and all others wait. `k` is at least the burst, if there
      are as many evaluations, and at most the burst and one for each full `interval` from the
      first to the last of the `k`. */
  lemma SustainedHerdElectsOneLeader(interval: Duration, burst: int, cooldown: Duration,
                                     f: Fingerprint, es: seq<Event>, now: Time)
    requires interval > 0 && burst >= 1
    requires Ordered(es, now) && Undisturbed(f, es) && Herd(f, es, interval)
    ensures var calls := Draws(f, es);
            var statuses := Statuses(NewConfig(interval, burst, cooldown), f, es);
            |statuses| == |calls|
            && exists k :: Elects(statuses, k) && WithinBounds(interval, burst, calls, k)
  {
    var c := NewConfig(interval, burst, cooldown);
    DetectorRuns.RefillTakesAnInterval(interval, burst);
    DrawsAreSteady(c, f, es, now);
    SustainedRunElects(c, f, es, now);
    GrantsBeforeRefusal(c, Draws(f, es));
    var k := FirstRefusal(FreshLimiter(c), Draws(f, es));
    assert Elects(Statuses(c, f, es), k) && WithinBounds(interval, burst, Draws(f, es), k);
  }
}
