/** Runs of Anicetus with each call atomic: which answers follow from which history, whichever
    operations fail. */
module AnicetusRuns {
  import opened Clock
  import MapExpRuns
  import opened Detector
  import opened Anicetus
  import opened Wrappers

  datatype Event =
    | Evaluate(f: Fingerprint, at: Time, drawAt: Time, o: Outcomes)
    | RequestDone(f: Fingerprint, at: Time, store: Outcome, cool: Outcome)
    | Cleanup(f: Fingerprint, at: Time, remove: Outcome)
    | LimiterPurge(at: Time)
    | CooldownPurge(at: Time)

  function Step(c: Config, s: State, e: Event): State {
    match e
    case Evaluate(f, at, drawAt, o) => Evaluated(c, s, f, at, drawAt, o).0
    case RequestDone(f, at, store, cool) => AfterRequestDone(c, s, f, at, store, cool).0
    case Cleanup(f, _, remove) => AfterCleanup(s, f, remove)
    case LimiterPurge(at) => State(AfterLimiterPurge(s.detector, at), s.entries)
    case CooldownPurge(at) => State(AfterCooldownPurge(s.detector, at), s.entries)
  }

  function After(c: Config, es: seq<Event>): State {
    if es == [] then NewState() else Step(c, After(c, es[..|es| - 1]), es[|es| - 1])
  }

  // Events in order of time, none before the zero time and all by `now`.
  ghost predicate Ordered(es: seq<Event>, now: Time) {
    && (forall i, j :: 0 <= i <= j < |es| ==> es[i].at <= es[j].at)
    && (forall i :: 0 <= i < |es| ==> 0 <= es[i].at <= now)
    && 0 <= now
  }

  predicate Evaluates(f: Fingerprint, e: Event) {
    e.Evaluate? && e.f == f
  }

  // The i-th event is an evaluation of `f` that was answered `status`.
  predicate Answered(c: Config, f: Fingerprint, es: seq<Event>, i: nat, status: Status) {
    && i < |es| && Evaluates(f, es[i])
    && Evaluated(c, After(c, es[..i]), f, es[i].at, es[i].drawAt, es[i].o).1 == status
  }

  // The evaluation learns whether there is a herd, and what it learns.
  predicate Learns(c: Config, s: State, e: Event, herd: bool)
    requires e.Evaluate?
  {
    && e.o.cool == Done && !IsCool(s.detector, e.f)
    && e.o.herd == Done && IsHerd(c, s.detector, e.f, e.drawAt) == herd
  }

  // The i-th event announces a leader: an evaluation in a herd finds no entry and stores one.
  predicate Announces(c: Config, f: Fingerprint, es: seq<Event>, i: nat) {
    && i < |es| && Evaluates(f, es[i]) && Learns(c, After(c, es[..i]), es[i], true)
    && es[i].o.found == Done && es[i].o.store != NotDone && f !in After(c, es[..i]).entries
  }

  // The i-th event clears the way for a new leader.
  predicate Clears(c: Config, f: Fingerprint, es: seq<Event>, i: nat) {
    && i < |es|
    && ((es[i].Cleanup? && es[i].f == f && es[i].remove != NotDone)
        || (Evaluates(f, es[i]) && Learns(c, After(c, es[..i]), es[i], false) && es[i].o.remove != NotDone))
  }

  predicate Finishes(f: Fingerprint, es: seq<Event>, i: nat) {
    i < |es| && es[i].RequestDone? && es[i].f == f && es[i].store != NotDone
  }

  /** The events that decide the entry of `f`. */
  predicate Decides(c: Config, f: Fingerprint, es: seq<Event>, i: nat) {
    Announces(c, f, es, i) || Finishes(f, es, i) || Clears(c, f, es, i)
  }

  predicate DecidedLast(c: Config, f: Fingerprint, es: seq<Event>, i: nat) {
    Decides(c, f, es, i) && forall j | i < j < |es| :: !Decides(c, f, es, j)
  }

  function EntryMade(c: Config, f: Fingerprint, es: seq<Event>, i: nat): Option<bool> {
    if Announces(c, f, es, i) then Some(false)
    else if Finishes(f, es, i) then Some(true)
    else None
  }

  lemma EntryStep(c: Config, f: Fingerprint, es: seq<Event>)
    requires es != []
    ensures var last := |es| - 1;
            EntryOf(After(c, es).entries, f)
              == if Decides(c, f, es, last) then EntryMade(c, f, es, last)
                 else EntryOf(After(c, es[..last]).entries, f)
  {
  }

  lemma DecidesInPrefix(c: Config, f: Fingerprint, es: seq<Event>, n: nat, i: nat)
    requires i < n <= |es|
    ensures Decides(c, f, es[..n], i) == Decides(c, f, es, i)
    ensures EntryMade(c, f, es[..n], i) == EntryMade(c, f, es, i)
    ensures Clears(c, f, es[..n], i) == Clears(c, f, es, i)
    ensures Announces(c, f, es[..n], i) == Announces(c, f, es, i)
  {
    assert es[..n][..i] == es[..i];
  }

  lemma DecisionsOfPrefix(c: Config, f: Fingerprint, es: seq<Event>)
    requires es != []
    ensures var init := es[..|es| - 1];
            forall i | 0 <= i < |init| ::
              Decides(c, f, init, i) == Decides(c, f, es, i) && EntryMade(c, f, init, i) == EntryMade(c, f, es, i)
  {
    forall i | 0 <= i < |es| - 1
      ensures Decides(c, f, es[..|es| - 1], i) == Decides(c, f, es, i)
      ensures EntryMade(c, f, es[..|es| - 1], i) == EntryMade(c, f, es, i)
    {
      DecidesInPrefix(c, f, es, |es| - 1, i);
    }
  }

  lemma LastCarriesOver(c: Config, f: Fingerprint, es: seq<Event>, k: nat)
    requires es != [] && !Decides(c, f, es, |es| - 1) && DecidedLast(c, f, es[..|es| - 1], k)
    ensures DecidedLast(c, f, es, k) && EntryMade(c, f, es, k) == EntryMade(c, f, es[..|es| - 1], k)
  {
    DecisionsOfPrefix(c, f, es);
    forall j | k < j < |es|
      ensures !Decides(c, f, es, j)
    {
      assert j < |es| - 1 ==> !Decides(c, f, es[..|es| - 1], j);
    }
  }

  lemma NoneCarriesOver(c: Config, f: Fingerprint, es: seq<Event>)
    requires es != [] && !Decides(c, f, es, |es| - 1)
    requires var init := es[..|es| - 1]; forall j | 0 <= j < |init| :: !Decides(c, f, init, j)
    ensures forall j | 0 <= j < |es| :: !Decides(c, f, es, j)
  {
    DecisionsOfPrefix(c, f, es);
  }

  // The last event that decides the entry, if any does.
  lemma {:induction false} LastDecision(c: Config, f: Fingerprint, es: seq<Event>) returns (i: nat)
    ensures if i < |es| then DecidedLast(c, f, es, i) && EntryOf(After(c, es).entries, f) == EntryMade(c, f, es, i)
            else (forall j | 0 <= j < |es| :: !Decides(c, f, es, j)) && EntryOf(After(c, es).entries, f) == None
  {
    if es == [] {
      i := 0;
    } else {
      var last := |es| - 1;
      EntryStep(c, f, es);
      if Decides(c, f, es, last) {
        i := last;
      } else {
        var k := LastDecision(c, f, es[..last]);
        if k < last {
          LastCarriesOver(c, f, es, k);
          i := k;
        } else {
          NoneCarriesOver(c, f, es);
          i := |es|;
        }
      }
    }
  }

  /** The status of a fingerprint is determined by its history: its entry is what the last of
      the deciding events made it, and there is none as long as none occurred. */
  lemma EntryFollowsHistory(c: Config, f: Fingerprint, es: seq<Event>, i: nat)
    ensures DecidedLast(c, f, es, i) ==> EntryOf(After(c, es).entries, f) == EntryMade(c, f, es, i)
    ensures (forall j | 0 <= j < |es| :: !Decides(c, f, es, j)) ==> f !in After(c, es).entries
  {
    var k := LastDecision(c, f, es);
  }

  // An evaluation of `f` that draws at `drawAt` would see a herd.
  predicate SeesHerd(c: Config, es: seq<Event>, f: Fingerprint, drawAt: Time) {
    !IsCool(After(c, es).detector, f) && IsHerd(c, After(c, es).detector, f, drawAt)
  }

  /** What a herd is answered, if nothing fails: to wait just when a leader was announced last, to
      pass just when one has finished last, and to lead just when the way was cleared last or
      nothing yet decided. */
  lemma AnswersFollowHistory(c: Config, f: Fingerprint, es: seq<Event>, now: Time, drawAt: Time)
    requires SeesHerd(c, es, f, drawAt)
    ensures var status := Evaluated(c, After(c, es), f, now, drawAt, FINE).1;
            && (status == Wait <==> exists i :: DecidedLast(c, f, es, i) && Announces(c, f, es, i))
            && (status == OpenGates <==> exists i :: DecidedLast(c, f, es, i) && Finishes(f, es, i))
            && (status == Process <==>
                  (forall i | 0 <= i < |es| :: !Decides(c, f, es, i))
                  || exists i :: DecidedLast(c, f, es, i) && Clears(c, f, es, i))
  {
    HerdAnswer(c, After(c, es), f, now, drawAt);
    var i := LastDecision(c, f, es);
    if i < |es| {
      EntryTells(c, f, es, i);
      forall j | DecidedLast(c, f, es, j)
        ensures j == i
      {
        OnlyOneLast(c, f, es, i, j);
      }
    }
  }

  lemma OnlyOneLast(c: Config, f: Fingerprint, es: seq<Event>, i: nat, j: nat)
    requires DecidedLast(c, f, es, i) && DecidedLast(c, f, es, j)
    ensures i == j
  {
    assert i < j ==> !Decides(c, f, es, j);
  }

  lemma EntryTells(c: Config, f: Fingerprint, es: seq<Event>, i: nat)
    requires Decides(c, f, es, i)
    ensures EntryMade(c, f, es, i) == Some(false) <==> Announces(c, f, es, i)
    ensures EntryMade(c, f, es, i) == Some(true) <==> Finishes(f, es, i)
    ensures EntryMade(c, f, es, i) == None <==> Clears(c, f, es, i)
  {
  }

  lemma HerdAnswer(c: Config, s: State, f: Fingerprint, now: Time, drawAt: Time)
    requires !IsCool(s.detector, f) && IsHerd(c, s.detector, f, drawAt)
    ensures Evaluated(c, s, f, now, drawAt, FINE).1
              == match EntryOf(s.entries, f) case None => Process case Some(true) => OpenGates case Some(false) => Wait
  {
  }

  // Who leads has found no entry, and has announced it.
  lemma LeaderAnnounces(c: Config, f: Fingerprint, es: seq<Event>, i: nat)
    requires Answered(c, f, es, i, Process)
    ensures Announces(c, f, es, i)
  {
  }

  /** Between two leaders lies an event that cleared the way: a cleanup, or an evaluation that
      found no herd. */
  lemma LeadersAreSeparated(c: Config, f: Fingerprint, es: seq<Event>, i: nat, j: nat)
    requires i < j && Answered(c, f, es, i, Process) && Answered(c, f, es, j, Process)
    ensures exists k :: i < k < j && Clears(c, f, es, k)
  {
    var before := es[..j];
    LeaderAnnounces(c, f, es, i);
    LeaderAnnounces(c, f, es, j);
    DecidesInPrefix(c, f, es, j, i);
    var k := LastDecision(c, f, before);
    assert Decides(c, f, before, i);
    EntryTells(c, f, before, k);
    DecidesInPrefix(c, f, es, j, k);
    assert i <= k;
    assert Clears(c, f, es, k);
  }

  // ---- Cooldown ----

  /** When the cooldown of `f` was last renewed, by the source's own rule: `RequestDone` starts
      it, and every evaluation that comes in time starts it anew. */
  function CoolSince(cooldown: Duration, f: Fingerprint, es: seq<Event>): Option<Time> {
    if es == [] then None else CoolStep(cooldown, f, CoolSince(cooldown, f, es[..|es| - 1]), es[|es| - 1])
  }

  function CoolStep(cooldown: Duration, f: Fingerprint, since: Option<Time>, e: Event): Option<Time> {
    match e
    case RequestDone(g, at, store, cool) =>
      if g == f && store == Done && cool != NotDone then Some(at) else since
    case Evaluate(g, at, _, o) =>
      if g != f || since.None? || o.cool == NotDone then since
      else if at - since.value < cooldown then Some(at) else None
    case _ => since
  }

  // What an event does to the map of cooldowns.
  function CooldownEvent(e: Event): Option<MapExpRuns.Event<Fingerprint, bool>> {
    match e
    case Evaluate(f, at, _, o) => if o.cool == NotDone then None else Some(MapExpRuns.GetAt(f, at))
    case RequestDone(f, at, store, cool) =>
      if store == Done && cool != NotDone then Some(MapExpRuns.SetAt(f, true, at)) else None
    case CooldownPurge(at) => Some(MapExpRuns.PurgeAt(at))
    case _ => None
  }

  function CooldownEvents(es: seq<Event>): seq<MapExpRuns.Event<Fingerprint, bool>> {
    if es == [] then []
    else
      var earlier, e := CooldownEvents(es[..|es| - 1]), CooldownEvent(es[|es| - 1]);
      if e.Some? then earlier + [e.value] else earlier
  }

  lemma CooldownStep(c: Config, s: State, e: Event)
    ensures Step(c, s, e).detector.cooldowns
              == if CooldownEvent(e).Some?
                 then MapExpRuns.Step(c.cooldown, s.detector.cooldowns, CooldownEvent(e).value)
                 else s.detector.cooldowns
  {
  }

  lemma {:induction false} CooldownsAreAnExpiringMap(c: Config, es: seq<Event>)
    ensures After(c, es).detector.cooldowns == MapExpRuns.After(c.cooldown, CooldownEvents(es))
  {
    if es != [] {
      var init, e := es[..|es| - 1], es[|es| - 1];
      CooldownsAreAnExpiringMap(c, init);
      CooldownStep(c, After(c, init), e);
      if CooldownEvent(e).Some? {
        MapExpRuns.OneMoreEvent(c.cooldown, CooldownEvents(init), CooldownEvent(e).value);
      }
    }
  }

  lemma {:induction false} CooldownEventsInOrder(es: seq<Event>, now: Time)
    requires Ordered(es, now)
    ensures var cs := CooldownEvents(es);
            MapExpRuns.Ordered(cs) && forall i | 0 <= i < |cs| :: cs[i].at <= now
  {
    if es != [] {
      CooldownEventsInOrder(es[..|es| - 1], es[|es| - 1].at);
    }
  }

  // What one more event does to either account of the cooldown.
  lemma CoolStepIsFollowed(c: Config, f: Fingerprint, since: Option<Time>, e: Event)
    ensures var followed := if since.Some? then Some((true, since.value)) else None;
            var since' := CoolStep(c.cooldown, f, since, e);
            (if since'.Some? then Some((true, since'.value)) else None)
              == if CooldownEvent(e).Some? then MapExpRuns.Follow(c.cooldown, f, followed, CooldownEvent(e).value)
                 else followed
  {
  }

  lemma {:induction false} CoolSinceIsFollowed(c: Config, f: Fingerprint, es: seq<Event>)
    ensures MapExpRuns.Followed(c.cooldown, f, CooldownEvents(es))
              == if CoolSince(c.cooldown, f, es).Some? then Some((true, CoolSince(c.cooldown, f, es).value)) else None
  {
    if es != [] {
      var init, e := es[..|es| - 1], es[|es| - 1];
      CoolSinceIsFollowed(c, f, init);
      CoolStepIsFollowed(c, f, CoolSince(c.cooldown, f, init), e);
      if CooldownEvent(e).Some? {
        assert CooldownEvents(es) == CooldownEvents(init) + [CooldownEvent(e).value];
        MapExpRuns.OneMoreFollowed(c.cooldown, f, CooldownEvents(init), CooldownEvent(e).value);
      } else {
        assert CooldownEvents(es) == CooldownEvents(init);
      }
    }
  }

  lemma StillCool(c: Config, f: Fingerprint, es: seq<Event>, now: Time)
    requires c.cooldown > 0 && Ordered(es, now)
    requires var since := CoolSince(c.cooldown, f, es); since.Some? && now - since.value < c.cooldown
    ensures IsCool(After(c, es).detector, f)
  {
    CooldownsAreAnExpiringMap(c, es);
    CooldownEventsInOrder(es, now);
    CoolSinceIsFollowed(c, f, es);
    MapExpRuns.GetAnswersLatestValue(c.cooldown, CooldownEvents(es), f, now);
  }

  lemma CoolIsLetThrough(c: Config, s: State, f: Fingerprint, now: Time, drawAt: Time, o: Outcomes)
    requires IsCool(s.detector, f)
    ensures var (s', status) := Evaluated(c, s, f, now, drawAt, o);
            && status == (if o.cool == Done then OpenGates else Failed)
            && s'.entries == s.entries && s'.detector.limiters == s.detector.limiters
  {
  }

  lemma RenewedByEvaluation(c: Config, f: Fingerprint, es: seq<Event>, e: Event)
    requires Evaluates(f, e) && e.o.cool != NotDone
    requires var since := CoolSince(c.cooldown, f, es); since.Some? && e.at - since.value < c.cooldown
    ensures CoolSince(c.cooldown, f, es + [e]) == Some(e.at)
  {
    assert (es + [e])[..|es|] == es;
  }

  /** A cooldown never ends early: an evaluation that comes less than `cooldown` after the last
      renewal is let through, if it can learn of the cooldown, and in any case touches neither
      limiters nor entries, however the maps were purged. As it renews the cooldown itself, steady
      traffic prolongs it. */
  lemma CooldownNeverEndsEarly(interval: Duration, burst: int, cooldown: Duration,
                               f: Fingerprint, es: seq<Event>, e: Event)
    requires cooldown > 0 && Evaluates(f, e) && Ordered(es, e.at)
    requires var since := CoolSince(cooldown, f, es); since.Some? && e.at - since.value < cooldown
    ensures var c := NewConfig(interval, burst, cooldown);
            var s := After(c, es);
            var (s', status) := Evaluated(c, s, f, e.at, e.drawAt, e.o);
            && status == (if e.o.cool == Done then OpenGates else Failed)
            && s'.entries == s.entries && s'.detector.limiters == s.detector.limiters
    ensures e.o.cool != NotDone ==> CoolSince(cooldown, f, es + [e]) == Some(e.at)
  {
    var c := NewConfig(interval, burst, cooldown);
    StillCool(c, f, es, e.at);
    CoolIsLetThrough(c, After(c, es), f, e.at, e.drawAt, e.o);
    if e.o.cool != NotDone {
      RenewedByEvaluation(c, f, es, e);
    }
  }

  // ---- And it ends ----

  // The event starts or renews a cooldown.
  predicate Touches(e: Event) {
    (e.Evaluate? && e.o.cool != NotDone) || (e.RequestDone? && e.store == Done && e.cool != NotDone)
  }

  // The touches of the map of cooldowns come from such events.
  lemma {:induction false} TouchesBy(es: seq<Event>, latest: Time)
    requires forall i | 0 <= i < |es| && Touches(es[i]) :: es[i].at <= latest
    ensures forall x | x in CooldownEvents(es) && !x.PurgeAt? && !x.DeleteAt? :: x.at <= latest
  {
    if es != [] {
      var init, e := es[..|es| - 1], es[|es| - 1];
      assert forall i | 0 <= i < |init| :: init[i] == es[i];
      assert Touches(es[|es| - 1]) ==> e.at <= latest;
      TouchesBy(init, latest);
    }
  }

  lemma {:induction false} WithoutEvaluations(es: seq<Event>)
    requires forall i | 0 <= i < |es| && es[i].Evaluate? :: !Touches(es[i])
    ensures forall x | x in CooldownEvents(es) :: !x.GetAt?
  {
    if es != [] {
      var init, e := es[..|es| - 1], es[|es| - 1];
      assert forall i | 0 <= i < |init| :: init[i] == es[i];
      assert es[|es| - 1].Evaluate? ==> !Touches(es[|es| - 1]);
      WithoutEvaluations(init);
    }
  }

  lemma {:induction false} OnlyTrueIsSet(es: seq<Event>, f: Fingerprint)
    ensures MapExpRuns.LastSet(f, CooldownEvents(es)) in {None, Some(true)}
  {
    if es != [] {
      OnlyTrueIsSet(es[..|es| - 1], f);
    }
  }

  /** A purge ends the cooldown of a fingerprint just when its entry and all entries before it have
      run out, and of no other. */
  lemma PurgeEndsCooldownIff(c: Config, es: seq<Event>, f: Fingerprint, now: Time)
    ensures var d := After(c, es).detector;
            && (IsCool(AfterCooldownPurge(d, now), f)
                <==> IsCool(d, f) && !MapExpRuns.Reached(d.cooldowns.queue, f, now))
            && AfterCooldownPurge(d, now).limiters == d.limiters
  {
    CooldownsAreAnExpiringMap(c, es);
    MapExpRuns.RunsOutAfterLastTouch(c.cooldown, CooldownEvents(es), f);
    MapExpRuns.PurgeRemovesIff(After(c, es).detector.cooldowns, now, f);
  }

  /** A purge that comes `cooldown` or more after everything that starts or renews one ends all of
      them. */
  lemma CooldownsEndInQuiet(interval: Duration, burst: int, cooldown: Duration,
                            es: seq<Event>, f: Fingerprint, now: Time)
    requires forall i | 0 <= i < |es| && Touches(es[i]) :: es[i].at + cooldown <= now
    ensures !IsCool(AfterCooldownPurge(After(NewConfig(interval, burst, cooldown), es).detector, now), f)
  {
    var c := NewConfig(interval, burst, cooldown);
    CooldownsAreAnExpiringMap(c, es);
    TouchesBy(es, now - cooldown);
    MapExpRuns.QuietMapEmpties(cooldown, CooldownEvents(es), now, f);
  }

  /** As long as no evaluation comes in between, a purge leaves cooling down just those fingerprints
      of which a request was done less than `cooldown` ago. */
  lemma PurgedCooldownsAreExact(interval: Duration, burst: int, cooldown: Duration,
                                es: seq<Event>, f: Fingerprint, now: Time)
    requires cooldown > 0 && Ordered(es, now)
    requires forall i | 0 <= i < |es| && es[i].Evaluate? :: !Touches(es[i])
    ensures IsCool(AfterCooldownPurge(After(NewConfig(interval, burst, cooldown), es).detector, now), f)
            <==> CoolSince(cooldown, f, es).Some? && now - CoolSince(cooldown, f, es).value < cooldown
  {
    var c, cs := NewConfig(interval, burst, cooldown), CooldownEvents(es);
    CooldownsAreAnExpiringMap(c, es);
    CooldownEventsInOrder(es, now);
    WithoutEvaluations(es);
    OnlyTrueIsSet(es, f);
    CoolSinceIsFollowed(c, f, es);
    MapExpRuns.FollowedWithoutGet(cooldown, f, cs);
    MapExpRuns.PurgedMapIsExact(cooldown, cs, now, f);
  }
}
