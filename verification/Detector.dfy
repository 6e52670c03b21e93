/** The in-memory thundering-herd detector of detector/tokenbucket_inmemory.go: a cache of
    limiters, one per fingerprint, and the fingerprints that are cooling down.

    Each reading of the clock is an argument: IsThunderingHerd reads it when it looks for the
    limiter, and again when it draws from it. */
module Detector {
  import opened Clock
  import opened Rate
  import opened MapExp
  import opened Wrappers

  type Fingerprint = string

  /** `period` is how long an untouched limiter is kept. */
  datatype Config = Config(interval: Duration, burst: int, cooldown: Duration, period: Duration)

  function NewConfig(interval: Duration, burst: int, cooldown: Duration): Config {
    Config(interval, burst, cooldown, interval * burst)
  }

  datatype DetectorState = DetectorState(
    limiters: MapState<Fingerprint, LimiterState>,
    cooldowns: MapState<Fingerprint, bool>)

  function NewDetector(): DetectorState {
    DetectorState(EmptyMap(), EmptyMap())
  }

  function FreshLimiter(c: Config): LimiterState {
    NewLimiter(Every(c.interval), c.burst)
  }

  // The limiter a call for `f` works on: the one kept, or a new one.
  function LimiterFor(c: Config, d: DetectorState, f: Fingerprint): LimiterState {
    if f in d.limiters.items then d.limiters.items[f] else FreshLimiter(c)
  }

  predicate IsHerd(c: Config, d: DetectorState, f: Fingerprint, drawAt: Time) {
    !Allowed(LimiterFor(c, d, f), drawAt, 1)
  }

  // Finding the limiter for `f`, which is made and kept if there is none.
  function AfterFetch(c: Config, d: DetectorState, f: Fingerprint, now: Time): (d': DetectorState)
    ensures f in d'.limiters.items && d'.limiters.items[f] == LimiterFor(c, d, f)
  {
    var touched := AfterGet(d.limiters, f, now + c.period);
    d.(limiters := if f in d.limiters.items then touched
                   else AfterSet(touched, f, FreshLimiter(c), now + c.period))
  }

  function AfterAllow(d: DetectorState, f: Fingerprint, now: Time): DetectorState
    requires f in d.limiters.items
  {
    var items := d.limiters.items;
    d.(limiters := d.limiters.(items := items[f := Allow(items[f], now, 1)]))
  }

  // What IsThunderingHerd leaves; what it answers is IsHerd.
  function AfterHerdCheck(c: Config, d: DetectorState, f: Fingerprint, now: Time, drawAt: Time): DetectorState {
    AfterAllow(AfterFetch(c, d, f, now), f, drawAt)
  }

  function AfterCoolDown(c: Config, d: DetectorState, f: Fingerprint, now: Time): DetectorState {
    d.(cooldowns := AfterSet(d.cooldowns, f, true, now + c.cooldown))
  }

  predicate IsCool(d: DetectorState, f: Fingerprint) {
    Lookup(d.cooldowns, f) == Some(true)
  }

  // What IsCoolDown leaves; what it answers is IsCool.
  function AfterCoolCheck(c: Config, d: DetectorState, f: Fingerprint, now: Time): DetectorState {
    d.(cooldowns := AfterGet(d.cooldowns, f, now + c.cooldown))
  }

  function AfterLimiterPurge(d: DetectorState, now: Time): DetectorState {
    d.(limiters := AfterPurge(d.limiters, now))
  }

  function AfterCooldownPurge(d: DetectorState, now: Time): DetectorState {
    d.(cooldowns := AfterPurge(d.cooldowns, now))
  }

  class TokenBucketInMemory {
    const config: Config
    const limiters: ExpiringMap<Fingerprint, Limiter>
    const cooldowns: ExpiringMap<Fingerprint, bool>

    // The values of the limiters that `limiters` refers to.
    ghost var values: map<Fingerprint, LimiterState>

    // Whose limiter it is: no two fingerprints share one.
    ghost var owner: map<Limiter, Fingerprint>

    ghost function Repr(): set<object> {
      {this, limiters, limiters.expirationQueue, cooldowns, cooldowns.expirationQueue}
    }

    ghost predicate Valid()
      reads this, limiters, owner.Keys
    {
      && limiters as object != cooldowns
      && limiters.expirationQueue != cooldowns.expirationQueue
      && limiters.expirationQueue.ttl == config.period
      && cooldowns.expirationQueue.ttl == config.cooldown
      && values.Keys == limiters.items.Keys
      && (forall f | f in values ::
            var limiter := limiters.items[f];
            limiter in owner && owner[limiter] == f && limiter.State() == values[f])
    }

    ghost function State(): DetectorState
      reads Repr()
    {
      DetectorState(MapState(values, limiters.expirationQueue.items), cooldowns.State())
    }

    /** `NewTicker`, called with the two periods, panics unless they are positive. */
    constructor (interval: Duration, burst: int, cooldown: Duration)
      requires interval * burst > 0 && cooldown > 0
      ensures Valid() && State() == NewDetector() && config == NewConfig(interval, burst, cooldown)
      ensures config.interval == interval && config.burst == burst && config.cooldown == cooldown
      ensures limiters.expirationQueue.ttl == interval * burst && cooldowns.expirationQueue.ttl == cooldown
      ensures fresh(Repr()) && owner == map[]
    {
      var fullBucketPeriod := interval * burst;
      config := Config(interval, burst, cooldown, fullBucketPeriod);
      limiters := new ExpiringMap(fullBucketPeriod);
      cooldowns := new ExpiringMap(cooldown);
      values, owner := map[], map[];
    }

    method CoolDown(f: Fingerprint, now: Time)
      requires Valid()
      modifies cooldowns, cooldowns.expirationQueue
      ensures Valid() && State() == AfterCoolDown(config, old(State()), f, now)
    {
      cooldowns.Set(f, true, now);
    }

    method IsCoolDown(f: Fingerprint, now: Time) returns (cool: bool)
      requires Valid()
      modifies cooldowns.expirationQueue
      ensures cool == IsCool(old(State()), f)
      ensures Valid() && State() == AfterCoolCheck(config, old(State()), f, now)
    {
      var cooldown := cooldowns.Get(f, now);
      cool := cooldown.Some? && cooldown.value;
    }

    method Install(f: Fingerprint, now: Time) returns (limiter: Limiter)
      requires Valid() && f !in limiters.items
      modifies `values, `owner, limiters, limiters.expirationQueue
      ensures Valid() && fresh(limiter) && owner == old(owner)[limiter := f]
      ensures f in limiters.items && limiters.items[f] == limiter
      ensures State().cooldowns == old(State()).cooldowns
      ensures State().limiters == AfterSet(old(State()).limiters, f, FreshLimiter(config), now + config.period)
    {
      limiter := new Limiter(Every(config.interval), config.burst);
      limiters.Set(f, limiter, now);
      values, owner := values[f := FreshLimiter(config)], owner[limiter := f];
    }

    method Fetch(f: Fingerprint, now: Time) returns (limiter: Limiter)
      requires Valid()
      modifies `values, `owner, limiters, limiters.expirationQueue
      ensures Valid() && State() == AfterFetch(config, old(State()), f, now)
      ensures f in limiters.items && limiter == limiters.items[f]
      ensures values[f] == LimiterFor(config, old(State()), f)
      ensures owner == old(owner) || (fresh(limiter) && owner == old(owner)[limiter := f])
    {
      var found := limiters.Get(f, now);
      if found.Some? {
        limiter := found.value;
      } else {
        limiter := Install(f, now);
      }
    }

    method Draw(f: Fingerprint, limiter: Limiter, now: Time) returns (ok: bool)
      requires Valid() && f in limiters.items && limiter == limiters.items[f]
      modifies `values, limiter
      ensures Valid() && State() == AfterAllow(old(State()), f, now)
      ensures ok == Allowed(old(values[f]), now, 1)
    {
      ok := limiter.AllowN(now, 1);
      values := values[f := limiter.State()];
    }

    // Get and Set are given one reading: if there is a Set, it replaces what Get renewed.
    method IsThunderingHerd(f: Fingerprint, now: Time, drawAt: Time) returns (herd: bool)
      requires Valid()
      modifies `values, `owner, limiters, limiters.expirationQueue, owner.Keys
      ensures herd == IsHerd(config, old(State()), f, drawAt)
      ensures Valid() && State() == AfterHerdCheck(config, old(State()), f, now, drawAt)
      ensures fresh(owner.Keys - old(owner.Keys))
    {
      var limiter := Fetch(f, now);
      var ok := Draw(f, limiter, drawAt);
      herd := !ok;
    }

    // The two maps purge themselves, each on its own timer.
    method PurgeLimiters(now: Time)
      requires Valid()
      modifies `values, limiters, limiters.expirationQueue
      ensures Valid() && State() == AfterLimiterPurge(old(State()), now)
    {
      ghost var keys := PurgedKeys(limiters.expirationQueue.items, now);
      limiters.PurgeExpired(now);
      assert limiters.items == Without(old(limiters.items), keys);
      values := Without(values, keys);
      assert values.Keys == limiters.items.Keys;
    }

    method PurgeCooldowns(now: Time)
      requires Valid()
      modifies cooldowns, cooldowns.expirationQueue
      ensures Valid() && State() == AfterCooldownPurge(old(State()), now)
    {
      cooldowns.PurgeExpired(now);
    }
  }
}
