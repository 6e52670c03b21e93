/** Time as the limiter, the expiring map and the detectors see it. */
module Clock {
  // Nanoseconds since the zero time.Time.
  type Time = int

  // Nanoseconds.
  type Duration = int

  const MICROSECOND: Duration := 1_000

  const SECOND: Duration := 1_000_000_000
}

/** The penalised token bucket of internal/rate/rate.go.

    A limiter is a value of type `LimiterState`; the functions below give its value
    after each operation, and class `Limiter` performs the operations in place, as
    the source does. float64 is read as exact real arithmetic. */
module Rate {
  import opened Clock

  // The source's InfDuration, the largest int64.
  const INF_DURATION: Duration := 0x7FFF_FFFF_FFFF_FFFF

  const TWO_64 := 0x1_0000_0000_0000_0000
  const TWO_320 := TWO_64 * TWO_64 * TWO_64 * TWO_64 * TWO_64

  // math.MaxFloat64 == 2^960 * (2^64 - 2^11)
  const MAX_FLOAT64: real := (TWO_320 * TWO_320 * TWO_320 * (TWO_64 - 2048)) as real

  /** `Inf` is the special value that disables the limiter. */
  datatype Limit = Inf | PerSecond(rate: real) {
    function Tokens(): real {
      if Inf? then MAX_FLOAT64 else rate
    }
  }

  datatype LimiterState = LimiterState(
    limit: Limit,
    burst: int,
    tokens: real,
    last: Time,       // when `tokens` was last brought up to date
    lastEvent: Time)  // latest time of a rate-limited event, past or future

  /** A reservation; the limiter it was made on is the one that cancels it. */
  datatype Reservation = Reservation(ok: bool, tokens: int, timeToAct: Time, limit: Limit)

  /** A call of AllowN or ReserveN. */
  datatype Call = Call(at: Time, n: int)

  // `k` calls at once, for one token each.
  function UnitCalls(at: Time, k: nat): seq<Call> {
    seq(k, _ => Call(at, 1))
  }

  function Every(interval: Duration): Limit {
    if interval <= 0 then Inf else PerSecond(1.0 / (interval as real / SECOND as real))
  }

  function NewLimiter(limit: Limit, burst: int): LimiterState {
    LimiterState(limit, burst, burst as real, 0, 0)
  }

  // Conversion of a float64 to an integer, towards zero.
  function Truncate(x: real): int {
    if x >= 0.0 then x.Floor else -(-x).Floor
  }

  function TokensFromDuration(limit: Limit, d: Duration): real {
    if limit.Tokens() <= 0.0 then 0.0 else d as real / SECOND as real * limit.Tokens()
  }

  function DurationFromTokens(limit: Limit, tokens: real): Duration {
    if limit.Tokens() <= 0.0 then INF_DURATION
    else
      var d := tokens / limit.Tokens() * SECOND as real;
      if d > INF_DURATION as real then INF_DURATION else Truncate(d)
  }

  /** The tokens `advance` computes for time `t`; the time it returns is `t`. In no state are
      they more than the burst, even if `tokens` is, as after `SetBurstAt` made it smaller. */
  function TokensAt(s: LimiterState, t: Time): (available: real)
    ensures available <= s.burst as real
  {
    var last := if t < s.last then t else s.last;
    var tokens := s.tokens + TokensFromDuration(s.limit, t - last);
    if tokens > s.burst as real then s.burst as real else tokens
  }

  function WaitFor(limit: Limit, tokens: real): Duration {
    if tokens < 0.0 then DurationFromTokens(limit, -tokens) else 0
  }

  /** `reserveN`: a refused call drains the bucket. */
  function Reserve(s: LimiterState, t: Time, n: int, maxWait: Duration): (LimiterState, Reservation) {
    if s.limit.Inf? then (s, Reservation(true, n, t, PerSecond(0.0)))
    else
      var tokens := TokensAt(s, t) - n as real;
      var wait := WaitFor(s.limit, tokens);
      var ok := n <= s.burst && wait <= maxWait;
      (s.(last := t, tokens := if ok then tokens else 0.0, lastEvent := t + wait),
       Reservation(ok, if ok then n else 0, t + wait, s.limit))
  }

  function Cancel(s: LimiterState, r: Reservation, t: Time): LimiterState {
    if !r.ok || s.limit.Inf? || r.tokens == 0 || r.timeToAct < t then s
    else
      var restore := r.tokens as real - TokensFromDuration(r.limit, s.lastEvent - r.timeToAct);
      if restore <= 0.0 then s
      else
        var tokens := TokensAt(s, t) + restore;
        var prevEvent := r.timeToAct + DurationFromTokens(r.limit, -(r.tokens as real));
        s.(last := t,
           tokens := if tokens > s.burst as real then s.burst as real else tokens,
           lastEvent := if r.timeToAct == s.lastEvent && prevEvent >= t then prevEvent else s.lastEvent)
  }

  function SetLimit(s: LimiterState, t: Time, limit: Limit): LimiterState {
    s.(last := t, tokens := TokensAt(s, t), limit := limit)
  }

  function SetBurst(s: LimiterState, t: Time, burst: int): LimiterState {
    s.(last := t, tokens := TokensAt(s, t), burst := burst)
  }

  // What AllowN answers.
  predicate Allowed(s: LimiterState, t: Time, n: int) {
    Reserve(s, t, n, 0).1.ok
  }

  // What AllowN leaves.
  function Allow(s: LimiterState, t: Time, n: int): LimiterState {
    Reserve(s, t, n, 0).0
  }

  class Limiter {
    var limit: Limit
    var burst: int
    var tokens: real
    var last: Time
    var lastEvent: Time

    ghost function State(): LimiterState
      reads this
    {
      LimiterState(limit, burst, tokens, last, lastEvent)
    }

    constructor (limit: Limit, burst: int)
      ensures State() == NewLimiter(limit, burst)
      ensures this.limit == limit && this.burst == burst && tokens == burst as real && last == lastEvent == 0
    {
      this.limit, this.burst, tokens := limit, burst, burst as real;
      last, lastEvent := 0, 0;
    }

    // Does not change the limiter.
    method Advance(t: Time) returns (newT: Time, newTokens: real)
      ensures newT == t && newTokens == TokensAt(State(), t)
    {
      var from := last;
      if t < from {
        from := t;
      }
      var elapsed := t - from;
      newTokens := tokens + TokensFromDuration(limit, elapsed);
      if newTokens > burst as real {
        newTokens := burst as real;
      }
      newT := t;
    }

    method ReserveN(t: Time, n: int, maxFutureReserve: Duration) returns (r: Reservation)
      modifies this
      ensures (State(), r) == Reserve(old(State()), t, n, maxFutureReserve)
    {
      if limit.Inf? {
        return Reservation(true, n, t, PerSecond(0.0));
      }
      var now, available := Advance(t);
      available := available - n as real;
      var waitDuration := 0;
      if available < 0.0 {
        waitDuration := DurationFromTokens(limit, -available);
      }
      var ok := n <= burst && waitDuration <= maxFutureReserve;
      if ok {
        r := Reservation(ok, n, now + waitDuration, limit);
        last, tokens, lastEvent := now, available, r.timeToAct;
      } else {
        // the penalty
        r := Reservation(ok, 0, now + waitDuration, limit);
        last, tokens, lastEvent := now, 0.0, r.timeToAct;
      }
    }

    method AllowN(t: Time, n: int) returns (ok: bool)
      modifies this
      ensures ok == Allowed(old(State()), t, n)
      ensures State() == Allow(old(State()), t, n)
    {
      var r := ReserveN(t, n, 0);
      ok := r.ok;
    }

    method CancelAt(r: Reservation, t: Time)
      modifies this
      ensures State() == Cancel(old(State()), r, t)
    {
      if !r.ok {
        return;
      }
      if limit.Inf? || r.tokens == 0 || r.timeToAct < t {
        return;
      }
      var restoreTokens := r.tokens as real - TokensFromDuration(r.limit, lastEvent - r.timeToAct);
      if restoreTokens <= 0.0 {
        return;
      }
      var now, available := Advance(t);
      available := available + restoreTokens;
      if available > burst as real {
        available := burst as real;
      }
      last, tokens := now, available;
      if r.timeToAct == lastEvent {
        var prevEvent := r.timeToAct + DurationFromTokens(r.limit, -(r.tokens as real));
        if !(prevEvent < now) {
          lastEvent := prevEvent;
        }
      }
    }

    method SetLimitAt(t: Time, newLimit: Limit)
      modifies this
      ensures State() == SetLimit(old(State()), t, newLimit)
    {
      var now, available := Advance(t);
      last, tokens, limit := now, available, newLimit;
    }

    method SetBurstAt(t: Time, newBurst: int)
      modifies this
      ensures State() == SetBurst(old(State()), t, newBurst)
    {
      var now, available := Advance(t);
      last, tokens, burst := now, available, newBurst;
    }
  }
}
