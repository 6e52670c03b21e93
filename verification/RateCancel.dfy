/** Cancelling a reservation. */
module RateCancel {
  import opened Clock
  import opened Rate
  import opened RateScale

  /** What cancelling does, at the limit it was made at, `r.limit`, on a limiter that may have been
      set to another since: the tokens of the reservation, less those that were reserved after it
      at the old limit, are given back. */
  lemma CancelAtOldLimit(s: LimiterState, r: Reservation, t: Time)
    requires Positive(s.limit) && Positive(r.limit)
    ensures var s' := Cancel(s, r, t);
            var n := r.tokens as real;
            var restore := n - (s.lastEvent - r.timeToAct) as real / Period(r.limit);
            var prevEvent := r.timeToAct - InNanos(r.limit, n).Floor;
            && s'.limit == s.limit && s'.burst == s.burst
            && (!r.ok || r.tokens == 0 || r.timeToAct < t || restore <= 0.0 ==> s' == s)
            && (r.ok && r.tokens >= 1 && t <= r.timeToAct && restore > 0.0 ==>
                  && s'.last == t
                  && s'.tokens == Min(s.burst as real, TokensAt(s, t) + restore)
                  && s'.lastEvent == if r.timeToAct == s.lastEvent && prevEvent >= t then prevEvent else s.lastEvent)
  {
    var later := s.lastEvent - r.timeToAct;
    AccrualIsOnePerNano(r.limit, later);
    assert TokensFromDuration(r.limit, later) == later as real / Period(r.limit) by {
      Cancelling(TokensFromDuration(r.limit, later), later as real / Period(r.limit), Period(r.limit));
    }
    InNanosAdds(r.limit, r.tokens as real, 0.0);
    InNanosIsMonotone(r.limit, 0.0, r.tokens as real);
    WaitIsTruncatedDeficit(r.limit, -(r.tokens as real));
  }

  // On the scale, at a limit that was not changed.
  lemma CancelInNanos(s: LimiterState, r: Reservation, t: Time)
    requires Positive(s.limit) && r.limit == s.limit
    requires r.ok && r.tokens >= 1 && t <= r.timeToAct
    ensures var s' := Cancel(s, r, t);
            var cost := InNanos(s.limit, r.tokens as real);
            var restore := cost - (s.lastEvent - r.timeToAct) as real;
            var prevEvent := r.timeToAct - cost.Floor;
            && s'.limit == s.limit && s'.burst == s.burst
            && (restore <= 0.0 ==> s' == s)
            && (restore > 0.0 ==>
                  && s'.last == t
                  && Level(s') == Min(Capacity(s), LevelAt(s, t) + restore)
                  && s'.lastEvent == if r.timeToAct == s.lastEvent && prevEvent >= t then prevEvent else s.lastEvent)
  {
    var n := r.tokens as real;
    var later := TokensFromDuration(s.limit, s.lastEvent - r.timeToAct);
    AccrualIsOnePerNano(s.limit, s.lastEvent - r.timeToAct);
    InNanosAdds(s.limit, n, later);
    InNanosIsMonotone(s.limit, n - later, 0.0);
    InNanosIsMonotone(s.limit, n, 0.0);
    InNanosAdds(s.limit, TokensAt(s, t), n - later);
    InNanosAdds(s.limit, n, 0.0);
    InNanosIsMonotone(s.limit, TokensAt(s, t) + (n - later), s.burst as real);
    WaitIsTruncatedDeficit(s.limit, -n);
  }

  /** Cancelling the latest reservation makes the limiter forget it, provided it comes by
      its `timeToAct`. A later cancellation changes nothing, so it leaves the tokens as
      if the reservation had never been made exactly if they are back at the top anyway. */
  lemma CancelIsExactUndo(s: LimiterState, t: Time, n: int, maxWait: Duration, u: Time)
    requires Positive(s.limit) && s.last <= t <= u && n >= 1
    requires Reserve(s, t, n, maxWait).1.ok
    ensures var (s1, r) := Reserve(s, t, n, maxWait);
            var s2 := Cancel(s1, r, u);
            (forall v | v >= u :: TokensAt(s2, v) == TokensAt(s, v))
              <==> (u <= r.timeToAct || TokensAt(s1, u) == s.burst as real)
  {
    var (s1, r) := Reserve(s, t, n, maxWait);
    var s2 := Cancel(s1, r, u);
    ReserveInNanos(s, t, n, maxWait);
    LevelGrowsLinearly(s, t);
    LevelGrowsLinearly(s1, u);
    InNanosIsMonotone(s.limit, 0.0, n as real);
    InNanosIsMonotone(s.limit, TokensAt(s1, u), s.burst as real);
    if u <= r.timeToAct || TokensAt(s1, u) == s.burst as real {
      if u <= r.timeToAct {
        CancelInNanos(s1, r, u);
      }
      forall v | v >= u
        ensures TokensAt(s2, v) == TokensAt(s, v)
      {
        LevelGrowsLinearly(s, v);
        LevelGrowsLinearly(s2, v);
        InNanosIsMonotone(s.limit, TokensAt(s2, v), TokensAt(s, v));
      }
    } else {
      LevelGrowsLinearly(s, u);
      InNanosIsMonotone(s.limit, TokensAt(s1, u), TokensAt(s, u));
      assert TokensAt(s2, u) != TokensAt(s, u);
    }
  }

  /** A reservation made at `at` and cancelled at `cancelAt`. */
  datatype Booking = Booking(at: Time, n: int, cancelAt: Time)

  /** Makes the reservations in order and then cancels them, the last one first. */
  function BookAndCancel(s: LimiterState, bookings: seq<Booking>): LimiterState
    decreases |bookings|
  {
    if bookings == [] then s
    else
      var b := bookings[0];
      var (s1, r) := Reserve(s, b.at, b.n, INF_DURATION);
      Cancel(BookAndCancel(s1, bookings[1..]), r, b.cancelAt)
  }

  /** The bookings nest in time, end by `deadline` and stay clear of the cap on waits. */
  ghost predicate Nested(s: LimiterState, bookings: seq<Booking>, deadline: Time)
    decreases |bookings|
  {
    bookings == [] ||
    var b := bookings[0];
    var (s1, r) := Reserve(s, b.at, b.n, INF_DURATION);
    && s.last <= b.at <= b.cancelAt <= deadline
    && 1 <= b.n <= s.burst
    && r.timeToAct < b.at + INF_DURATION
    && Nested(s1, bookings[1..], b.cancelAt)
  }

  /** The bucket is empty or in debt, and `lastEvent` is when the debt is paid. */
  ghost predicate Owing(s: LimiterState) {
    && OnGrid(s)
    && Level(s) <= 0.0
    && s.lastEvent as real == s.last as real - Level(s)
  }

  lemma ReserveLeavesOwing(s: LimiterState, t: Time, n: int)
    requires OnGrid(s) && s.last <= t && 1 <= n <= s.burst
    requires TokensAt(s, t) <= n as real
    requires Reserve(s, t, n, INF_DURATION).1.timeToAct < t + INF_DURATION
    ensures var (s1, r) := Reserve(s, t, n, INF_DURATION); r.ok && Owing(s1) && s1.lastEvent == r.timeToAct
  {
    ReserveInNanos(s, t, n, INF_DURATION);
    ReserveStaysOnGrid(s, t, n, INF_DURATION);
    GridLevels(s, t, n);
    InNanosIsMonotone(s.limit, TokensAt(s, t), n as real);
    InNanosIsMonotone(s.limit, n as real, TokensAt(s, t));
    WaitOfWhole(LevelAfter(s, t, n));
  }

  /** One booking on an owing bucket leaves the bucket owing, with the debt it had. */
  lemma OwingBooking(s: LimiterState, t: Time, n: int, s2: LimiterState, r: Reservation, u: Time)
    requires Owing(s) && s.last <= t <= u <= s.lastEvent && n >= 1
    requires Reserve(s, t, n, INF_DURATION).1 == r && r.ok && r.timeToAct < t + INF_DURATION
    requires Owing(s2) && s2.limit == s.limit && s2.burst == s.burst
    requires s2.lastEvent == r.timeToAct && s2.last <= u
    ensures var s3 := Cancel(s2, r, u);
            && Owing(s3) && s3.limit == s.limit && s3.burst == s.burst
            && s3.lastEvent == s.lastEvent && s3.last == u
  {
    ReserveInNanos(s, t, n, INF_DURATION);
    LevelGrowsLinearly(s, t);
    GridLevels(s, t, n);
    InNanosIsMonotone(s.limit, 0.0, n as real);
    InNanosIsMonotone(s.limit, n as real, s.burst as real);
    WaitOfWhole(LevelAfter(s, t, n));
    FloorOfWhole(InNanos(s.limit, n as real));
    CancelInNanos(s2, r, u);
    LevelGrowsLinearly(s2, u);
    IntIsWhole(u - s.lastEvent);
    var s3 := Cancel(s2, r, u);
    assert Level(s3) == (u - s.lastEvent) as real;
  }

  lemma {:induction false} OwingUnwinds(s: LimiterState, bookings: seq<Booking>, deadline: Time)
    requires Owing(s) && Nested(s, bookings, deadline) && s.last <= deadline <= s.lastEvent
    ensures var s' := BookAndCancel(s, bookings);
            && Owing(s') && s'.limit == s.limit && s'.burst == s.burst
            && s'.lastEvent == s.lastEvent && s.last <= s'.last <= deadline
    decreases |bookings|
  {
    if bookings != [] {
      var b := bookings[0];
      var (s1, r) := Reserve(s, b.at, b.n, INF_DURATION);
      ReserveInNanos(s, b.at, b.n, INF_DURATION);
      LevelGrowsLinearly(s, b.at);
      InNanosIsMonotone(s.limit, TokensAt(s, b.at), b.n as real);
      InNanosIsMonotone(s.limit, b.n as real, TokensAt(s, b.at));
      InNanosIsMonotone(s.limit, 0.0, b.n as real);
      ReserveLeavesOwing(s, b.at, b.n);
      OwingUnwinds(s1, bookings[1..], b.cancelAt);
      OwingBooking(s, b.at, b.n, BookAndCancel(s1, bookings[1..]), r, b.cancelAt);
    }
  }

  /** Any number of reservations, made on a bucket that the first one leaves without free
      tokens and cancelled last made first, all by the `timeToAct` of the first: the bucket
      is exactly as if none had been made. Here one token takes a whole number of
      nanoseconds. */
  lemma CancellingInReverseIsExactUndo(s: LimiterState, bookings: seq<Booking>)
    requires OnGrid(s) && bookings != []
    requires var b := bookings[0];
             var (_, r) := Reserve(s, b.at, b.n, INF_DURATION);
             TokensAt(s, b.at) <= b.n as real && Nested(s, bookings, r.timeToAct)
    ensures forall v | v >= bookings[0].cancelAt :: TokensAt(BookAndCancel(s, bookings), v) == TokensAt(s, v)
  {
    var b := bookings[0];
    var (s1, r) := Reserve(s, b.at, b.n, INF_DURATION);
    ReserveLeavesOwing(s, b.at, b.n);
    ReserveInNanos(s, b.at, b.n, INF_DURATION);
    OwingUnwinds(s1, bookings[1..], b.cancelAt);
    var s2 := BookAndCancel(s1, bookings[1..]);
    var s3 := Cancel(s2, r, b.cancelAt);
    CancelInNanos(s2, r, b.cancelAt);
    LevelGrowsLinearly(s, b.at);
    LevelGrowsLinearly(s2, b.cancelAt);
    InNanosIsMonotone(s.limit, 0.0, b.n as real);
    forall v | v >= b.cancelAt
      ensures TokensAt(s3, v) == TokensAt(s, v)
    {
      LevelGrowsLinearly(s, v);
      LevelGrowsLinearly(s3, v);
      InNanosIsMonotone(s.limit, TokensAt(s3, v), TokensAt(s, v));
    }
  }

  lemma FloorOfSum(x: real, y: real)
    requires x >= 0.0 && y >= 0.0
    ensures 0 <= (x + y).Floor - x.Floor - y.Floor <= 1
  {
  }

  /** Reserving `n` and cancelling, on a bucket `s` in debt until `paid` before truncation. */
  lemma InnerRoundTrip(s: LimiterState, inner: Booking, paid: Time)
    requires Positive(s.limit) && s.last <= inner.at <= inner.cancelAt <= paid && 1 <= inner.n <= s.burst
    requires Level(s) <= 0.0 && paid == s.last + (-Level(s)).Floor
    requires Reserve(s, inner.at, inner.n, INF_DURATION).1.timeToAct < inner.at + INF_DURATION
    ensures var (s2, r) := Reserve(s, inner.at, inner.n, INF_DURATION);
            var s3 := Cancel(s2, r, inner.cancelAt);
            var d := DurationFromTokens(s.limit, inner.n as real);
            && s3.limit == s.limit && s3.burst == s.burst && s3.last == inner.cancelAt
            && Level(s3) == Level(s) + (inner.cancelAt - s.last) as real
            && s3.lastEvent == r.timeToAct - d
            && 0 <= s3.lastEvent - paid <= 1
  {
    var n := inner.n as real;
    var cost := InNanos(s.limit, n);
    var (s2, r) := Reserve(s, inner.at, inner.n, INF_DURATION);
    ReserveInNanos(s, inner.at, inner.n, INF_DURATION);
    LevelGrowsLinearly(s, inner.at);
    InNanosIsMonotone(s.limit, 0.0, n);
    InNanosIsMonotone(s.limit, n, s.burst as real);
    assert s.burst as real >= n;
    WaitIsTruncatedDeficit(s.limit, n);
    FloorOfShift(cost - Level(s), inner.at - s.last);
    FloorOfSum(cost, -Level(s));
    LevelGrowsLinearly(s2, inner.cancelAt);
    CancelInNanos(s2, r, inner.cancelAt);
  }

  lemma FloorOfShift(x: real, k: int)
    ensures (x - k as real).Floor == x.Floor - k
  {
  }

  /** For any limit, an inner reservation cancelled first leaves the outer one exactly
      cancellable just when truncation does not show: the two `timeToAct` lie the truncated
      duration of the inner tokens apart. Otherwise a nanosecond's worth of tokens is lost. */
  lemma InnerCancelLeavesOuterExactIff(s: LimiterState, outer: Booking, inner: Booking)
    requires Positive(s.limit) && TokensAt(s, outer.at) <= outer.n as real
    requires s.last <= outer.at <= inner.at <= inner.cancelAt <= outer.cancelAt
    requires 1 <= outer.n <= s.burst && 1 <= inner.n <= s.burst
    requires var (s1, r1) := Reserve(s, outer.at, outer.n, INF_DURATION);
             var (s2, r2) := Reserve(s1, inner.at, inner.n, INF_DURATION);
             && outer.cancelAt <= r1.timeToAct < outer.at + INF_DURATION
             && r2.timeToAct < inner.at + INF_DURATION
    ensures var (s1, r1) := Reserve(s, outer.at, outer.n, INF_DURATION);
            var (s2, r2) := Reserve(s1, inner.at, inner.n, INF_DURATION);
            var s4 := Cancel(Cancel(s2, r2, inner.cancelAt), r1, outer.cancelAt);
            (forall v | v >= outer.cancelAt :: TokensAt(s4, v) == TokensAt(s, v))
              <==> r2.timeToAct - r1.timeToAct == DurationFromTokens(s.limit, inner.n as real)
  {
    var (s1, r1) := Reserve(s, outer.at, outer.n, INF_DURATION);
    var (s2, r2) := Reserve(s1, inner.at, inner.n, INF_DURATION);
    var s3 := Cancel(s2, r2, inner.cancelAt);
    var s4 := Cancel(s3, r1, outer.cancelAt);
    var n := outer.n as real;
    ReserveInNanos(s, outer.at, outer.n, INF_DURATION);
    InNanosIsMonotone(s.limit, n, TokensAt(s, outer.at));
    InNanosIsMonotone(s.limit, 0.0, n);
    InNanosIsMonotone(s.limit, n, s.burst as real);
    InnerRoundTrip(s1, inner, r1.timeToAct);
    LevelGrowsLinearly(s, outer.at);
    LevelGrowsLinearly(s3, outer.cancelAt);
    CancelInNanos(s3, r1, outer.cancelAt);
    if s3.lastEvent == r1.timeToAct {
      forall v | v >= outer.cancelAt
        ensures TokensAt(s4, v) == TokensAt(s, v)
      {
        LevelGrowsLinearly(s, v);
        LevelGrowsLinearly(s4, v);
        InNanosIsMonotone(s.limit, TokensAt(s4, v), TokensAt(s, v));
      }
    } else {
      LevelGrowsLinearly(s, outer.cancelAt);
      LevelGrowsLinearly(s4, outer.cancelAt);
      InNanosIsMonotone(s.limit, TokensAt(s4, outer.cancelAt), TokensAt(s, outer.cancelAt));
      assert TokensAt(s4, outer.cancelAt) != TokensAt(s, outer.cancelAt);
    }
  }

  /** The loss is real: at two tokens every three nanoseconds, an empty bucket does not come
      back from two reservations cancelled in reverse. */
  lemma InnerCancelCanLoseTokens()
    ensures var s := LimiterState(PerSecond(SECOND as real / 1.5), 1, 0.0, 0, 0);
            var (s1, r1) := Reserve(s, 0, 1, INF_DURATION);
            var (s2, r2) := Reserve(s1, 0, 1, INF_DURATION);
            TokensAt(Cancel(Cancel(s2, r2, 0), r1, 0), 0) < TokensAt(s, 0)
  {
    var s := LimiterState(PerSecond(SECOND as real / 1.5), 1, 0.0, 0, 0);
    assert Period(s.limit) == 1.5;
    var (s1, r1) := Reserve(s, 0, 1, INF_DURATION);
    ReserveInNanos(s, 0, 1, INF_DURATION);
    LevelGrowsLinearly(s, 0);
    var (s2, r2) := Reserve(s1, 0, 1, INF_DURATION);
    ReserveInNanos(s1, 0, 1, INF_DURATION);
    LevelGrowsLinearly(s1, 0);
    var s3 := Cancel(s2, r2, 0);
    CancelInNanos(s2, r2, 0);
    LevelGrowsLinearly(s2, 0);
    var s4 := Cancel(s3, r1, 0);
    CancelInNanos(s3, r1, 0);
    LevelGrowsLinearly(s3, 0);
    LevelGrowsLinearly(s4, 0);
    InNanosIsMonotone(s.limit, TokensAt(s4, 0), TokensAt(s, 0));
  }
}
