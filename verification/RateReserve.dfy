/** Reservations conform to the rate: runs of `ReserveN`. */
module RateReserve {
  import opened Clock
  import opened Rate
  import opened RateScale

  function Book(s: LimiterState, c: Call): (LimiterState, Reservation) {
    Reserve(s, c.at, c.n, INF_DURATION)
  }

  function AfterBooking(s: LimiterState, calls: seq<Call>): LimiterState {
    if calls == [] then s else Book(AfterBooking(s, calls[..|calls| - 1]), calls[|calls| - 1]).0
  }

  // When the holder of the k-th reservation of the run may act.
  function ActTime(s: LimiterState, calls: seq<Call>, k: nat): Time
    requires k < |calls|
  {
    Book(AfterBooking(s, calls[..k]), calls[k]).1.timeToAct
  }

  // The wait of the k-th reservation is cut off before its tokens are there.
  ghost predicate CutShort(s: LimiterState, calls: seq<Call>, k: nat)
    requires k < |calls|
  {
    var s' := Book(AfterBooking(s, calls[..k]), calls[k]).0;
    Positive(s'.limit) && CutOff(Level(s'))
  }

  function TokensIn(calls: seq<Call>): int {
    if calls == [] then 0 else TokensIn(calls[..|calls| - 1]) + calls[|calls| - 1].n
  }

  /** Call times do not decrease and no call asks for more than the bucket holds. */
  ghost predicate Bookable(s: LimiterState, calls: seq<Call>) {
    && (calls != [] ==> s.last <= calls[0].at)
    && (forall i :: 1 <= i < |calls| ==> calls[i - 1].at <= calls[i].at)
    && (forall i :: 0 <= i < |calls| ==> 1 <= calls[i].n <= s.burst)
  }

  lemma {:induction false} AfterBookingShape(s: LimiterState, calls: seq<Call>)
    requires Positive(s.limit)
    ensures var s' := AfterBooking(s, calls);
            && s'.limit == s.limit && s'.burst == s.burst
            && s'.last == if calls == [] then s.last else calls[|calls| - 1].at
  {
    if calls != [] {
      var init := calls[..|calls| - 1];
      AfterBookingShape(s, init);
      var c := calls[|calls| - 1];
      assert Book(AfterBooking(s, init), c).0.last == c.at;
    }
  }

  lemma BookOne(s: LimiterState, c: Call)
    requires Positive(s.limit) && s.last <= c.at && 1 <= c.n <= s.burst
    ensures var (s', r) := Book(s, c);
            && r.ok && s'.last == c.at && r.timeToAct == c.at + Wait(Level(s'))
            && Level(s') == Min(Capacity(s), Level(s) + (c.at - s.last) as real) - InNanos(s.limit, c.n as real)
  {
    ReserveInNanos(s, c.at, c.n, INF_DURATION);
    LevelGrowsLinearly(s, c.at);
  }

  /** Holders may act in the order in which they reserved. */
  lemma ActTimesDoNotDecrease(s: LimiterState, calls: seq<Call>, k: nat)
    requires Positive(s.limit) && Bookable(s, calls) && k + 1 < |calls|
    ensures ActTime(s, calls, k) <= ActTime(s, calls, k + 1)
  {
    var before := AfterBooking(s, calls[..k]);
    AfterBookingShape(s, calls[..k]);
    assert calls[..k + 1][..k] == calls[..k];
    var s1, r1 := Book(before, calls[k]).0, Book(before, calls[k]).1;
    assert AfterBooking(s, calls[..k + 1]) == s1;
    BookOne(before, calls[k]);
    BookOne(s1, calls[k + 1]);
    InNanosIsMonotone(s.limit, 0.0, calls[k + 1].n as real);
    WaitShrinksWithTime(Level(s1), Level(Book(s1, calls[k + 1]).0), calls[k + 1].at - calls[k].at);
  }

  lemma WaitShrinksWithTime(before: real, after: real, d: Duration)
    requires d >= 0 && after <= before + d as real
    ensures Wait(before) <= d + Wait(after)
  {
  }

  // What a stretch takes out of the bucket cannot exceed what was in it and what flowed in.
  lemma {:induction false} StretchConserves(s: LimiterState, calls: seq<Call>)
    requires Positive(s.limit) && Bookable(s, calls) && calls != []
    ensures var s' := AfterBooking(s, calls);
            && s'.limit == s.limit
            && InNanos(s.limit, TokensIn(calls) as real)
              <= LevelAt(s, calls[0].at) + (calls[|calls| - 1].at - calls[0].at) as real - Level(s')
  {
    var init, c := calls[..|calls| - 1], calls[|calls| - 1];
    var before := AfterBooking(s, init);
    AfterBookingShape(s, init);
    BookOne(before, c);
    InNanosAdds(s.limit, TokensIn(init) as real, c.n as real);
    InNanosIsMonotone(s.limit, 0.0, 0.0);
    LevelGrowsLinearly(s, calls[0].at);
    if init != [] {
      StretchConserves(s, init);
    }
  }

  /** The tokens of a whole run, against the times of its first and last reservation. */
  lemma RunConforms(s: LimiterState, calls: seq<Call>)
    requires Positive(s.limit) && Bookable(s, calls) && calls != []
    requires !CutShort(s, calls, |calls| - 1)
    ensures var span := (ActTime(s, calls, |calls| - 1) - ActTime(s, calls, 0)) as real;
            var taken := InNanos(s.limit, TokensIn(calls) as real);
            && taken < Capacity(s) + span + 1.0
            && (OnGrid(s) ==> taken <= Capacity(s) + span)
  {
    var last := |calls| - 1;
    var first, end := AfterBooking(s, calls[..1]), AfterBooking(s, calls);
    AfterBookingShape(s, calls[..last]);
    StretchConserves(s, calls);
    assert calls[..0] == [] && calls[..1][..0] == [];
    BookOne(s, calls[0]);
    BookOne(AfterBooking(s, calls[..last]), calls[last]);
    LevelGrowsLinearly(s, calls[0].at);
    InNanosIsMonotone(s.limit, calls[0].n as real, s.burst as real);
    InNanosIsMonotone(s.limit, s.burst as real, calls[0].n as real);
    if OnGrid(s) {
      BookingStaysOnGrid(s, calls);
      WaitOfWhole(Level(end));
    }
  }

  lemma {:induction false} BookingStaysOnGrid(s: LimiterState, calls: seq<Call>)
    requires OnGrid(s)
    ensures OnGrid(AfterBooking(s, calls))
  {
    if calls != [] {
      var init, c := calls[..|calls| - 1], calls[|calls| - 1];
      BookingStaysOnGrid(s, init);
      ReserveStaysOnGrid(AfterBooking(s, init), c.at, c.n, INF_DURATION);
    }
  }

  lemma {:induction false} AfterBookingSplits(s: LimiterState, calls: seq<Call>, k: nat)
    requires k <= |calls|
    ensures AfterBooking(s, calls) == AfterBooking(AfterBooking(s, calls[..k]), calls[k..])
    decreases |calls|
  {
    if k == |calls| {
      assert calls[..k] == calls && calls[k..] == [];
    } else {
      var init := calls[..|calls| - 1];
      AfterBookingSplits(s, init, k);
      assert init[..k] == calls[..k];
      assert init[k..] == calls[k..][..|calls| - k - 1];
    }
  }

  lemma ActTimeInStretch(s: LimiterState, calls: seq<Call>, i: nat, j: nat, k: nat)
    requires i <= k <= j < |calls|
    ensures var s1, stretch := AfterBooking(s, calls[..i]), calls[i..j + 1];
            && ActTime(s1, stretch, k - i) == ActTime(s, calls, k)
            && CutShort(s1, stretch, k - i) == CutShort(s, calls, k)
  {
    AfterBookingSplits(s, calls[..k], i);
    assert calls[..k][..i] == calls[..i];
    assert calls[..k][i..] == calls[i..j + 1][..k - i];
  }

  /** Reservation conformance: in every run of `ReserveN` from any state, the tokens reserved
      by any stretch of consecutive calls stay within the burst and what accrues between the
      times at which its first and last holders act. Truncating waits to whole nanoseconds
      costs less than one nanosecond's worth of tokens, and nothing if a token takes a whole
      number of nanoseconds and the bucket starts on one. It takes that the last wait is not
      cut off at the longest duration. */
  lemma ReservationsConform(s: LimiterState, calls: seq<Call>, i: nat, j: nat)
    requires Positive(s.limit) && Bookable(s, calls) && i <= j < |calls|
    requires !CutShort(s, calls, j)
    ensures var span := (ActTime(s, calls, j) - ActTime(s, calls, i)) as real;
            var taken := InNanos(s.limit, TokensIn(calls[i..j + 1]) as real);
            && taken < Capacity(s) + span + 1.0
            && (OnGrid(s) ==> taken <= Capacity(s) + span)
  {
    var s1, stretch := AfterBooking(s, calls[..i]), calls[i..j + 1];
    AfterBookingShape(s, calls[..i]);
    ActTimeInStretch(s, calls, i, j, i);
    ActTimeInStretch(s, calls, i, j, j);
    assert i > 0 ==> calls[..i][i - 1].at <= calls[i].at;
    assert Bookable(s1, stretch);
    if OnGrid(s) {
      BookingStaysOnGrid(s, calls[..i]);
    }
    RunConforms(s1, stretch);
  }

  // The tokens that a run of calls takes, in the time they need to accrue.
  ghost function Taken(limit: Limit, calls: seq<Call>): real
    requires Positive(limit)
  {
    InNanos(limit, TokensIn(calls) as real)
  }

  // From the time its first holder may act to the time its last may.
  function Span(s: LimiterState, calls: seq<Call>): Duration
    requires calls != []
  {
    ActTime(s, calls, |calls| - 1) - ActTime(s, calls, 0)
  }

  lemma BookAnother(s: LimiterState, t: Time)
    requires Positive(s.limit) && s.burst >= 1 && s.last <= t
    ensures var (s', r) := Book(s, Call(t, 1));
            && s'.limit == s.limit && s'.burst == s.burst && s'.last == t
            && Level(s') == LevelAt(s', t) == LevelAt(s, t) - Period(s.limit)
            && r.timeToAct == t + Wait(Level(s'))
  {
    BookOne(s, Call(t, 1));
    LevelGrowsLinearly(s, t);
    LevelGrowsLinearly(Book(s, Call(t, 1)).0, t);
    assert InNanos(s.limit, 1.0) == Period(s.limit);
  }

  lemma {:induction false} TokensInUnitCalls(t: Time, k: nat)
    ensures TokensIn(UnitCalls(t, k)) == k
  {
    if k > 0 {
      assert UnitCalls(t, k)[..k - 1] == UnitCalls(t, k - 1);
      TokensInUnitCalls(t, k - 1);
    }
  }

  lemma {:induction false} UnitCallsTakeAll(limit: Limit, burst: int, t: Time, k: nat)
    requires Positive(limit) && burst >= 1 && t >= 0
    ensures var s := NewLimiter(limit, burst);
            var s' := AfterBooking(s, UnitCalls(t, k));
            && Bookable(s, UnitCalls(t, k))
            && s'.limit == limit && s'.burst == burst && s'.last <= t
            && LevelAt(s', t) == Capacity(s) - InNanos(limit, k as real)
  {
    var s := NewLimiter(limit, burst);
    if k == 0 {
      LevelGrowsLinearly(s, t);
      InNanosIsMonotone(limit, 0.0, 0.0);
    } else {
      assert UnitCalls(t, k)[..k - 1] == UnitCalls(t, k - 1);
      UnitCallsTakeAll(limit, burst, t, k - 1);
      BookAnother(AfterBooking(s, UnitCalls(t, k - 1)), t);
      InNanosAdds(limit, (k - 1) as real, 1.0);
    }
  }

  lemma UnitCallsEnd(limit: Limit, burst: int, t: Time, k: nat)
    requires Positive(limit) && burst >= 1 && t >= 0 && k >= 1
    ensures var s, calls := NewLimiter(limit, burst), UnitCalls(t, k);
            var left := Capacity(s) - InNanos(limit, k as real);
            && ActTime(s, calls, k - 1) == t + Wait(left)
            && CutShort(s, calls, k - 1) == CutOff(left)
            && ActTime(s, calls, 0) == t
  {
    var s, calls := NewLimiter(limit, burst), UnitCalls(t, k);
    assert calls[..k - 1] == UnitCalls(t, k - 1) && calls[..0] == [];
    UnitCallsTakeAll(limit, burst, t, k - 1);
    BookAnother(AfterBooking(s, calls[..k - 1]), t);
    InNanosAdds(limit, (k - 1) as real, 1.0);
    BookAnother(s, t);
    LevelGrowsLinearly(s, t);
    InNanosIsMonotone(limit, burst as real, 1.0);
  }

  /** What the condition on the last wait is needed for: reservations of one token each, made at
      one instant on a new limiter, keep to the bound just when the last wait is not cut off. */
  lemma UnitCallsConformIff(limit: Limit, burst: int, t: Time, k: nat)
    requires Positive(limit) && burst >= 1 && t >= 0 && k >= 1
    ensures var s, calls := NewLimiter(limit, burst), UnitCalls(t, k);
            && Bookable(s, calls)
            && (Taken(limit, calls) < Capacity(s) + Span(s, calls) as real + 1.0 <==> !CutShort(s, calls, k - 1))
  {
    UnitCallsTakeAll(limit, burst, t, k);
    UnitCallsEnd(limit, burst, t, k);
    TokensInUnitCalls(t, k);
  }

  /** For every limit there is such a run that breaks the bound: one that owes longer than the
      longest duration. */
  lemma CappedWaitsBreakTheBound(limit: Limit, burst: int)
    requires Positive(limit) && burst >= 1
    ensures var s := NewLimiter(limit, burst);
            exists k: nat :: k >= 1 && Bookable(s, UnitCalls(0, k))
              && Taken(limit, UnitCalls(0, k)) >= Capacity(s) + Span(s, UnitCalls(0, k)) as real + 1.0
  {
    var m: nat := ((INF_DURATION + 1) as real / Period(limit)).Floor + 1;
    DebtOfMany(limit, INF_DURATION + 1, m);
    var k := burst + m;
    InNanosAdds(limit, burst as real, m as real);
    UnitCallsEnd(limit, burst, 0, k);
    UnitCallsConformIff(limit, burst, 0, k);
  }

  lemma DebtOfMany(limit: Limit, owed: int, m: nat)
    requires Positive(limit) && owed >= 0 && m == (owed as real / Period(limit)).Floor + 1
    ensures InNanos(limit, m as real) >= owed as real
  {
    var p := Period(limit);
    assert m as real >= owed as real / p;
    assert m as real * p >= owed as real / p * p;
  }

  // Every run on a fresh limiter keeps to the rate exactly.
  ghost predicate ConformsExactly(limit: Limit, burst: int)
    requires Positive(limit)
  {
    var s := NewLimiter(limit, burst);
    forall calls: seq<Call>, i: nat, j: nat |
      Bookable(s, calls) && i <= j < |calls| && !CutShort(s, calls, j) ::
      InNanos(limit, TokensIn(calls[i..j + 1]) as real)
        <= Capacity(s) + (ActTime(s, calls, j) - ActTime(s, calls, i)) as real
  }

  /** The exact bound holds for the limits that `Every` makes, and for no others. */
  lemma ConformsExactlyIffEvery(limit: Limit, burst: int)
    requires Positive(limit) && burst >= 1
    ensures ConformsExactly(limit, burst) <==> exists interval: Duration :: interval > 0 && limit == Every(interval)
  {
    var s := NewLimiter(limit, burst);
    WholePeriodIsEvery(limit);
    if Whole(Period(limit)) {
      FreshIsOnGrid(limit, burst);
      forall calls: seq<Call>, i: nat, j: nat |
        Bookable(s, calls) && i <= j < |calls| && !CutShort(s, calls, j)
        ensures InNanos(limit, TokensIn(calls[i..j + 1]) as real)
                  <= Capacity(s) + (ActTime(s, calls, j) - ActTime(s, calls, i)) as real
      {
        ReservationsConform(s, calls, i, j);
      }
    } else {
      OneMoreThanTheBurst(limit, burst);
    }
  }

  // Take the burst at time zero, and one more token a fraction of a nanosecond too soon.
  lemma OneMoreThanTheBurst(limit: Limit, burst: int)
    requires Positive(limit) && burst >= 1 && !Whole(Period(limit))
    ensures !ConformsExactly(limit, burst)
  {
    var s := NewLimiter(limit, burst);
    var early := Period(limit).Floor;
    var calls := [Call(0, burst), Call(early, 1)];
    var one := calls[..1];
    assert one == [calls[0]] && one[..0] == [] && calls[..0] == [] && calls[0..2] == calls;
    var s1 := Book(s, calls[0]).0;
    assert AfterBooking(s, one) == s1;
    BookOne(s, calls[0]);
    BookOne(s1, calls[1]);
    assert InNanos(limit, 1.0) == Period(limit);
    InNanosIsMonotone(limit, 1.0, burst as real);
    InNanosIsMonotone(limit, burst as real, 1.0);
    assert Level(Book(s1, calls[1]).0) == early as real - Period(limit);
    assert TokensIn(one) == burst;
    assert TokensIn(calls) == burst + 1;
    InNanosAdds(limit, burst as real, 1.0);
    assert early as real != Period(limit) by {
      IntIsWhole(early);
    }
    assert Bookable(s, calls);
    assert ActTime(s, calls, 1) == early && !CutShort(s, calls, 1);
    assert ActTime(s, calls, 0) == 0;
  }
}
