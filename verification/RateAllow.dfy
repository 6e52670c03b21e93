/** Runs of `AllowN`: how much is admitted, what the penalty costs, how long a herd lasts. */
module RateAllow {
  import opened Clock
  import opened Rate
  import opened RateScale

  function AfterCalls(s: LimiterState, calls: seq<Call>): LimiterState {
    if calls == [] then s
    else
      var last := |calls| - 1;
      Allow(AfterCalls(s, calls[..last]), calls[last].at, calls[last].n)
  }

  lemma OneMoreCall(s: LimiterState, calls: seq<Call>, c: Call)
    ensures AfterCalls(s, calls + [c]) == Allow(AfterCalls(s, calls), c.at, c.n)
  {
    assert (calls + [c])[..|calls|] == calls;
  }

  // Whether the k-th call of the run is granted.
  predicate Granted(s: LimiterState, calls: seq<Call>, k: nat)
    requires k < |calls|
  {
    Allowed(AfterCalls(s, calls[..k]), calls[k].at, calls[k].n)
  }

  function TokensGranted(s: LimiterState, calls: seq<Call>): int {
    if calls == [] then 0
    else
      var last := |calls| - 1;
      TokensGranted(s, calls[..last]) + if Granted(s, calls, last) then calls[last].n else 0
  }

  function Rejections(s: LimiterState, calls: seq<Call>): nat {
    if calls == [] then 0
    else
      var last := |calls| - 1;
      Rejections(s, calls[..last]) + if Granted(s, calls, last) then 0 else 1
  }

  ghost predicate Ordered(s: LimiterState, calls: seq<Call>) {
    && (calls != [] ==> s.last <= calls[0].at)
    && (forall i :: 1 <= i < |calls| ==> calls[i - 1].at <= calls[i].at)
    && (forall i :: 0 <= i < |calls| ==> calls[i].n >= 1)
  }

  /** The states that calls of AllowN alone lead to: less than a nanosecond of debt. */
  ghost predicate Sound(s: LimiterState) {
    Positive(s.limit) && s.burst >= 0 && Level(s) > -1.0
  }

  lemma AllowOne(s: LimiterState, t: Time, n: int)
    requires Sound(s)
    ensures var s' := Allow(s, t, n);
            var before := Min(Capacity(s), Level(s) + Elapsed(s, t) as real);
            var after := before - InNanos(s.limit, n as real);
            && Sound(s') && s'.limit == s.limit && s'.burst == s.burst && s'.last == t
            && Allowed(s, t, n) == (n <= s.burst && after > -1.0)
            && Level(s') == (if Allowed(s, t, n) then after else 0.0)
            && before > -1.0
    ensures OnGrid(s) ==> OnGrid(Allow(s, t, n))
  {
    AllowInNanos(s, t, n);
    LevelGrowsLinearly(s, t);
    InNanosIsMonotone(s.limit, 0.0, s.burst as real);
    InNanosIsMonotone(s.limit, s.burst as real, 0.0);
    if OnGrid(s) {
      ReserveStaysOnGrid(s, t, n, 0);
    }
  }

  lemma {:induction false} RunStaysSound(s: LimiterState, calls: seq<Call>)
    requires Sound(s)
    ensures var s' := AfterCalls(s, calls);
            && Sound(s') && s'.limit == s.limit && s'.burst == s.burst
            && s'.last == if calls == [] then s.last else calls[|calls| - 1].at
    ensures OnGrid(s) ==> OnGrid(AfterCalls(s, calls))
  {
    if calls != [] {
      var last := |calls| - 1;
      RunStaysSound(s, calls[..last]);
      AllowOne(AfterCalls(s, calls[..last]), calls[last].at, calls[last].n);
    }
  }

  lemma WholeAboveMinusOne(x: real)
    requires Whole(x) && x > -1.0
    ensures x >= 0.0
  {
    var k :| x == AsReal(k);
    assert k > -1;
  }

  // By how much call times go back, in all.
  function Rewound(calls: seq<Call>): Duration {
    if |calls| <= 1 then 0
    else
      var init, t := calls[..|calls| - 1], calls[|calls| - 1].at;
      Rewound(init) + if t < calls[|calls| - 2].at then calls[|calls| - 2].at - t else 0
  }

  lemma {:induction false} OrderedIsNotRewound(calls: seq<Call>)
    requires forall i :: 1 <= i < |calls| ==> calls[i - 1].at <= calls[i].at
    ensures Rewound(calls) == 0
  {
    if |calls| > 1 {
      var init := calls[..|calls| - 1];
      assert forall i :: 0 <= i < |init| ==> init[i] == calls[i];
      OrderedIsNotRewound(init);
    }
  }

  // What is granted comes out of the bucket; a rejection forgives less than a nanosecond.
  lemma {:induction false} GrantsAreConserved(s: LimiterState, calls: seq<Call>)
    requires Sound(s) && calls != []
    ensures var s' := AfterCalls(s, calls);
            var granted := InNanos(s.limit, TokensGranted(s, calls) as real);
            var inflow := (calls[|calls| - 1].at - calls[0].at + Rewound(calls)) as real;
            && s'.limit == s.limit
            && granted <= LevelAt(s, calls[0].at) + inflow - Level(s') + Rejections(s, calls) as real
            && (OnGrid(s) ==> granted <= LevelAt(s, calls[0].at) + inflow - Level(s'))
  {
    var last := |calls| - 1;
    var init, c := calls[..last], calls[last];
    var before := AfterCalls(s, init);
    RunStaysSound(s, init);
    AllowOne(before, c.at, c.n);
    InNanosAdds(s.limit, TokensGranted(s, init) as real, c.n as real);
    InNanosIsMonotone(s.limit, 0.0, 0.0);
    LevelGrowsLinearly(s, calls[0].at);
    LevelGrowsLinearly(before, c.at);
    if OnGrid(s) {
      GridLevels(before, c.at, 0);
      WholeAboveMinusOne(LevelAt(before, c.at));
    }
    if init != [] {
      GrantsAreConserved(s, init);
    }
  }

  lemma {:induction false} AfterCallsSplits(s: LimiterState, calls: seq<Call>, k: nat)
    requires k <= |calls|
    ensures AfterCalls(s, calls) == AfterCalls(AfterCalls(s, calls[..k]), calls[k..])
    decreases |calls|
  {
    if k == |calls| {
      assert calls[..k] == calls && calls[k..] == [];
    } else {
      var init := calls[..|calls| - 1];
      AfterCallsSplits(s, init, k);
      assert init[..k] == calls[..k];
      assert init[k..] == calls[k..][..|calls| - k - 1];
    }
  }

  /** The admission bound, over any window of any run: no more is granted than the burst and
      what accrues in the window, counting time that calls go back over as often as they do. A
      limit whose period is not a whole number of nanoseconds exceeds it by less than one
      nanosecond's worth, and one more for each rejection. */
  lemma AdmissionIsBoundedInAnyOrder(s: LimiterState, calls: seq<Call>, i: nat, j: nat)
    requires Sound(s) && i <= j < |calls|
    ensures var window := calls[i..j + 1];
            var s' := AfterCalls(s, calls[..i]);
            var granted := InNanos(s.limit, TokensGranted(s', window) as real);
            var bound := Capacity(s) + (calls[j].at - calls[i].at + Rewound(window)) as real;
            && granted < bound + 1.0 + Rejections(s', window) as real
            && (OnGrid(s) ==> granted <= bound)
  {
    var s', window := AfterCalls(s, calls[..i]), calls[i..j + 1];
    RunStaysSound(s, calls[..i]);
    GrantsAreConserved(s', window);
    RunStaysSound(s', window);
    LevelGrowsLinearly(s', calls[i].at);
    if OnGrid(s) {
      WholeAboveMinusOne(Level(AfterCalls(s', window)));
    }
  }

  /** With call times that do not decrease it is the bound one expects. */
  lemma AdmissionIsBounded(s: LimiterState, calls: seq<Call>, i: nat, j: nat)
    requires Sound(s) && Ordered(s, calls) && i <= j < |calls|
    ensures var window := calls[i..j + 1];
            var s' := AfterCalls(s, calls[..i]);
            var granted := InNanos(s.limit, TokensGranted(s', window) as real);
            var bound := Capacity(s) + (calls[j].at - calls[i].at) as real;
            && granted < bound + 1.0 + Rejections(s', window) as real
            && (OnGrid(s) ==> granted <= bound)
  {
    AdmissionIsBoundedInAnyOrder(s, calls, i, j);
    OrderedIsNotRewound(calls[i..j + 1]);
  }

  lemma WholeRunIsBounded(s: LimiterState, calls: seq<Call>)
    requires Sound(s) && OnGrid(s) && Ordered(s, calls) && calls != []
    ensures InNanos(s.limit, TokensGranted(s, calls) as real)
              <= Capacity(s) + (calls[|calls| - 1].at - calls[0].at) as real
  {
    AdmissionIsBounded(s, calls, 0, |calls| - 1);
    assert calls[..0] == [] && calls[0..|calls|] == calls;
  }

  // Every run on a fresh limiter admits within the bound exactly.
  ghost predicate AdmitsExactly(limit: Limit, burst: int)
    requires Positive(limit)
  {
    var s := NewLimiter(limit, burst);
    forall calls: seq<Call> | Ordered(s, calls) && calls != [] ::
      InNanos(limit, TokensGranted(s, calls) as real)
        <= Capacity(s) + (calls[|calls| - 1].at - calls[0].at) as real
  }

  lemma FreshIsSound(limit: Limit, burst: int)
    requires Positive(limit) && burst >= 0
    ensures Sound(NewLimiter(limit, burst))
    ensures Level(NewLimiter(limit, burst)) == Capacity(NewLimiter(limit, burst)) >= 0.0
  {
    InNanosIsMonotone(limit, burst as real, 0.0);
  }

  /** The bound is exact for the limits that `Every` makes and for no others. */
  lemma AdmitsExactlyIffEvery(limit: Limit, burst: int)
    requires Positive(limit) && burst >= 1
    ensures AdmitsExactly(limit, burst) <==> exists interval: Duration :: interval > 0 && limit == Every(interval)
  {
    var s := NewLimiter(limit, burst);
    WholePeriodIsEvery(limit);
    FreshIsSound(limit, burst);
    if Whole(Period(limit)) {
      FreshIsOnGrid(limit, burst);
      forall calls: seq<Call> | Ordered(s, calls) && calls != []
        ensures InNanos(limit, TokensGranted(s, calls) as real)
                  <= Capacity(s) + (calls[|calls| - 1].at - calls[0].at) as real
      {
        WholeRunIsBounded(s, calls);
      }
    } else {
      var early := Period(limit).Floor;
      var calls := DrainThenOne(limit, burst);
      assert Ordered(s, calls);
      assert early as real != Period(limit) by {
        IntIsWhole(early);
      }
      InNanosAdds(limit, burst as real, 1.0);
    }
  }

  // The burst at time zero, and one more token a fraction of a nanosecond too soon.
  lemma DrainThenOne(limit: Limit, burst: int) returns (calls: seq<Call>)
    requires Positive(limit) && burst >= 1
    ensures calls == [Call(0, burst), Call(Period(limit).Floor, 1)]
    ensures var s := NewLimiter(limit, burst);
            && TokensGranted(s, calls) == burst + 1
            && AfterCalls(s, calls).limit == limit
            && Level(AfterCalls(s, calls)) == Period(limit).Floor as real - Period(limit)
  {
    var s := NewLimiter(limit, burst);
    calls := [Call(0, burst), Call(Period(limit).Floor, 1)];
    FreshIsSound(limit, burst);
    AllowOne(s, 0, burst);
    var s1 := Allow(s, 0, burst);
    AllowOne(s1, calls[1].at, 1);
    assert InNanos(limit, 1.0) == Period(limit);
    InNanosIsMonotone(limit, 1.0, burst as real);
    InNanosIsMonotone(limit, burst as real, 1.0);
    assert calls[..1] == [calls[0]] && calls[..1][..0] == [] && calls[..0] == [];
    assert AfterCalls(s, calls[..1]) == s1;
    assert TokensGranted(s, calls[..1]) == burst;
  }

  // ---- Call times that go back ----

  ghost function Later(t: Time, u: Time): Time {
    if t < u then u else t
  }

  /** No call makes tokens, seen from the later of its time and the last: what it grants and
      what it leaves were there before. */
  ghost predicate MakesNothing(s: LimiterState, t: Time, n: int)
    requires Positive(s.limit) && Positive(Allow(s, t, n).limit)
  {
    var v := Later(t, s.last);
    var granted := if Allowed(s, t, n) then InNanos(s.limit, n as real) else 0.0;
    LevelAt(Allow(s, t, n), v) + granted <= LevelAt(s, v)
  }

  /** A call that is granted makes tokens just when it reports a time before the last: the time
      between then accrues once more. One that is refused empties the bucket, and makes tokens
      just when it goes back for longer than that wiped out. */
  lemma CallMakesNothingIff(s: LimiterState, t: Time, n: int)
    requires Positive(s.limit) && s.burst >= 0 && n >= 1
    ensures Positive(Allow(s, t, n).limit)
    ensures MakesNothing(s, t, n)
            <==> if Allowed(s, t, n) then t >= s.last
                 else Min(Capacity(s), (Later(t, s.last) - t) as real) <= LevelAt(s, t)
    ensures OnGrid(s) && Sound(s) && t >= s.last ==> MakesNothing(s, t, n)
  {
    var v := Later(t, s.last);
    AllowInNanos(s, t, n);
    LevelGrowsLinearly(s, t);
    LevelGrowsLinearly(s, v);
    LevelGrowsLinearly(Allow(s, t, n), v);
    InNanosIsMonotone(s.limit, 0.0, n as real);
    InNanosIsMonotone(s.limit, s.burst as real, 0.0);
    if OnGrid(s) && Sound(s) && t >= s.last {
      GridLevels(s, t, n);
      WholeAboveMinusOne(LevelAt(s, t));
    }
  }

  lemma OneMoreGranted(s: LimiterState, calls: seq<Call>, c: Call)
    ensures TokensGranted(s, calls + [c])
              == TokensGranted(s, calls) + if Allowed(AfterCalls(s, calls), c.at, c.n) then c.n else 0
  {
    assert (calls + [c])[..|calls|] == calls;
  }

  // Drain the bucket, go back by `d` with a call that is refused, and ask for `n` more.
  function Rewinding(burst: int, t: Time, d: Duration, n: int): seq<Call> {
    [Call(t, burst), Call(t - d, burst + 1), Call(t, n)]
  }

  /** Going back by `d` lets that much accrue in no time, for every limit: `n` more tokens than
      the burst are granted at one instant just when they fit the burst and take less than
      `d` + 1 nanoseconds to accrue. */
  lemma RewindingBreaksTheBoundIff(limit: Limit, burst: int, t: Time, d: Duration, n: int)
    requires Positive(limit) && burst >= 1 && d >= 0 && n >= 1
    ensures TokensGranted(NewLimiter(limit, burst), Rewinding(burst, t, d, n))
              == burst + if n <= burst && InNanos(limit, n as real) < (d + 1) as real then n else 0
  {
    var s := NewLimiter(limit, burst);
    var one, two := [Call(t, burst)], [Call(t, burst), Call(t - d, burst + 1)];
    assert one == [] + one && two == one + [Call(t - d, burst + 1)];
    assert Rewinding(burst, t, d, n) == two + [Call(t, n)];
    FreshIsSound(limit, burst);
    OneMoreCall(s, [], Call(t, burst));
    OneMoreGranted(s, [], Call(t, burst));
    AllowOne(s, t, burst);
    var s1 := Allow(s, t, burst);
    OneMoreCall(s, one, Call(t - d, burst + 1));
    OneMoreGranted(s, one, Call(t - d, burst + 1));
    AllowOne(s1, t - d, burst + 1);
    OneMoreGranted(s, two, Call(t, n));
    AllowOne(Allow(s1, t - d, burst + 1), t, n);
    InNanosIsMonotone(limit, burst as real, n as real);
    InNanosIsMonotone(limit, n as real, burst as real);
  }
}
