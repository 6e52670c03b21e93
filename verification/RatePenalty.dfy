/** What the penalty on a refused call does to later ones. */
module RatePenalty {
  import opened Clock
  import opened Rate
  import opened RateScale
  import opened RateAllow

  /** The limiter without the penalty branch: a refused call leaves no trace. */
  function AllowPlain(s: LimiterState, t: Time, n: int): LimiterState {
    if Allowed(s, t, n) then Allow(s, t, n) else s
  }

  function AfterPlain(s: LimiterState, calls: seq<Call>): LimiterState {
    if calls == [] then s
    else
      var last := |calls| - 1;
      AllowPlain(AfterPlain(s, calls[..last]), calls[last].at, calls[last].n)
  }

  predicate GrantedPlain(s: LimiterState, calls: seq<Call>, k: nat)
    requires k < |calls|
  {
    Allowed(AfterPlain(s, calls[..k]), calls[k].at, calls[k].n)
  }

  ghost function EndTime(s: LimiterState, calls: seq<Call>): Time {
    if calls == [] then s.last else calls[|calls| - 1].at
  }

  /** Less than a nanosecond ahead at `t`; on the grid, not ahead at all. */
  ghost predicate Behind(a: LimiterState, b: LimiterState, t: Time, grid: bool) {
    && Sound(a) && Sound(b) && a.limit == b.limit && a.burst == b.burst && a.last <= t && b.last <= t
    && LevelAt(a, t) < LevelAt(b, t) + 1.0
    && (grid ==> OnGrid(a) && OnGrid(b) && LevelAt(a, t) <= LevelAt(b, t))
  }

  lemma StaysBehind(a: LimiterState, b: LimiterState, t: Time, u: Time, grid: bool)
    requires Behind(a, b, t, grid) && t <= u
    ensures Behind(a, b, u, grid)
  {
    LevelGrowsLinearly(a, t);
    LevelGrowsLinearly(b, t);
    LevelGrowsLinearly(a, u);
    LevelGrowsLinearly(b, u);
  }

  lemma CallLevels(s: LimiterState, t: Time, n: int)
    requires Sound(s) && s.last <= t && n >= 1
    ensures var cost := InNanos(s.limit, n as real);
            var before := LevelAt(s, t);
            var a, b := Allow(s, t, n), AllowPlain(s, t, n);
            && Sound(a) && Sound(b) && a.limit == b.limit == s.limit && a.burst == b.burst == s.burst
            && a.last == t && b.last <= t
            && cost > 0.0 && before > -1.0
            && Allowed(s, t, n) == (n <= s.burst && before - cost > -1.0)
            && LevelAt(a, t) == (if Allowed(s, t, n) then before - cost else 0.0)
            && LevelAt(b, t) == (if Allowed(s, t, n) then before - cost else before)
    ensures OnGrid(s) ==> OnGrid(Allow(s, t, n)) && OnGrid(AllowPlain(s, t, n))
    ensures OnGrid(s) ==> Whole(LevelAt(s, t)) && Whole(LevelAt(s, t) - InNanos(s.limit, n as real))
  {
    AllowOne(s, t, n);
    LevelGrowsLinearly(s, t);
    LevelGrowsLinearly(Allow(s, t, n), t);
    InNanosIsMonotone(s.limit, 0.0, n as real);
    InNanosIsMonotone(s.limit, s.burst as real, 0.0);
    if OnGrid(s) {
      GridLevels(s, t, n);
    }
  }

  lemma CallStaysBehind(a: LimiterState, b: LimiterState, c: Call, grid: bool)
    requires Behind(a, b, c.at, grid) && c.n >= 1
    ensures Behind(Allow(a, c.at, c.n), AllowPlain(b, c.at, c.n), c.at, grid)
    ensures grid && Allowed(a, c.at, c.n) ==> Allowed(b, c.at, c.n)
  {
    CallLevels(a, c.at, c.n);
    CallLevels(b, c.at, c.n);
    if grid {
      WholeAboveMinusOne(LevelAt(b, c.at));
      if Allowed(b, c.at, c.n) {
        WholeAboveMinusOne(LevelAt(b, c.at) - InNanos(b.limit, c.n as real));
      }
    }
  }

  lemma {:induction false} RunStaysBehind(s: LimiterState, calls: seq<Call>)
    requires Sound(s) && Ordered(s, calls)
    ensures Behind(AfterCalls(s, calls), AfterPlain(s, calls), EndTime(s, calls), OnGrid(s))
    ensures OnGrid(s) ==> forall k | 0 <= k < |calls| :: Granted(s, calls, k) ==> GrantedPlain(s, calls, k)
  {
    if calls != [] {
      var last := |calls| - 1;
      var init := calls[..last];
      RunStaysBehind(s, init);
      var a, b := AfterCalls(s, init), AfterPlain(s, init);
      StaysBehind(a, b, EndTime(s, init), calls[last].at, OnGrid(s));
      CallStaysBehind(a, b, calls[last], OnGrid(s));
      if OnGrid(s) {
        forall k | 0 <= k < |calls|
          ensures Granted(s, calls, k) ==> GrantedPlain(s, calls, k)
        {
          if k < last {
            assert init[..k] == calls[..k];
            assert Granted(s, init, k) ==> GrantedPlain(s, init, k);
          }
        }
      }
    } else {
      LevelGrowsLinearly(s, s.last);
    }
  }

  /** The penalty only tightens: with a limit made by `Every`, in every run of `AllowN` the
      penalised bucket never has more than the plain one, and grants no call that the plain
      one refuses. For any other limit it can be ahead, by less than a nanosecond's worth. */
  lemma PenaltyOnlyTightens(limit: Limit, burst: int, calls: seq<Call>, t: Time)
    requires Positive(limit) && burst >= 0
    requires var s := NewLimiter(limit, burst); Ordered(s, calls) && EndTime(s, calls) <= t
    ensures var s := NewLimiter(limit, burst);
            var penalised, plain := AfterCalls(s, calls), AfterPlain(s, calls);
            && penalised.limit == plain.limit == limit
            && LevelAt(penalised, t) < LevelAt(plain, t) + 1.0
            && (Whole(Period(limit)) ==>
                  && TokensAt(penalised, t) <= TokensAt(plain, t)
                  && forall k | 0 <= k < |calls| :: Granted(s, calls, k) ==> GrantedPlain(s, calls, k))
  {
    var s := NewLimiter(limit, burst);
    FreshIsSound(limit, burst);
    if Whole(Period(limit)) {
      FreshIsOnGrid(limit, burst);
    }
    RunStaysBehind(s, calls);
    var penalised, plain := AfterCalls(s, calls), AfterPlain(s, calls);
    RunStaysSound(s, calls);
    StaysBehind(penalised, plain, EndTime(s, calls), t, OnGrid(s));
    InNanosIsMonotone(limit, TokensAt(plain, t), TokensAt(penalised, t));
  }

  ghost predicate NeverAhead(limit: Limit, burst: int) {
    var s := NewLimiter(limit, burst);
    forall calls: seq<Call>, t: Time | Ordered(s, calls) && EndTime(s, calls) <= t ::
      TokensAt(AfterCalls(s, calls), t) <= TokensAt(AfterPlain(s, calls), t)
  }

  /** The limits for which the penalty never puts a bucket ahead are those of `Every`. */
  lemma NeverAheadIffEvery(limit: Limit, burst: int)
    requires Positive(limit) && burst >= 1
    ensures NeverAhead(limit, burst) <==> exists interval: Duration :: interval > 0 && limit == Every(interval)
  {
    var s := NewLimiter(limit, burst);
    WholePeriodIsEvery(limit);
    if Whole(Period(limit)) {
      forall calls: seq<Call>, t: Time | Ordered(s, calls) && EndTime(s, calls) <= t
        ensures TokensAt(AfterCalls(s, calls), t) <= TokensAt(AfterPlain(s, calls), t)
      {
        PenaltyOnlyTightens(limit, burst, calls, t);
      }
    } else {
      PenaltyForgivesAFraction(limit, burst);
    }
  }

  // A call for more than the burst is always refused, and wipes the fraction owed.
  lemma PenaltyForgivesAFraction(limit: Limit, burst: int)
    requires Positive(limit) && burst >= 1 && !Whole(Period(limit))
    ensures !NeverAhead(limit, burst)
  {
    var s := NewLimiter(limit, burst);
    var early := Period(limit).Floor;
    var two := DrainThenOne(limit, burst);
    assert early as real != Period(limit) by {
      IntIsWhole(early);
    }
    var refused := Call(early, burst + 1);
    var calls := two + [refused];
    assert calls[..2] == two && Ordered(s, calls);
    FreshIsSound(limit, burst);
    RunStaysSound(s, two);
    var owing := AfterCalls(s, two);
    PlainAgreesWhileGranting(limit, burst, two);
    AllowOne(owing, early, burst + 1);
    LevelGrowsLinearly(owing, early);
    LevelGrowsLinearly(AfterCalls(s, calls), early);
    InNanosIsMonotone(limit, burst as real, 0.0);
    InNanosIsMonotone(limit, TokensAt(owing, early), TokensAt(AfterCalls(s, calls), early));
  }

  lemma PlainAgreesWhileGranting(limit: Limit, burst: int, two: seq<Call>)
    requires Positive(limit) && burst >= 1 && |two| == 2
    requires TokensGranted(NewLimiter(limit, burst), two) == burst + 1
    requires two[0].n == burst && two[1].n == 1
    ensures AfterPlain(NewLimiter(limit, burst), two) == AfterCalls(NewLimiter(limit, burst), two)
  {
    var s := NewLimiter(limit, burst);
    var one := two[..1];
    assert one[..0] == [];
    assert TokensGranted(s, one) == if Granted(s, one, 0) then burst else 0;
    assert TokensGranted(s, two) == TokensGranted(s, one) + if Granted(s, two, 1) then 1 else 0;
    assert Granted(s, one, 0) && Granted(s, two, 1);
    assert AfterPlain(s, one) == AfterCalls(s, one);
  }

  // ---- Which calls are granted ----

  ghost predicate GrantsNoMore(limit: Limit, burst: int) {
    var s := NewLimiter(limit, burst);
    forall calls: seq<Call>, k: nat | Ordered(s, calls) && k < |calls| ::
      Granted(s, calls, k) ==> GrantedPlain(s, calls, k)
  }

  // What a token takes beyond its whole nanoseconds.
  ghost function Fraction(limit: Limit): real
    requires Positive(limit)
  {
    Period(limit) - Period(limit).Floor as real
  }

  ghost function Sum(k: nat, x: real): real {
    if k == 0 then 0.0 else Sum(k - 1, x) + x
  }

  // The burst at time zero, and then one token after another, each a fraction too soon.
  ghost function TooSoon(limit: Limit, burst: int, k: nat): (calls: seq<Call>)
    requires Positive(limit)
    ensures |calls| == k + 1
  {
    if k == 0 then [Call(0, burst)]
    else
      var earlier := TooSoon(limit, burst, k - 1);
      earlier + [Call(earlier[k - 1].at + Period(limit).Floor, 1)]
  }

  lemma {:induction false} TooSoonIsOrdered(limit: Limit, burst: int, k: nat)
    requires Positive(limit) && burst >= 1
    ensures Ordered(NewLimiter(limit, burst), TooSoon(limit, burst, k))
  {
    if k > 0 {
      TooSoonIsOrdered(limit, burst, k - 1);
    }
  }

  // A limiter in debt, asked for a token when the whole nanoseconds of one have passed.
  lemma OneTooSoon(s: LimiterState, t: Time)
    requires Sound(s) && s.burst >= 1 && Level(s) <= 0.0 && t == s.last + Period(s.limit).Floor
    ensures var s' := Allow(s, t, 1);
            && Allowed(s, t, 1) == (Level(s) - Fraction(s.limit) > -1.0)
            && Sound(s') && s'.limit == s.limit && s'.burst == s.burst && s'.last == t
            && (Allowed(s, t, 1) ==> Level(s') == Level(s) - Fraction(s.limit))
  {
    AllowOne(s, t, 1);
    assert InNanos(s.limit, 1.0) == Period(s.limit);
    InNanosIsMonotone(s.limit, s.burst as real, 1.0);
  }

  // Both limiters have granted all of `calls`, the last at `t`, and the debt is `owed`.
  ghost predicate Owes(limit: Limit, burst: int, calls: seq<Call>, t: Time, owed: real)
    requires Positive(limit)
  {
    var s' := AfterCalls(NewLimiter(limit, burst), calls);
    && AfterPlain(NewLimiter(limit, burst), calls) == s'
    && Sound(s') && s'.limit == limit && s'.burst == burst && s'.last == t
    && Level(s') == -owed <= 0.0
  }

  lemma OwesAtFirst(limit: Limit, burst: int)
    requires Positive(limit) && burst >= 1
    ensures Owes(limit, burst, [Call(0, burst)], 0, 0.0)
  {
    var calls := [Call(0, burst)];
    assert calls[..0] == [];
    FreshIsSound(limit, burst);
    AllowOne(NewLimiter(limit, burst), 0, burst);
  }

  lemma OwesMore(limit: Limit, burst: int, calls: seq<Call>, t: Time, owed: real)
    requires Positive(limit) && burst >= 1 && Owes(limit, burst, calls, t, owed)
    requires owed + Fraction(limit) < 1.0
    ensures var u := t + Period(limit).Floor;
            Owes(limit, burst, calls + [Call(u, 1)], u, owed + Fraction(limit))
  {
    var u := t + Period(limit).Floor;
    assert (calls + [Call(u, 1)])[..|calls|] == calls;
    OneTooSoon(AfterCalls(NewLimiter(limit, burst), calls), u);
  }

  /** As long as the fractions do not add up to a nanosecond all are granted, by both limiters. */
  lemma {:induction false} TooSoonIsGranted(limit: Limit, burst: int, k: nat)
    requires Positive(limit) && burst >= 1 && Sum(k, Fraction(limit)) < 1.0
    ensures var calls := TooSoon(limit, burst, k);
            Owes(limit, burst, calls, calls[k].at, Sum(k, Fraction(limit)))
  {
    if k == 0 {
      OwesAtFirst(limit, burst);
    } else {
      var earlier := TooSoon(limit, burst, k - 1);
      TooSoonIsGranted(limit, burst, k - 1);
      OwesMore(limit, burst, earlier, earlier[k - 1].at, Sum(k - 1, Fraction(limit)));
    }
  }

  lemma {:induction false} SumIsProduct(k: nat, x: real)
    ensures Sum(k, x) == k as real * x
  {
    if k > 0 {
      SumIsProduct(k - 1, x);
    }
  }

  // The most fractions that stay below a nanosecond, if `n` more than `k` do not.
  lemma {:induction false} MostFractions(x: real, k: nat, n: nat) returns (m: nat)
    requires Sum(k, x) < 1.0 <= Sum(k + n, x)
    ensures Sum(m, x) < 1.0 <= Sum(m + 1, x)
    decreases n
  {
    if Sum(k + 1, x) >= 1.0 {
      m := k;
    } else {
      m := MostFractions(x, k + 1, n - 1);
    }
  }

  lemma EnoughFractions(x: real) returns (n: nat)
    requires x > 0.0
    ensures Sum(n, x) >= 1.0
  {
    n := (1.0 / x).Floor + 1;
    assert n as real * x >= 1.0 / x * x;
    SumIsProduct(n, x);
  }

  // A refusal wipes the debt, and then the penalised limiter grants what the plain one refuses.
  lemma WipingShows(limit: Limit, burst: int, calls: seq<Call>, t: Time, owed: real)
    requires Positive(limit) && burst >= 1 && Owes(limit, burst, calls, t, owed)
    requires Fraction(limit) < 1.0 <= owed + Fraction(limit)
    ensures var wiped := calls + [Call(t, burst + 1)];
            var more := wiped + [Call(t + Period(limit).Floor, 1)];
            Granted(NewLimiter(limit, burst), more, |wiped|) && !GrantedPlain(NewLimiter(limit, burst), more, |wiped|)
  {
    var s, u := NewLimiter(limit, burst), t + Period(limit).Floor;
    var wiped := calls + [Call(t, burst + 1)];
    assert wiped[..|calls|] == calls && (wiped + [Call(u, 1)])[..|wiped|] == wiped;
    var owing := AfterCalls(s, calls);
    AllowOne(owing, t, burst + 1);
    OneTooSoon(owing, u);
    OneTooSoon(AfterCalls(s, wiped), u);
  }

  lemma WipedDebtGrants(limit: Limit, burst: int)
    requires Positive(limit) && burst >= 1 && !Whole(Period(limit))
    ensures !GrantsNoMore(limit, burst)
  {
    var x := Fraction(limit);
    IntIsWhole(Period(limit).Floor);
    var n := EnoughFractions(x);
    var m := MostFractions(x, 0, n);
    var calls := TooSoon(limit, burst, m);
    var t := calls[m].at;
    TooSoonIsOrdered(limit, burst, m);
    TooSoonIsGranted(limit, burst, m);
    WipingShows(limit, burst, calls, t, Sum(m, x));
    var more := calls + [Call(t, burst + 1)] + [Call(t + Period(limit).Floor, 1)];
    assert Ordered(NewLimiter(limit, burst), more);
  }

  /** The penalty never brings about a grant, in any run, just for the limits of `Every`. */
  lemma GrantsNoMoreIffEvery(limit: Limit, burst: int)
    requires Positive(limit) && burst >= 1
    ensures GrantsNoMore(limit, burst) <==> exists interval: Duration :: interval > 0 && limit == Every(interval)
  {
    var s := NewLimiter(limit, burst);
    WholePeriodIsEvery(limit);
    if Whole(Period(limit)) {
      forall calls: seq<Call>, k: nat | Ordered(s, calls) && k < |calls|
        ensures Granted(s, calls, k) ==> GrantedPlain(s, calls, k)
      {
        PenaltyOnlyTightens(limit, burst, calls, EndTime(s, calls));
      }
    } else {
      WipedDebtGrants(limit, burst);
    }
  }

  // ---- How long a herd lasts ----

  /** After a refused call the next is granted just when the time of one token has passed
      since: for `Every(interval)`, just when `interval` has. */
  lemma NextGrantAfterRefusal(s: LimiterState, t: Time, n: int, u: Time)
    requires Sound(s) && s.burst >= 1 && s.last <= t <= u && !Allowed(s, t, n)
    ensures Allowed(Allow(s, t, n), u, 1) <==> u - t >= Period(s.limit).Floor
  {
    AllowOne(s, t, n);
    AllowOne(Allow(s, t, n), u, 1);
    assert InNanos(s.limit, 1.0) == Period(s.limit);
    InNanosIsMonotone(s.limit, s.burst as real, 1.0);
  }

  lemma GrantAfterRefusedCall(s: LimiterState, calls: seq<Call>, k: nat)
    requires Sound(s) && s.burst >= 1 && Ordered(s, calls) && 0 < k < |calls|
    requires !Granted(s, calls, k - 1) && calls[k].n == 1
    ensures Granted(s, calls, k) <==> calls[k].at - calls[k - 1].at >= Period(s.limit).Floor
  {
    var before := AfterCalls(s, calls[..k - 1]);
    RunStaysSound(s, calls[..k - 1]);
    assert k >= 2 ==> calls[..k - 1][k - 2].at <= calls[k - 1].at;
    assert calls[..k][..k - 1] == calls[..k - 1];
    NextGrantAfterRefusal(before, calls[k - 1].at, calls[k - 1].n, calls[k].at);
  }

  /** Herd persistence: a streak of refusals lasts precisely until the first gap of
      `interval` or more between calls. */
  lemma {:induction false} RefusalsLastUntilAGap(s: LimiterState, calls: seq<Call>, i: nat, j: nat)
    requires Sound(s) && s.burst >= 1 && Ordered(s, calls) && i <= j < |calls|
    requires !Granted(s, calls, i)
    requires forall k | i < k <= j :: calls[k].n == 1
    ensures (forall k | i < k <= j :: !Granted(s, calls, k))
            <==> (forall k | i < k <= j :: calls[k].at - calls[k - 1].at < Period(s.limit).Floor)
    decreases j
  {
    if i < j {
      RefusalsLastUntilAGap(s, calls, i, j - 1);
      if !Granted(s, calls, j - 1) {
        GrantAfterRefusedCall(s, calls, j);
      }
    }
  }
}
