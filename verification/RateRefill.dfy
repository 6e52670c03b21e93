/** Bringing a limiter up to date early changes nothing anybody can see. */
module RateRefill {
  import opened Clock
  import opened Rate

  datatype Op =
    | ReserveOp(at: Time, n: int, maxWait: Duration)
    | CancelOp(at: Time, r: Reservation)
    | SetLimitOp(at: Time, limit: Limit)
    | SetBurstOp(at: Time, burst: int)

  function Apply(s: LimiterState, op: Op): LimiterState {
    match op
    case ReserveOp(at, n, maxWait) => Reserve(s, at, n, maxWait).0
    case CancelOp(at, r) => Cancel(s, r, at)
    case SetLimitOp(at, limit) => SetLimit(s, at, limit)
    case SetBurstOp(at, burst) => SetBurst(s, at, burst)
  }

  function ApplyAll(s: LimiterState, ops: seq<Op>): LimiterState
    decreases |ops|
  {
    if ops == [] then s else ApplyAll(Apply(s, ops[0]), ops[1..])
  }

  // The reservations handed out along the way.
  function Answers(s: LimiterState, ops: seq<Op>): seq<Reservation>
    decreases |ops|
  {
    if ops == [] then []
    else (if ops[0].ReserveOp? then [Reserve(s, ops[0].at, ops[0].n, ops[0].maxWait).1] else [])
         + Answers(Apply(s, ops[0]), ops[1..])
  }

  ghost predicate OrderedFrom(t: Time, ops: seq<Op>)
    decreases |ops|
  {
    ops == [] || (t <= ops[0].at && OrderedFrom(ops[0].at, ops[1..]))
  }

  ghost function LastTime(t: Time, ops: seq<Op>): Time
    decreases |ops|
  {
    if ops == [] then t else LastTime(ops[0].at, ops[1..])
  }

  ghost predicate SameTokensFrom(a: LimiterState, b: LimiterState, t: Time) {
    forall v | v >= t :: TokensAt(a, v) == TokensAt(b, v)
  }

  ghost predicate Indistinguishable(a: LimiterState, b: LimiterState, t: Time) {
    && a.limit == b.limit && a.burst == b.burst && a.lastEvent == b.lastEvent
    && SameTokensFrom(a, b, t)
  }

  lemma AccrualAdds(limit: Limit, d: Duration, e: Duration)
    requires d >= 0 && e >= 0
    ensures TokensFromDuration(limit, d + e) == TokensFromDuration(limit, d) + TokensFromDuration(limit, e)
    ensures TokensFromDuration(limit, d) >= 0.0
  {
    var r := limit.Tokens();
    var x, y := d as real / SECOND as real, e as real / SECOND as real;
    assert (d + e) as real / SECOND as real == x + y;
    assert (x + y) * r == x * r + y * r;
    assert r > 0.0 ==> x * r >= 0.0;
  }

  /** Advancing to `t` and then on is advancing at once. */
  lemma RefillIsPathIndependent(s: LimiterState, t: Time, v: Time)
    requires s.last <= t <= v
    ensures TokensAt(s.(last := t, tokens := TokensAt(s, t)), v) == TokensAt(s, v)
  {
    AccrualAdds(s.limit, t - s.last, v - t);
    AccrualAdds(s.limit, v - t, 0);
  }

  ghost function AtMost(x: real, burst: int): real {
    if x > burst as real then burst as real else x
  }

  /** After `SetLimitAt` the tokens grow at the new limit from what they were by then at the old
      one; after `SetBurstAt` they grow as before from what they were, up to the new burst. The
      event last reserved stays. */
  lemma SettingsTakeEffectFromThen(s: LimiterState, t: Time, v: Time, limit: Limit, burst: int)
    requires t <= v
    ensures var s' := SetLimit(s, t, limit);
            && s'.limit == limit && s'.burst == s.burst && s'.lastEvent == s.lastEvent
            && TokensAt(s', v) == AtMost(TokensAt(s, t) + TokensFromDuration(limit, v - t), s.burst)
    ensures var s' := SetBurst(s, t, burst);
            && s'.limit == s.limit && s'.burst == burst && s'.lastEvent == s.lastEvent
            && TokensAt(s', v) == AtMost(TokensAt(s, t) + TokensFromDuration(s.limit, v - t), burst)
  {
  }

  // ---- What limits mean ----

  /** A limit of `r` tokens per second brings `r` tokens in every 10^9 nanoseconds. */
  lemma LimitIsPerSecond(r: real, seconds: int)
    requires r > 0.0
    ensures TokensFromDuration(PerSecond(r), seconds * 1_000_000_000) == seconds as real * r
  {
    assert (seconds * SECOND) as real / SECOND as real == seconds as real by {
      assert (seconds * SECOND) as real == seconds as real * SECOND as real;
    }
  }

  /** A limit that is not positive brings nothing. */
  lemma StoppedNeverRefills(s: LimiterState, t: Time)
    requires s.limit.PerSecond? && s.limit.rate <= 0.0
    ensures TokensAt(s, t) == AtMost(s.tokens, s.burst)
    ensures forall n | n as real > TokensAt(s, t) :: !Allowed(s, t, n)
    ensures forall n | n <= s.burst && n as real <= TokensAt(s, t) :: Allowed(s, t, n)
  {
  }

  /** `Inf` lets everything through and leaves the limiter alone; it is what `Every` makes of an
      interval that is not positive. */
  lemma InfiniteIsNeverRefused(s: LimiterState, t: Time, n: int, maxWait: Duration, interval: Duration)
    requires s.limit.Inf?
    ensures var (s', r) := Reserve(s, t, n, maxWait);
            s' == s && r.ok && r.tokens == n && r.timeToAct == t && Cancel(s, r, t) == s
    ensures Every(interval).Inf? <==> interval <= 0
  {
  }

  lemma IndistinguishableStep(a: LimiterState, b: LimiterState, t: Time, op: Op)
    requires Indistinguishable(a, b, t) && t <= op.at
    ensures Indistinguishable(Apply(a, op), Apply(b, op), op.at)
    ensures op.ReserveOp? ==> Reserve(a, op.at, op.n, op.maxWait).1 == Reserve(b, op.at, op.n, op.maxWait).1
  {
    assert TokensAt(a, op.at) == TokensAt(b, op.at);
    if Apply(a, op) == a && Apply(b, op) == b {
    } else if op.ReserveOp? && a.limit.Inf? {
    } else {
      assert Apply(a, op) == Apply(b, op) || (Apply(a, op) == a && Apply(b, op) == b);
    }
  }

  lemma {:induction false} IndistinguishableRun(a: LimiterState, b: LimiterState, t: Time, ops: seq<Op>)
    requires Indistinguishable(a, b, t) && OrderedFrom(t, ops)
    ensures Answers(a, ops) == Answers(b, ops)
    ensures Indistinguishable(ApplyAll(a, ops), ApplyAll(b, ops), LastTime(t, ops))
    decreases |ops|
  {
    if ops != [] {
      IndistinguishableStep(a, b, t, ops[0]);
      IndistinguishableRun(Apply(a, ops[0]), Apply(b, ops[0]), ops[0].at, ops[1..]);
    }
  }

  /** `SetLimitAt` and `SetBurstAt` with the value already set are unobservable: every
      later run of operations hands out the same reservations and leaves the same
      tokens, whatever the limit. */
  lemma SettingTheSameValueIsUnobservable(s: LimiterState, t: Time, ops: seq<Op>)
    requires s.last <= t && OrderedFrom(t, ops)
    ensures forall s' | s' in {SetLimit(s, t, s.limit), SetBurst(s, t, s.burst)} ::
              && Answers(s', ops) == Answers(s, ops)
              && SameTokensFrom(ApplyAll(s', ops), ApplyAll(s, ops), LastTime(t, ops))
  {
    var s' := s.(last := t, tokens := TokensAt(s, t));
    forall v | v >= t
      ensures TokensAt(s', v) == TokensAt(s, v)
    {
      RefillIsPathIndependent(s, t, v);
    }
    IndistinguishableRun(s', s, t, ops);
  }
}
