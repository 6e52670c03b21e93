/** Runs of the expiring map with each operation atomic and purges at any times. */
module MapExpRuns {
  import opened Clock
  import opened MapExp
  import opened Wrappers

  datatype Event<K, V> =
    | SetAt(key: K, value: V, at: Time)
    | GetAt(key: K, at: Time)
    | DeleteAt(key: K, at: Time)
    | PurgeAt(at: Time)

  function Step<K(==), V>(ttl: Duration, m: MapState<K, V>, e: Event<K, V>): MapState<K, V> {
    match e
    case SetAt(key, value, at) => AfterSet(m, key, value, at + ttl)
    case GetAt(key, at) => AfterGet(m, key, at + ttl)
    case DeleteAt(key, _) => AfterDelete(m, key)
    case PurgeAt(at) => AfterPurge(m, at)
  }

  function After<K(==), V>(ttl: Duration, es: seq<Event<K, V>>): MapState<K, V> {
    if es == [] then EmptyMap() else Step(ttl, After(ttl, es[..|es| - 1]), es[|es| - 1])
  }

  lemma OneMoreEvent<K, V>(ttl: Duration, es: seq<Event<K, V>>, e: Event<K, V>)
    ensures After(ttl, es + [e]) == Step(ttl, After(ttl, es), e)
  {
    assert (es + [e])[..|es|] == es;
  }

  ghost predicate Ordered<K, V>(es: seq<Event<K, V>>) {
    forall i, j :: 0 <= i <= j < |es| ==> es[i].at <= es[j].at
  }

  ghost predicate Distinct<K>(q: Queue<K>) {
    forall i, j :: 0 <= i < j < |q| ==> q[i].key != q[j].key
  }

  ghost predicate Lapsed<K>(q: Queue<K>, k: K, now: Time) {
    Deadline(q, k).Some? && Deadline(q, k).value <= now
  }

  lemma {:induction false} DeadlineAt<K>(q: Queue<K>, i: nat)
    requires Distinct(q) && i < |q|
    ensures Deadline(q, q[i].key) == Some(q[i].expiration)
  {
    if i > 0 {
      DeadlineAt(q[1..], i - 1);
    }
  }

  lemma {:induction false} PositionOf<K>(q: Queue<K>, k: K) returns (i: nat)
    ensures Deadline(q, k).Some? ==> i < |q| && q[i] == Item(k, Deadline(q, k).value)
    ensures Deadline(q, k).None? ==> forall j | 0 <= j < |q| :: q[j].key != k
  {
    if q == [] || q[0].key == k {
      i := 0;
    } else {
      i := PositionOf(q[1..], k);
      i := i + 1;
    }
  }

  lemma {:induction false} NoDeadline<K>(q: Queue<K>, k: K)
    requires forall j | 0 <= j < |q| :: q[j].key != k
    ensures Deadline(q, k).None?
  {
    if q != [] {
      NoDeadline(q[1..], k);
    }
  }

  lemma {:induction false} DeadlineAppended<K>(q: Queue<K>, x: Item<K>, k: K)
    ensures Deadline(q + [x], k)
              == if Deadline(q, k).Some? then Deadline(q, k) else if x.key == k then Some(x.expiration) else None
  {
    if q == [] {
      assert q + [x] == [x];
    } else {
      assert (q + [x])[1..] == q[1..] + [x];
      DeadlineAppended(q[1..], x, k);
    }
  }

  lemma {:induction false} AddedDeadline<K>(q: Queue<K>, key: K, expiration: Time, k: K)
    requires Distinct(q)
    ensures Deadline(Added(q, key, expiration), k) == if k == key then Some(expiration) else Deadline(q, k)
  {
    if q != [] {
      if q[0].key == key {
        DeadlineAppended(q[1..], Item(key, expiration), k);
        NoDeadline(q[1..], key);
      } else {
        var rest := Added(q[1..], key, expiration);
        assert ([q[0]] + rest)[1..] == rest;
        AddedDeadline(q[1..], key, expiration, k);
      }
    }
  }

  lemma {:induction false} RenewedDeadline<K>(q: Queue<K>, key: K, expiration: Time, k: K)
    ensures Deadline(Renewed(q, key, expiration), k)
              == if k == key && Deadline(q, k).Some? then Some(expiration) else Deadline(q, k)
  {
    if q != [] {
      var rest := Renewed(q[1..], key, expiration);
      if q[0].key == key {
        assert ([Item(key, expiration)] + q[1..])[1..] == q[1..];
      } else {
        assert ([q[0]] + rest)[1..] == rest;
        RenewedDeadline(q[1..], key, expiration, k);
      }
    }
  }

  lemma {:induction false} FirstPosition<K>(q: Queue<K>, key: K) returns (i: nat)
    ensures i <= |q| && (forall j | 0 <= j < i :: q[j].key != key) && (i < |q| ==> q[i].key == key)
  {
    if q == [] || q[0].key == key {
      i := 0;
    } else {
      i := FirstPosition(q[1..], key);
      i := i + 1;
    }
  }

  lemma StaysDistinct<K>(q: Queue<K>, key: K, expiration: Time)
    requires Distinct(q)
    ensures Distinct(Added(q, key, expiration))
    ensures Distinct(Renewed(q, key, expiration))
  {
    var i := FirstPosition(q, key);
    AddedAt(q, key, expiration, i);
    RenewedAt(q, key, expiration, i);
  }

  lemma PurgedByPosition<K>(q: Queue<K>, now: Time, j: nat)
    requires Distinct(q) && j < |q|
    ensures q[j].key in PurgedKeys(q, now) <==> j < Expired(q, now)
  {
    var keys := PurgedKeys(q, now);
    assert j < |keys| ==> keys[j] == q[j].key;
    if q[j].key in keys {
      var a :| 0 <= a < |keys| && keys[a] == q[j].key;
      assert q[a].key == q[j].key;
    }
  }

  lemma DeadlineInSuffix<K>(q: Queue<K>, n: nat, k: K)
    requires Distinct(q) && n <= |q|
    ensures Deadline(q[n..], k).Some? ==> Deadline(q, k) == Deadline(q[n..], k)
    ensures Deadline(q[n..], k).None? ==> forall j | n <= j < |q| :: q[j].key != k
  {
    var j := PositionOf(q[n..], k);
    if Deadline(q[n..], k).Some? {
      assert q[n..][j] == q[n + j];
      DeadlineAt(q, n + j);
    } else {
      assert forall j | n <= j < |q| :: q[n..][j - n] == q[j];
    }
  }

  lemma PurgedKeyLapsed<K>(q: Queue<K>, now: Time, k: K)
    requires Distinct(q) && k in PurgedKeys(q, now)
    ensures Lapsed(q, k, now) && Deadline(Purged(q, now), k).None?
  {
    var n := Expired(q, now);
    var i :| 0 <= i < n && PurgedKeys(q, now)[i] == k;
    assert q[i].key == k && q[i].expiration <= now;
    DeadlineAt(q, i);
    NoDeadline(q[n..], k);
  }

  /** A purge takes only keys that have expired, and leaves the entries of the others. */
  lemma PurgedDeadline<K>(q: Queue<K>, now: Time, k: K)
    requires Distinct(q)
    ensures Distinct(Purged(q, now))
    ensures k in PurgedKeys(q, now) ==> Lapsed(q, k, now)
    ensures Deadline(Purged(q, now), k) == if k in PurgedKeys(q, now) then None else Deadline(q, k)
  {
    if k in PurgedKeys(q, now) {
      PurgedKeyLapsed(q, now, k);
    } else {
      DeadlineInSuffix(q, Expired(q, now), k);
      if Deadline(q, k).Some? {
        var i := PositionOf(q, k);
        PurgedByPosition(q, now, i);
      }
    }
  }

  /** The value a key must have and when it was last touched, as one more event leaves it:
      given up on `Delete`, and on a `Get` that comes `ttl` or more after the last touch. */
  function Follow<K(==), V>(ttl: Duration, k: K, f: Option<(V, Time)>, e: Event<K, V>): Option<(V, Time)> {
    match e
    case SetAt(key, value, at) => if key == k then Some((value, at)) else f
    case GetAt(key, at) =>
      if key != k || f.None? then f else if at - f.value.1 < ttl then Some((f.value.0, at)) else None
    case DeleteAt(key, _) => if key == k then None else f
    case PurgeAt(_) => f
  }

  function Followed<K(==), V>(ttl: Duration, k: K, es: seq<Event<K, V>>): Option<(V, Time)> {
    if es == [] then None else Follow(ttl, k, Followed(ttl, k, es[..|es| - 1]), es[|es| - 1])
  }

  lemma OneMoreFollowed<K, V>(ttl: Duration, k: K, es: seq<Event<K, V>>, e: Event<K, V>)
    ensures Followed(ttl, k, es + [e]) == Follow(ttl, k, Followed(ttl, k, es), e)
  {
    assert (es + [e])[..|es|] == es;
  }

  /** As long as its time has not run out, a followed key is in the map with its value, and
      its entry in the queue runs until `ttl` after the last touch. */
  ghost predicate Kept<K, V>(ttl: Duration, m: MapState<K, V>, k: K, f: Option<(V, Time)>, now: Time) {
    f.Some? && now - f.value.1 < ttl ==>
      && k in m.items && m.items[k] == f.value.0
      && Deadline(m.queue, k) == Some(f.value.1 + ttl)
  }

  lemma PurgeKeeps<K, V>(ttl: Duration, m: MapState<K, V>, at: Time, k: K, f: Option<(V, Time)>, now: Time)
    requires at <= now && Distinct(m.queue) && Kept(ttl, m, k, f, at)
    ensures Distinct(Purged(m.queue, at))
    ensures Kept(ttl, AfterPurge(m, at), k, f, now)
  {
    PurgedDeadline(m.queue, at, k);
  }

  lemma TouchKeeps<K, V>(ttl: Duration, m: MapState<K, V>, e: Event<K, V>, k: K, f: Option<(V, Time)>, now: Time)
    requires e.SetAt? || e.GetAt?
    requires e.at <= now && Distinct(m.queue) && Kept(ttl, m, k, f, e.at)
    ensures Kept(ttl, Step(ttl, m, e), k, Follow(ttl, k, f, e), now)
  {
    if e.SetAt? {
      AddedDeadline(m.queue, e.key, e.at + ttl, k);
    } else {
      RenewedDeadline(m.queue, e.key, e.at + ttl, k);
    }
  }

  lemma StepKeeps<K, V>(ttl: Duration, m: MapState<K, V>, e: Event<K, V>, k: K, f: Option<(V, Time)>, now: Time)
    requires e.at <= now && Distinct(m.queue) && Kept(ttl, m, k, f, e.at)
    ensures Distinct(Step(ttl, m, e).queue)
    ensures Kept(ttl, Step(ttl, m, e), k, Follow(ttl, k, f, e), now)
  {
    match e
    case DeleteAt(key, _) =>
    case PurgeAt(at) => PurgeKeeps(ttl, m, at, k, f, now);
    case _ =>
      StaysDistinct(m.queue, e.key, e.at + ttl);
      TouchKeeps(ttl, m, e, k, f, now);
  }

  lemma {:induction false} RunKeeps<K, V>(ttl: Duration, es: seq<Event<K, V>>, k: K, now: Time)
    requires ttl > 0 && Ordered(es) && (es != [] ==> es[|es| - 1].at <= now)
    ensures Distinct(After(ttl, es).queue)
    ensures Kept(ttl, After(ttl, es), k, Followed(ttl, k, es), now)
  {
    if es != [] {
      var init, e := es[..|es| - 1], es[|es| - 1];
      RunKeeps(ttl, init, k, e.at);
      StepKeeps(ttl, After(ttl, init), e, k, Followed(ttl, k, init), now);
    }
  }

  /** No early expiry: `Get` answers the latest value set, if it was not deleted since and the
      touches of the key, this one included, follow each other by less than `ttl`; whatever
      else happens to the map and whenever it is purged. */
  lemma GetAnswersLatestValue<K, V>(ttl: Duration, es: seq<Event<K, V>>, k: K, now: Time)
    requires ttl > 0 && Ordered(es) && (es != [] ==> es[|es| - 1].at <= now)
    requires var f := Followed(ttl, k, es); f.Some? && now - f.value.1 < ttl
    ensures Lookup(After(ttl, es), k) == Some(Followed(ttl, k, es).value.0)
  {
    RunKeeps(ttl, es, k, now);
  }

  /** Whether it is there at all, a key has the value of its last `Set`. */
  function LastSet<K(==), V>(k: K, es: seq<Event<K, V>>): Option<V> {
    if es == [] then None
    else
      var e := es[|es| - 1];
      if e.SetAt? && e.key == k then Some(e.value)
      else if e.DeleteAt? && e.key == k then None
      else LastSet(k, es[..|es| - 1])
  }

  lemma {:induction false} GetNeverAnswersStaleValue<K, V>(ttl: Duration, es: seq<Event<K, V>>, k: K)
    ensures Lookup(After(ttl, es), k) in {None, LastSet(k, es)}
  {
    if es != [] {
      GetNeverAnswersStaleValue(ttl, es[..|es| - 1], k);
    }
  }

  // ---- What a purge removes ----

  ghost predicate Sorted<K>(q: Queue<K>) {
    forall i, j :: 0 <= i < j < |q| ==> q[i].expiration <= q[j].expiration
  }

  // The purge removes the expired keys and only those.
  ghost predicate PurgesExactly<K(!new)>(q: Queue<K>, now: Time) {
    forall k :: k in PurgedKeys(q, now) <==> Lapsed(q, k, now)
  }

  ghost predicate LateBehindLive<K(!new)>(q: Queue<K>, now: Time) {
    exists i, j :: 0 <= i < j < |q| && q[i].expiration > now && q[j].expiration <= now
  }

  /** A purge is exact unless an expired entry stands behind one that is still alive. */
  lemma PurgeIsExactIff<K(!new)>(q: Queue<K>, now: Time)
    requires Distinct(q)
    ensures PurgesExactly(q, now) <==> !LateBehindLive(q, now)
  {
    var i := Expired(q, now);
    if LateBehindLive(q, now) {
      var a, b :| 0 <= a < b < |q| && q[a].expiration > now && q[b].expiration <= now;
      PurgedByPosition(q, now, b);
      DeadlineAt(q, b);
      assert Lapsed(q, q[b].key, now);
    }
    if !PurgesExactly(q, now) {
      var k :| (k in PurgedKeys(q, now)) != Lapsed(q, k, now);
      PurgedDeadline(q, now, k);
      var j := PositionOf(q, k);
      PurgedByPosition(q, now, j);
      assert i < j && q[i].expiration > now && q[j].expiration <= now;
    }
  }

  ghost predicate EndsBy<K>(q: Queue<K>, latest: Time) {
    forall i | 0 <= i < |q| :: q[i].expiration <= latest
  }

  lemma StaysBounded<K>(q: Queue<K>, key: K, expiration: Time)
    requires EndsBy(q, expiration)
    ensures EndsBy(Added(q, key, expiration), expiration)
    ensures EndsBy(Renewed(q, key, expiration), expiration)
  {
    var i := FirstPosition(q, key);
    AddedAt(q, key, expiration, i);
    RenewedAt(q, key, expiration, i);
  }

  lemma StepIsBounded<K, V>(ttl: Duration, m: MapState<K, V>, e: Event<K, V>)
    requires Distinct(m.queue) && EndsBy(m.queue, e.at + ttl)
    ensures Distinct(Step(ttl, m, e).queue) && EndsBy(Step(ttl, m, e).queue, e.at + ttl)
  {
    if e.SetAt? || e.GetAt? {
      StaysDistinct(m.queue, e.key, e.at + ttl);
      StaysBounded(m.queue, e.key, e.at + ttl);
    }
  }

  lemma {:induction false} QueueIsBounded<K, V>(ttl: Duration, es: seq<Event<K, V>>, now: Time)
    requires Ordered(es) && (es != [] ==> es[|es| - 1].at <= now)
    ensures Distinct(After(ttl, es).queue) && EndsBy(After(ttl, es).queue, now + ttl)
  {
    if es != [] {
      var init, e := es[..|es| - 1], es[|es| - 1];
      QueueIsBounded(ttl, init, e.at);
      StepIsBounded(ttl, After(ttl, init), e);
    }
  }

  ghost predicate Renews<K, V>(es: seq<Event<K, V>>) {
    exists i :: 0 <= i < |es| && es[i].GetAt?
  }

  lemma AddedStaysSorted<K>(q: Queue<K>, key: K, expiration: Time)
    requires Sorted(q) && EndsBy(q, expiration)
    ensures Sorted(Added(q, key, expiration))
  {
    var i := FirstPosition(q, key);
    AddedAt(q, key, expiration, i);
  }

  lemma StepStaysSorted<K, V>(ttl: Duration, m: MapState<K, V>, e: Event<K, V>)
    requires !e.GetAt? && Sorted(m.queue) && EndsBy(m.queue, e.at + ttl)
    ensures Sorted(Step(ttl, m, e).queue)
  {
    if e.SetAt? {
      AddedStaysSorted(m.queue, e.key, e.at + ttl);
    }
  }

  lemma {:induction false} WithoutRenewalsStaysSorted<K, V>(ttl: Duration, es: seq<Event<K, V>>)
    requires Ordered(es) && !Renews(es)
    ensures Sorted(After(ttl, es).queue)
  {
    if es != [] {
      var init, e := es[..|es| - 1], es[|es| - 1];
      assert !e.GetAt? && !Renews(init);
      WithoutRenewalsStaysSorted(ttl, init);
      QueueIsBounded(ttl, init, e.at);
      StepStaysSorted(ttl, After(ttl, init), e);
    }
  }

  /** Purge exactness. In runs without `Get` every purge removes exactly the expired keys; in
      any run it removes expired keys only, so it can be late but never early; and one that
      comes `ttl` or more after the last event leaves nothing in the queue. */
  lemma PurgeOfARun<K(!new), V(!new)>(ttl: Duration, es: seq<Event<K, V>>, now: Time)
    requires Ordered(es)
    ensures var q := After(ttl, es).queue;
            && (!Renews(es) ==> PurgesExactly(q, now))
            && (forall k | k in PurgedKeys(q, now) :: Lapsed(q, k, now))
            && (es == [] || es[|es| - 1].at + ttl <= now ==> Purged(q, now) == [])
  {
    var q := After(ttl, es).queue;
    QueueIsBounded(ttl, es, if es == [] then 0 else es[|es| - 1].at);
    forall k | k in PurgedKeys(q, now)
      ensures Lapsed(q, k, now)
    {
      PurgedDeadline(q, now, k);
    }
    if !Renews(es) {
      WithoutRenewalsStaysSorted(ttl, es);
      PurgeIsExactIff(q, now);
    }
  }

  // ---- What a purge leaves of the map ----

  // The entry of the key and all entries before it have expired.
  ghost predicate Reached<K>(q: Queue<K>, k: K, now: Time) {
    exists i :: 0 <= i < |q| && q[i].key == k && forall j | 0 <= j <= i :: q[j].expiration <= now
  }

  lemma PurgeTakesIff<K>(q: Queue<K>, now: Time, k: K)
    requires Distinct(q)
    ensures k in PurgedKeys(q, now) <==> Reached(q, k, now)
  {
    var n := Expired(q, now);
    if k in PurgedKeys(q, now) {
      var i :| 0 <= i < n && PurgedKeys(q, now)[i] == k;
      assert q[i].key == k;
    }
    if Reached(q, k, now) {
      var i :| 0 <= i < |q| && q[i].key == k && forall j | 0 <= j <= i :: q[j].expiration <= now;
      assert i < n;
      PurgedByPosition(q, now, i);
    }
  }

  /** A purge removes a key, from the map as from the queue, just when its entry and all entries
      before it have expired. */
  lemma PurgeRemovesIff<K, V>(m: MapState<K, V>, now: Time, k: K)
    requires Distinct(m.queue)
    ensures var m' := AfterPurge(m, now);
            && Lookup(m', k) == (if Reached(m.queue, k, now) then None else Lookup(m, k))
            && Deadline(m'.queue, k) == (if Reached(m.queue, k, now) then None else Deadline(m.queue, k))
  {
    PurgeTakesIff(m.queue, now, k);
    PurgedDeadline(m.queue, now, k);
  }

  // When the key was last set or read.
  function LastTouch<K(==), V>(k: K, es: seq<Event<K, V>>): Option<Time> {
    if es == [] then None
    else
      var e := es[|es| - 1];
      if (e.SetAt? || e.GetAt?) && e.key == k then Some(e.at) else LastTouch(k, es[..|es| - 1])
  }

  ghost predicate RunsOut<K, V>(ttl: Duration, m: MapState<K, V>, k: K, touch: Option<Time>) {
    && Distinct(m.queue)
    && (Deadline(m.queue, k).Some? ==> touch.Some? && Deadline(m.queue, k).value == touch.value + ttl)
    && (k in m.items ==> Deadline(m.queue, k).Some?)
  }

  lemma StepRunsOut<K, V>(ttl: Duration, m: MapState<K, V>, k: K, touch: Option<Time>, e: Event<K, V>)
    requires RunsOut(ttl, m, k, touch)
    ensures RunsOut(ttl, Step(ttl, m, e), k, if (e.SetAt? || e.GetAt?) && e.key == k then Some(e.at) else touch)
  {
    match e
    case SetAt(key, value, at) =>
      StaysDistinct(m.queue, key, at + ttl);
      AddedDeadline(m.queue, key, at + ttl, k);
    case GetAt(key, at) =>
      StaysDistinct(m.queue, key, at + ttl);
      RenewedDeadline(m.queue, key, at + ttl, k);
    case DeleteAt(key, _) =>
    case PurgeAt(at) =>
      PurgedDeadline(m.queue, at, k);
  }

  /** The entry of a key runs out `ttl` after the key was last touched, and every key of the map
      has one. */
  lemma {:induction false} RunsOutAfterLastTouch<K, V>(ttl: Duration, es: seq<Event<K, V>>, k: K)
    ensures RunsOut(ttl, After(ttl, es), k, LastTouch(k, es))
  {
    if es != [] {
      RunsOutAfterLastTouch(ttl, es[..|es| - 1], k);
      StepRunsOut(ttl, After(ttl, es[..|es| - 1]), k, LastTouch(k, es[..|es| - 1]), es[|es| - 1]);
    }
  }

  lemma {:induction false} FollowedWithoutGet<K, V>(ttl: Duration, k: K, es: seq<Event<K, V>>)
    requires !Renews(es)
    ensures Followed(ttl, k, es)
              == if LastSet(k, es).Some? && LastTouch(k, es).Some?
                 then Some((LastSet(k, es).value, LastTouch(k, es).value)) else None
    ensures LastSet(k, es).Some? ==> LastTouch(k, es).Some?
  {
    if es != [] {
      var init := es[..|es| - 1];
      assert !es[|es| - 1].GetAt? && forall i | 0 <= i < |init| :: init[i] == es[i];
      FollowedWithoutGet(ttl, k, init);
    }
  }

  /** In runs without `Get` a purge makes the map exact: it holds the last value set of every key
      that was set less than `ttl` ago and not deleted since, and nothing else. */
  lemma PurgedMapIsExact<K(!new), V(!new)>(ttl: Duration, es: seq<Event<K, V>>, now: Time, k: K)
    requires ttl > 0 && Ordered(es) && !Renews(es) && (es != [] ==> es[|es| - 1].at <= now)
    ensures Lookup(AfterPurge(After(ttl, es), now), k)
              == if LastTouch(k, es).Some? && now - LastTouch(k, es).value < ttl then LastSet(k, es) else None
  {
    var m := After(ttl, es);
    RunsOutAfterLastTouch(ttl, es, k);
    WithoutRenewalsStaysSorted(ttl, es);
    PurgeIsExactIff(m.queue, now);
    PurgeTakesIff(m.queue, now, k);
    PurgeRemovesIff(m, now, k);
    FollowedWithoutGet(ttl, k, es);
    GetNeverAnswersStaleValue(ttl, es, k);
    if LastSet(k, es).Some? && now - LastTouch(k, es).value < ttl {
      GetAnswersLatestValue(ttl, es, k, now);
    }
  }

  /** In any run a purge that comes `ttl` or more after all touches empties the map. */
  lemma QuietMapEmpties<K, V>(ttl: Duration, es: seq<Event<K, V>>, now: Time, k: K)
    requires forall i | 0 <= i < |es| && (es[i].SetAt? || es[i].GetAt?) :: es[i].at + ttl <= now
    ensures Lookup(AfterPurge(After(ttl, es), now), k) == None
  {
    var m := After(ttl, es);
    AllExpire(ttl, es, now);
    RunsOutAfterLastTouch(ttl, es, k);
    PurgeRemovesIff(m, now, k);
    if k in m.items {
      AllReached(m.queue, k, now);
    }
  }

  lemma AllReached<K>(q: Queue<K>, k: K, now: Time)
    requires EndsBy(q, now) && Deadline(q, k).Some?
    ensures Reached(q, k, now)
  {
    var i := PositionOf(q, k);
    assert q[i].key == k;
  }

  lemma AllExpire<K, V>(ttl: Duration, es: seq<Event<K, V>>, now: Time)
    requires forall i | 0 <= i < |es| && (es[i].SetAt? || es[i].GetAt?) :: es[i].at + ttl <= now
    ensures EndsBy(After(ttl, es).queue, now)
  {
    var q := After(ttl, es).queue;
    forall j | 0 <= j < |q|
      ensures q[j].expiration <= now
    {
      RunsOutAfterLastTouch(ttl, es, q[j].key);
      DeadlineAt(q, j);
      TouchIsAnEvent(q[j].key, es);
    }
  }

  lemma {:induction false} TouchIsAnEvent<K, V>(k: K, es: seq<Event<K, V>>)
    requires LastTouch(k, es).Some?
    ensures exists i :: 0 <= i < |es| && (es[i].SetAt? || es[i].GetAt?) && es[i].at == LastTouch(k, es).value
  {
    var last := |es| - 1;
    if (es[last].SetAt? || es[last].GetAt?) && es[last].key == k {
      assert es[last].at == LastTouch(k, es).value;
    } else {
      TouchIsAnEvent(k, es[..last]);
      var i :| 0 <= i < last && (es[i].SetAt? || es[i].GetAt?) && es[i].at == LastTouch(k, es).value;
    }
  }

  /** Late, then: after a renewal an expired key can outlive a purge. */
  lemma RenewalDelaysOthers()
    ensures var es := [SetAt(1, true, 0), SetAt(2, true, 1), GetAt(1, 2)];
            var m := After(10, es);
            2 in AfterPurge(m, 11).items && Lapsed(m.queue, 2, 11)
  {
    var es := [SetAt(1, true, 0), SetAt(2, true, 1), GetAt(1, 2)];
    assert es[..2][..1] == es[..1] && es[..1][..0] == [];
    assert After<int, bool>(10, es[..1][..0]) == EmptyMap();
    var m0, m1, m2 := After(10, es[..1]), After(10, es[..2]), After(10, es);
    assert m0.queue == [Item(1, 10)];
    assert m1.queue == [Item(1, 10), Item(2, 11)] by {
      AddedAt(m0.queue, 2, 11, 1);
    }
    assert m2.queue == [Item(1, 12), Item(2, 11)] by {
      RenewedAt(m1.queue, 1, 12, 0);
    }
    DeadlineAt(m2.queue, 1);
    assert PurgedKeys(m2.queue, 11) == [];
  }
}
