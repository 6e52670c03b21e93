/** The expiring map under its two locks: `Set`, `Get` and a purge each take the lock of the
    map and the lock of the queue one after the other, and anything may happen in between. */
module MapExpSteps {
  import opened Clock
  import opened MapExp
  import opened MapExpRuns
  import opened Wrappers

  datatype Shared<K, V> = Shared(
    items: map<K, V>,
    queue: Queue<K>,
    adds: multiset<K>,          // calls of Set that have written the map only
    renews: multiset<K>,        // calls of Get that have read the map only
    doomed: Option<seq<K>>)     // the keys a purge has taken from the queue only

  datatype Action<K, V> =
    | SetItems(key: K, value: V)
    | SetQueue(key: K, expiration: Time)
    | GetItems(key: K)
    | GetQueue(key: K, expiration: Time)
    | DeleteItems(key: K)
    | PurgeQueue(now: Time)
    | PurgeItems

  function Start<K, V>(): Shared<K, V> {
    Shared(map[], [], multiset{}, multiset{}, None)
  }

  predicate Enabled<K(==), V>(s: Shared<K, V>, step: Action<K, V>) {
    match step
    case SetQueue(key, _) => key in s.adds
    case GetQueue(key, _) => key in s.renews
    case PurgeQueue(_) => s.doomed.None?
    case PurgeItems => s.doomed.Some?
    case _ => true
  }

  function Next<K(==), V>(s: Shared<K, V>, step: Action<K, V>): Shared<K, V>
    requires Enabled(s, step)
  {
    match step
    case SetItems(key, value) => s.(items := s.items[key := value], adds := s.adds + multiset{key})
    case SetQueue(key, expiration) =>
      s.(queue := Added(s.queue, key, expiration), adds := s.adds - multiset{key})
    case GetItems(key) => s.(renews := s.renews + multiset{key})
    case GetQueue(key, expiration) =>
      s.(queue := Renewed(s.queue, key, expiration), renews := s.renews - multiset{key})
    case DeleteItems(key) => s.(items := s.items - {key})
    case PurgeQueue(now) => s.(queue := Purged(s.queue, now), doomed := Some(PurgedKeys(s.queue, now)))
    case PurgeItems => s.(items := Without(s.items, s.doomed.value), doomed := None)
  }

  ghost predicate Runs<K, V>(s: Shared<K, V>, steps: seq<Action<K, V>>)
    decreases |steps|
  {
    steps == [] || (Enabled(s, steps[0]) && Runs(Next(s, steps[0]), steps[1..]))
  }

  function End<K(==), V>(s: Shared<K, V>, steps: seq<Action<K, V>>): Shared<K, V>
    requires Runs(s, steps)
    decreases |steps|
  {
    if steps == [] then s else End(Next(s, steps[0]), steps[1..])
  }

  // ---- Left alone, the halves make up the atomic calls ----

  function Atomic<K, V>(s: Shared<K, V>): MapState<K, V> {
    MapState(s.items, s.queue)
  }

  lemma SetIsItsHalves<K, V>(s: Shared<K, V>, key: K, value: V, expiration: Time)
    ensures Enabled(Next(s, SetItems(key, value)), SetQueue(key, expiration))
    ensures var s' := Next(Next(s, SetItems(key, value)), SetQueue(key, expiration));
            Atomic(s') == AfterSet(Atomic(s), key, value, expiration) && s'.(items := s.items, queue := s.queue) == s
  {
  }

  lemma GetIsItsHalves<K, V>(s: Shared<K, V>, key: K, expiration: Time)
    ensures Enabled(Next(s, GetItems(key)), GetQueue(key, expiration))
    ensures var s' := Next(Next(s, GetItems(key)), GetQueue(key, expiration));
            Atomic(s') == AfterGet(Atomic(s), key, expiration) && s'.(items := s.items, queue := s.queue) == s
  {
  }

  lemma PurgeIsItsHalves<K, V>(s: Shared<K, V>, now: Time)
    requires s.doomed.None?
    ensures Enabled(Next(s, PurgeQueue(now)), PurgeItems)
    ensures var s' := Next(Next(s, PurgeQueue(now)), PurgeItems);
            Atomic(s') == AfterPurge(Atomic(s), now) && s'.(items := s.items, queue := s.queue) == s
  {
  }

  // A deletion takes the value only; the entry of the key stays in the queue.
  lemma DeleteIsOneStep<K(!new), V>(s: Shared<K, V>, key: K)
    ensures Atomic(Next(s, DeleteItems(key))) == AfterDelete(Atomic(s), key)
    ensures Next(s, DeleteItems(key)).(items := s.items) == s
    ensures forall k :: Lookup(AfterDelete(Atomic(s), key), k) == if k == key then None else Lookup(Atomic(s), k)
  {
  }

  ghost predicate Queued<K>(q: Queue<K>, key: K) {
    Deadline(q, key).Some?
  }

  /** Every key of the map will be found by a purge: it is in the queue, on its way there, or
      on its way out of the map. */
  ghost predicate NoLeak<K(!new), V>(s: Shared<K, V>) {
    && Distinct(s.queue)
    && forall k | k in s.items :: Queued(s.queue, k) || k in s.adds || (s.doomed.Some? && k in s.doomed.value)
  }

  // Actions on the queue keep its keys, except that a purge hands them over.
  lemma QueueKeepsKeys<K, V>(s: Shared<K, V>, step: Action<K, V>, k: K)
    requires Distinct(s.queue) && Enabled(s, step)
    ensures var s' := Next(s, step);
            && (step.SetQueue? && k == step.key ==> Queued(s'.queue, k))
            && (Queued(s.queue, k) ==>
                  Queued(s'.queue, k) || (step.PurgeQueue? && s'.doomed.Some? && k in s'.doomed.value))
  {
    match step
    case SetQueue(key, expiration) =>
      AddedDeadline(s.queue, key, expiration, k);
    case GetQueue(key, expiration) =>
      RenewedDeadline(s.queue, key, expiration, k);
    case PurgeQueue(now) =>
      PurgedDeadline(s.queue, now, k);
    case _ =>
  }

  lemma ActionKeepsNoLeak<K(!new), V>(s: Shared<K, V>, step: Action<K, V>)
    requires NoLeak(s) && Enabled(s, step)
    ensures NoLeak(Next(s, step))
  {
    forall k
      ensures Queued(s.queue, k) ==>
                Queued(Next(s, step).queue, k)
                || (step.PurgeQueue? && Next(s, step).doomed.Some? && k in Next(s, step).doomed.value)
      ensures step.SetQueue? && k == step.key ==> Queued(Next(s, step).queue, k)
    {
      QueueKeepsKeys(s, step, k);
    }
    if step.SetQueue? || step.GetQueue? {
      StaysDistinct(s.queue, step.key, step.expiration);
    }
  }

  lemma {:induction false} RunKeepsNoLeak<K(!new), V>(s: Shared<K, V>, steps: seq<Action<K, V>>)
    requires NoLeak(s) && Runs(s, steps)
    ensures NoLeak(End(s, steps))
    decreases |steps|
  {
    if steps != [] {
      ActionKeepsNoLeak(s, steps[0]);
      RunKeepsNoLeak(Next(s, steps[0]), steps[1..]);
    }
  }

  // A run given by the states it passes through.
  lemma {:induction false} OneByOne<K, V>(steps: seq<Action<K, V>>, states: seq<Shared<K, V>>, k: nat)
    requires |states| == |steps| + 1 && k <= |steps|
    requires forall i | 0 <= i < |steps| ::
               Enabled(states[i], steps[i]) && states[i + 1] == Next(states[i], steps[i])
    ensures Runs(states[k], steps[k..]) && End(states[k], steps[k..]) == states[|steps|]
    decreases |steps| - k
  {
    if k < |steps| {
      OneByOne(steps, states, k + 1);
      assert steps[k..][1..] == steps[k + 1..];
    }
  }

  // Nobody is between two halves of a call that could still change the map or its queue.
  predicate Quiet<K(==), V>(s: Shared<K, V>) {
    s.adds == multiset{} && s.doomed.None?
  }

  /** No leaked key: however calls and purges interleave, nothing stays in the map that a later
      purge could miss. With no call half done every key of the map has exactly one entry in
      the queue, and a purge after the last expiration empties the map. */
  lemma NoKeyLeaks<K(!new), V>(steps: seq<Action<K, V>>, now: Time)
    requires Runs(Start<K, V>(), steps)
    ensures var s := End(Start<K, V>(), steps);
            && NoLeak(s)
            && (Quiet(s) ==> Distinct(s.queue) && forall k | k in s.items :: Queued(s.queue, k))
            && (Quiet(s) && EndsBy(s.queue, now) ==>
                  End(s, [PurgeQueue(now), PurgeItems]).items == map[])
  {
    RunKeepsNoLeak(Start<K, V>(), steps);
    var s := End(Start<K, V>(), steps);
    if Quiet(s) && EndsBy(s.queue, now) {
      var purge: seq<Action<K, V>> := [PurgeQueue(now), PurgeItems];
      var s1 := Next(s, purge[0]);
      ActionKeepsNoLeak(s, purge[0]);
      assert s1.queue == [];
      OneByOne(purge, [s, s1, Next(s1, purge[1])], 0);
    }
  }

  // An old value is in the map, with its entry.
  const SETTLED: Shared<int, string> := Shared(map[1 := "old"], [Item(1, 10)], multiset{}, multiset{}, None)

  // The purge has the key in hand, and its entry is gone.
  const STALE: Shared<int, string> := Shared(map[1 := "old"], [], multiset{}, multiset{}, Some([1]))

  lemma OldValueSet()
    ensures var s1 := Next(Start<int, string>(), SetItems(1, "old"));
            Enabled(s1, SetQueue(1, 10)) && Next(s1, SetQueue(1, 10)) == SETTLED
  {
    AddedAt<int>([], 1, 10, 0);
  }

  lemma StaleEntryTaken()
    ensures Enabled(SETTLED, PurgeQueue(10)) && Next(SETTLED, PurgeQueue(10)) == STALE
  {
    assert PurgedKeys(SETTLED.queue, 10) == [1];
  }

  // It makes no difference whether the new value is written before or after.
  lemma StaleEntryTakenBetween()
    ensures var s1 := Next(SETTLED, SetItems(1, "new"));
            Enabled(s1, PurgeQueue(10)) && Next(s1, PurgeQueue(10)) == Next(STALE, SetItems(1, "new"))
  {
    StaleEntryTaken();
  }

  lemma FreshValueLost()
    ensures var s1 := Next(STALE, SetItems(1, "new"));
            && Enabled(s1, SetQueue(1, 20))
            && var s2 := Next(s1, SetQueue(1, 20));
               && Enabled(s2, PurgeItems)
               && Next(s2, PurgeItems) == Shared(map[], [Item(1, 20)], multiset{}, multiset{}, None)
  {
    var s1 := Next(STALE, SetItems(1, "new"));
    AddedAt<int>([], 1, 20, 0);
    var s2 := Next(s1, SetQueue(1, 20));
    assert s2 == Shared(map[1 := "new"], [Item(1, 20)], multiset{}, multiset{}, Some([1]));
    assert Without(s2.items, [1]) == map[];
  }

  /** What atomic calls promise and interleaved ones do not: a value that was just set can be
      lost to a purge that took the key's earlier entry from the queue before. */
  lemma PurgeCanTakeAFreshValue()
    ensures var steps := [SetItems(1, "old"), SetQueue(1, 10), PurgeQueue(10),
                          SetItems(1, "new"), SetQueue(1, 20), PurgeItems];
            && Runs(Start(), steps)
            && var s := End(Start(), steps);
               Quiet(s) && s.queue == [Item(1, 20)] && 1 !in s.items
  {
    var steps := [SetItems(1, "old"), SetQueue(1, 10), PurgeQueue(10),
                  SetItems(1, "new"), SetQueue(1, 20), PurgeItems];
    OldValueSet();
    StaleEntryTaken();
    FreshValueLost();
    var s1 := Next(Start(), steps[0]);
    var s4 := Next(STALE, steps[3]);
    var s5 := Next(s4, steps[4]);
    OneByOne(steps, [Start(), s1, SETTLED, STALE, s4, s5, Next(s5, steps[5])], 0);
  }

  /** So it can be to a purge that starts between the two halves of the call that sets it. */
  lemma PurgeCanComeBetween()
    ensures var steps := [SetItems(1, "old"), SetQueue(1, 10), SetItems(1, "new"),
                          PurgeQueue(10), SetQueue(1, 20), PurgeItems];
            && Runs(Start(), steps)
            && var s := End(Start(), steps);
               Quiet(s) && s.queue == [Item(1, 20)] && 1 !in s.items
  {
    var steps := [SetItems(1, "old"), SetQueue(1, 10), SetItems(1, "new"),
                  PurgeQueue(10), SetQueue(1, 20), PurgeItems];
    OldValueSet();
    StaleEntryTakenBetween();
    FreshValueLost();
    var s1 := Next(Start(), steps[0]);
    var s3 := Next(SETTLED, steps[2]);
    var s4 := Next(s3, steps[3]);
    var s5 := Next(s4, steps[4]);
    OneByOne(steps, [Start(), s1, SETTLED, s3, s4, s5, Next(s5, steps[5])], 0);
  }

  // No other call sets or deletes the key.
  ghost predicate LeavesAlone<K(!new), V>(steps: seq<Action<K, V>>, k: K) {
    forall x | x in steps :: x.SetItems? || x.DeleteItems? ==> x.key != k
  }

  // The entry of the key runs until `e` at least.
  ghost predicate Lasts<K>(q: Queue<K>, k: K, e: Time) {
    Distinct(q) && Deadline(q, k).Some? && Deadline(q, k).value >= e
  }

  // Purges come before `e`, and whoever touches the key extends it to `e` at least.
  ghost predicate Before<K(!new), V>(steps: seq<Action<K, V>>, k: K, e: Time) {
    forall x | x in steps ::
      && (x.PurgeQueue? ==> x.now < e)
      && ((x.SetQueue? || x.GetQueue?) && x.key == k ==> x.expiration >= e)
  }

  // A purge under way has taken the key already.
  predicate Doomed<K(==), V>(s: Shared<K, V>, k: K) {
    s.doomed.Some? && k in s.doomed.value
  }

  lemma ActionKeepsValue<K(!new), V>(s: Shared<K, V>, x: Action<K, V>, k: K, e: Time)
    requires Enabled(s, x) && LeavesAlone([x], k)
    requires x.PurgeQueue? ==> Lasts(s.queue, k, e) && Before([x], k, e)
    ensures var s' := Next(s, x);
            && (Lasts(s.queue, k, e) && Before([x], k, e) ==> Lasts(s'.queue, k, e))
            && (k in s'.items <==> k in s.items && !(x.PurgeItems? && Doomed(s, k)))
            && (k in s'.items ==> s'.items[k] == s.items[k])
            && (Doomed(s', k) <==> Doomed(s, k) && !x.PurgeItems?)
  {
    assert x in [x];
    match x
    case SetQueue(key, expiration) =>
      if Distinct(s.queue) {
        StaysDistinct(s.queue, key, expiration);
        AddedDeadline(s.queue, key, expiration, k);
      }
    case GetQueue(key, expiration) =>
      if Distinct(s.queue) {
        StaysDistinct(s.queue, key, expiration);
      }
      RenewedDeadline(s.queue, key, expiration, k);
    case PurgeQueue(now) =>
      PurgedDeadline(s.queue, now, k);
    case _ =>
  }

  // No new purge starts.
  ghost predicate NoPurge<K(!new), V>(steps: seq<Action<K, V>>) {
    forall x | x in steps :: !x.PurgeQueue?
  }

  /** A key whose entry runs to `e` and that others do not set or delete stays in the map, with
      its value, through any number of purges before `e`, just if the purge under way, if it
      ends, had not taken the key already. If no new purge starts it needs no entry for that. */
  lemma {:induction false} ValueSurvivesIffNotDoomed<K(!new), V>(s: Shared<K, V>, steps: seq<Action<K, V>>,
                                                                 k: K, e: Time)
    requires Runs(s, steps) && LeavesAlone(steps, k)
    requires NoPurge(steps) || (Lasts(s.queue, k, e) && Before(steps, k, e))
    ensures var s' := End(s, steps);
            && (k in s'.items <==> k in s.items && !(Doomed(s, k) && PurgeItems in steps))
            && (k in s'.items ==> s'.items[k] == s.items[k])
    decreases |steps|
  {
    if steps != [] {
      assert steps[0] in steps && forall x | x in steps[1..] :: x in steps;
      assert forall x | x in steps :: x == steps[0] || x in steps[1..];
      assert forall x | x in [steps[0]] :: x == steps[0];
      ActionKeepsValue(s, steps[0], k, e);
      ValueSurvivesIffNotDoomed(Next(s, steps[0]), steps[1..], k, e);
    }
  }

  /** These are the only ways to lose it: a value that is there at the second half of its `Set` is
      safe from then on until its time to live is over, however calls and purges interleave, just
      if no purge had taken the key before that half and ends after it. */
  lemma SetIsSafeIff<K(!new), V>(before: seq<Action<K, V>>, after: seq<Action<K, V>>, k: K, e: Time)
    requires Runs(Start<K, V>(), before) && Enabled(End(Start<K, V>(), before), SetQueue(k, e))
    requires Runs(Next(End(Start<K, V>(), before), SetQueue(k, e)), after)
    requires LeavesAlone(after, k) && Before(after, k, e)
    ensures var s := End(Start<K, V>(), before);
            var s' := End(Next(s, SetQueue(k, e)), after);
            && (k in s'.items <==> k in s.items && !(Doomed(s, k) && PurgeItems in after))
            && (k in s'.items ==> s'.items[k] == s.items[k])
  {
    var s := End(Start<K, V>(), before);
    RunKeepsNoLeak(Start<K, V>(), before);
    StaysDistinct(s.queue, k, e);
    AddedDeadline(s.queue, k, e, k);
    ValueSurvivesIffNotDoomed(Next(s, SetQueue(k, e)), after, k, e);
  }
}
