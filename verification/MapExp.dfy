/** The expiring map of internal/mapexp and the queue beside it.

    The source reads the clock inside the queue; here each operation is given `now`. */
module MapExp {
  import opened Clock
  import opened Wrappers

  datatype Item<K> = Item(key: K, expiration: Time)

  type Queue<K> = seq<Item<K>>

  // When the entry of a key runs out, if it has one.
  function Deadline<K(==)>(q: Queue<K>, key: K): Option<Time> {
    if q == [] then None
    else if q[0].key == key then Some(q[0].expiration)
    else Deadline(q[1..], key)
  }

  function Added<K(==)>(q: Queue<K>, key: K, expiration: Time): Queue<K> {
    if q == [] then [Item(key, expiration)]
    else if q[0].key == key then q[1..] + [Item(key, expiration)]
    else [q[0]] + Added(q[1..], key, expiration)
  }

  function Renewed<K(==)>(q: Queue<K>, key: K, expiration: Time): Queue<K> {
    if q == [] then []
    else if q[0].key == key then [Item(key, expiration)] + q[1..]
    else [q[0]] + Renewed(q[1..], key, expiration)
  }

  // The two in terms of the first position `i` of the key.
  lemma {:induction false} AddedAt<K>(q: Queue<K>, key: K, expiration: Time, i: nat)
    requires i <= |q| && (forall j | 0 <= j < i :: q[j].key != key) && (i < |q| ==> q[i].key == key)
    ensures Added(q, key, expiration)
              == (if i < |q| then q[..i] + q[i + 1..] else q) + [Item(key, expiration)]
  {
    if i > 0 {
      AddedAt(q[1..], key, expiration, i - 1);
    }
  }

  lemma {:induction false} RenewedAt<K>(q: Queue<K>, key: K, expiration: Time, i: nat)
    requires i <= |q| && (forall j | 0 <= j < i :: q[j].key != key) && (i < |q| ==> q[i].key == key)
    ensures Renewed(q, key, expiration) == if i < |q| then q[i := Item(key, expiration)] else q
  {
    if i > 0 {
      RenewedAt(q[1..], key, expiration, i - 1);
    }
  }

  // The length of the prefix that `purge` takes: up to the first entry still alive.
  function Expired<K>(q: Queue<K>, now: Time): (i: nat)
    ensures i <= |q|
    ensures forall j | 0 <= j < i :: q[j].expiration <= now
    ensures i < |q| ==> q[i].expiration > now
  {
    if q == [] || q[0].expiration > now then 0 else 1 + Expired(q[1..], now)
  }

  function Purged<K>(q: Queue<K>, now: Time): Queue<K> {
    q[Expired(q, now)..]
  }

  function KeysOf<K>(q: Queue<K>): (keys: seq<K>)
    ensures |keys| == |q|
    ensures forall i | 0 <= i < |q| :: keys[i] == q[i].key
  {
    if q == [] then [] else KeysOf(q[..|q| - 1]) + [q[|q| - 1].key]
  }

  function PurgedKeys<K>(q: Queue<K>, now: Time): seq<K> {
    KeysOf(q[..Expired(q, now)])
  }

  function Without<K(==), V>(items: map<K, V>, keys: seq<K>): (rest: map<K, V>)
    ensures rest.Keys <= items.Keys
    ensures forall k | k in items :: k in rest <==> k !in keys
    ensures forall k | k in rest :: rest[k] == items[k]
  {
    if keys == [] then items else Without(items, keys[..|keys| - 1]) - {keys[|keys| - 1]}
  }

  class ExpirationQueue<K(==)> {
    var items: Queue<K>
    const ttl: Duration

    constructor (ttl: Duration)
      ensures items == [] && this.ttl == ttl
    {
      items, this.ttl := [], ttl;
    }

    method Add(key: K, now: Time)
      modifies this
      ensures items == Added(old(items), key, now + ttl)
    {
      var i := 0;
      while i < |items|
        invariant 0 <= i <= |items| && items == old(items)
        invariant forall j | 0 <= j < i :: items[j].key != key
      {
        if items[i].key == key {
          AddedAt(items, key, now + ttl, i);
          items := items[..i] + items[i + 1..];
          break;
        }
        i := i + 1;
      }
      if i == |old(items)| {
        AddedAt(old(items), key, now + ttl, i);
      }
      items := items + [Item(key, now + ttl)];
    }

    method Renew(key: K, now: Time)
      modifies this
      ensures items == Renewed(old(items), key, now + ttl)
    {
      var i := 0;
      while i < |items|
        invariant 0 <= i <= |items| && items == old(items)
        invariant forall j | 0 <= j < i :: items[j].key != key
      {
        if items[i].key == key {
          RenewedAt(items, key, now + ttl, i);
          items := items[i := items[i].(expiration := now + ttl)];
          break;
        }
        i := i + 1;
      }
      if i == |old(items)| {
        RenewedAt(old(items), key, now + ttl, i);
      }
    }

    method Purge(now: Time) returns (expiredKeys: seq<K>)
      modifies this
      ensures items == Purged(old(items), now)
      ensures expiredKeys == PurgedKeys(old(items), now)
    {
      expiredKeys := [];
      var i := 0;
      while i < |items|
        invariant 0 <= i <= |items| && items == old(items)
        invariant forall j | 0 <= j < i :: items[j].expiration <= now
        invariant expiredKeys == KeysOf(items[..i])
      {
        if items[i].expiration > now {
          break;
        }
        expiredKeys := expiredKeys + [items[i].key];
        i := i + 1;
      }
      FirstAlive(items, now, i);
      items := items[i..];
    }
  }

  lemma FirstAlive<K>(q: Queue<K>, now: Time, i: nat)
    requires i <= |q| && (forall j | 0 <= j < i :: q[j].expiration <= now) && (i < |q| ==> q[i].expiration > now)
    ensures Expired(q, now) == i
  {
  }

  /** The map and its queue, with `Set`, `Get`, `Delete` and a purge each as one step. */
  datatype MapState<K, V> = MapState(items: map<K, V>, queue: Queue<K>)

  function EmptyMap<K, V>(): MapState<K, V> {
    MapState(map[], [])
  }

  function AfterSet<K(==), V>(m: MapState<K, V>, key: K, value: V, expiration: Time): MapState<K, V> {
    MapState(m.items[key := value], Added(m.queue, key, expiration))
  }

  function Lookup<K(==), V>(m: MapState<K, V>, key: K): Option<V> {
    if key in m.items then Some(m.items[key]) else None
  }

  // What `Get` leaves; what it answers is `Lookup`.
  function AfterGet<K(==), V>(m: MapState<K, V>, key: K, expiration: Time): MapState<K, V> {
    m.(queue := Renewed(m.queue, key, expiration))
  }

  function AfterDelete<K(==), V>(m: MapState<K, V>, key: K): MapState<K, V> {
    m.(items := m.items - {key})
  }

  function AfterPurge<K(==), V>(m: MapState<K, V>, now: Time): MapState<K, V> {
    MapState(Without(m.items, PurgedKeys(m.queue, now)), Purged(m.queue, now))
  }

  class ExpiringMap<K(==), V> {
    var items: map<K, V>
    const expirationQueue: ExpirationQueue<K>

    ghost function State(): MapState<K, V>
      reads this, expirationQueue
    {
      MapState(items, expirationQueue.items)
    }

    constructor (ttl: Duration)
      ensures State() == EmptyMap() && expirationQueue.ttl == ttl && fresh(expirationQueue)
    {
      items := map[];
      expirationQueue := new ExpirationQueue(ttl);
    }

    method Set(key: K, value: V, now: Time)
      modifies this, expirationQueue
      ensures State() == AfterSet(old(State()), key, value, now + expirationQueue.ttl)
    {
      items := items[key := value];
      expirationQueue.Add(key, now);
    }

    method Get(key: K, now: Time) returns (value: Option<V>)
      modifies expirationQueue
      ensures State() == AfterGet(old(State()), key, now + expirationQueue.ttl)
      ensures value == Lookup(old(State()), key)
    {
      value := if key in items then Some(items[key]) else None;
      expirationQueue.Renew(key, now);
    }

    method Delete(key: K)
      modifies this
      ensures State() == AfterDelete(old(State()), key)
    {
      items := items - {key};
    }

    /** One round of the loop that `start` runs on every tick of its timer. */
    method PurgeExpired(now: Time)
      modifies this, expirationQueue
      ensures State() == AfterPurge(old(State()), now)
    {
      var expiredKeys := expirationQueue.Purge(now);
      var i := 0;
      while i < |expiredKeys|
        invariant 0 <= i <= |expiredKeys|
        invariant items == Without(old(items), expiredKeys[..i])
        invariant expirationQueue.items == Purged(old(expirationQueue.items), now)
      {
        items := items - {expiredKeys[i]};
        assert expiredKeys[..i + 1][..i] == expiredKeys[..i];
        i := i + 1;
      }
      assert expiredKeys[..i] == expiredKeys;
    }
  }
}
