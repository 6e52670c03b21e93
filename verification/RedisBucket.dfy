/** The token bucket script of detector/redigo/tokenbucket_redis.go, run by Redis on one key.

    Redis seconds are read as exact reals; times are kept in nanoseconds. The script is
    taken with its refill rate, one token per `interval`, already computed. */
module RedisBucket {
  import opened Clock
  import opened Wrappers

  datatype Hash = Hash(tokens: real, lastRefreshed: Time)

  /** The key: its hash, and when Redis may drop it. */
  datatype Key = Key(bucket: Option<Hash>, deadline: Option<Time>)

  const MISSING := Key(None, None)

  function Ceil(x: real): int {
    -(-x).Floor
  }

  function RefillRate(interval: Duration): real
    requires interval > 0
  {
    1.0 / (interval as real / SECOND as real)
  }

  // The time EXPIRE gives the key.
  function Lifetime(maxTokens: int, refillRate: real): Duration
    requires refillRate > 0.0
  {
    Ceil(maxTokens as real / refillRate) * SECOND
  }

  function Refilled(maxTokens: int, refillRate: real, key: Key, now: Time): real {
    var tokens := if key.bucket.Some? then key.bucket.value.tokens else maxTokens as real;
    var lastRefreshed := if key.bucket.Some? then key.bucket.value.lastRefreshed else now;
    var refilled := tokens + (now - lastRefreshed) as real / SECOND as real * refillRate;
    if refilled > maxTokens as real then maxTokens as real else refilled
  }

  predicate ScriptAllows(maxTokens: int, refillRate: real, key: Key, now: Time) {
    Refilled(maxTokens, refillRate, key, now) >= 1.0
  }

  // A refusal drains the bucket and leaves the deadline as it was.
  function AfterScript(maxTokens: int, refillRate: real, key: Key, now: Time): Key
    requires refillRate > 0.0
  {
    if ScriptAllows(maxTokens, refillRate, key, now) then
      Key(Some(Hash(Refilled(maxTokens, refillRate, key, now) - 1.0, now)),
          Some(now + Lifetime(maxTokens, refillRate)))
    else Key(Some(Hash(0.0, now)), key.deadline)
  }

  class RedisKey {
    var bucket: Option<Hash>
    var deadline: Option<Time>

    ghost function State(): Key
      reads this
    {
      Key(bucket, deadline)
    }

    constructor ()
      ensures State() == MISSING
    {
      bucket, deadline := None, None;
    }

    /** `stored` is what HMSET reports. If it is not, the call is allowed, and the hash stays as
        it was; EXPIRE gives a deadline to a key that exists. */
    method RunScript(maxTokens: int, refillRate: real, now: Time, stored: bool) returns (allowed: bool)
      requires refillRate > 0.0
      modifies this
      ensures allowed == (!stored || ScriptAllows(maxTokens, refillRate, old(State()), now))
      ensures stored ==> State() == AfterScript(maxTokens, refillRate, old(State()), now)
      ensures !stored ==>
                && bucket == old(bucket)
                && deadline == if old(bucket).Some? && ScriptAllows(maxTokens, refillRate, old(State()), now)
                               then Some(now + Lifetime(maxTokens, refillRate)) else old(deadline)
    {
      var tokens, lastRefreshed := maxTokens as real, now;
      if bucket.Some? {
        tokens, lastRefreshed := bucket.value.tokens, bucket.value.lastRefreshed;
      }
      var elapsed := (now - lastRefreshed) as real / SECOND as real;
      var newTokens := tokens + elapsed * refillRate;
      if newTokens > maxTokens as real {
        newTokens := maxTokens as real;
      }
      if newTokens >= 1.0 {
        newTokens := newTokens - 1.0;
        if stored {
          bucket := Some(Hash(newTokens, now));
        }
        if bucket.Some? {
          deadline := Some(now + Lifetime(maxTokens, refillRate));
        }
        return true;
      }
      if stored {
        bucket := Some(Hash(0.0, now));
      }
      return !stored;
    }

    /** Redis drops the key, at some time from its deadline on. */
    method Drop(now: Time)
      requires deadline.Some? && deadline.value <= now
      modifies this
      ensures State() == MISSING
    {
      bucket, deadline := None, None;
    }
  }
}
