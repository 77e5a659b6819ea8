/** The login rate limiter (app/core/rate_limit.py): one counter per key, kept by Redis with an
    expiry. Times are in milliseconds, the resolution of a Redis expiry. */
module RateLimit {
  import opened Prelude

  datatype Entry = Entry(count: nat, deadline: Option<int>)

  type Store = map<string, Entry>

  datatype Limits = Limits(maxAttempts: int, windowSeconds: nat) {
    function WindowMs(): int { 1000 * windowSeconds }
  }

  function At(store: Store, key: string): Option<Entry> {
    if key in store then Some(store[key]) else None
  }

  /** `GET`: a key whose deadline has come is gone. */
  function Get(entry: Option<Entry>, now: int): Option<nat> {
    match entry
    case None => None
    case Some(e) => if e.deadline.Some? && e.deadline.value <= now then None else Some(e.count)
  }

  /** `INCR`: counts from one on a missing key, and keeps the deadline of a present one. */
  function Incr(entry: Option<Entry>, now: int): Entry {
    match Get(entry, now)
    case None => Entry(1, None)
    case Some(count) => Entry(count + 1, entry.value.deadline)
  }

  /** Whether a login attempt may go on; `up` is false when Redis raises an error. */
  function Allows(limits: Limits, entry: Option<Entry>, now: int, up: bool): bool {
    !up || match Get(entry, now)
           case None => true
           case Some(count) => count < limits.maxAttempts
  }

  /** `EXPIRE`: sets the deadline of a key that is there. */
  function AfterExpire(limits: Limits, entry: Option<Entry>, now: int, up: bool): Option<Entry> {
    if up && Get(entry, now).Some? then Some(entry.value.(deadline := Some(now + limits.WindowMs()))) else entry
  }

  /** Both calls of one failure, with no other attempt between them. */
  function AfterFailure(limits: Limits, entry: Option<Entry>, now: int, incrUp: bool, expireUp: bool)
    : Option<Entry>
  {
    if !incrUp then entry
    else
      var counted := Incr(entry, now);
      if counted.count == 1 then AfterExpire(limits, Some(counted), now, expireUp) else Some(counted)
  }

  function AfterClear(entry: Option<Entry>, deleteUp: bool): Option<Entry> {
    if deleteUp then None else entry
  }

  /** Which Redis calls of one login attempt go through. */
  datatype Redis = Redis(getUp: bool, incrUp: bool, expireUp: bool, deleteUp: bool)

  class RedisLoginRateLimiter {
    const limits: Limits
    const keyPrefix: string
    var store: Store

    constructor (limits: Limits, keyPrefix: string := "auth:login_attempts")
      ensures this.limits == limits && this.keyPrefix == keyPrefix && store == map[]
    {
      this.limits, this.keyPrefix, store := limits, keyPrefix, map[];
    }

    function RedisKey(key: string): string {
      keyPrefix + ":" + key
    }

    /** The counter kept for a caller's key. */
    function EntryOf(key: string): Option<Entry>
      reads this
    {
      At(store, RedisKey(key))
    }

    /** Every caller's key has a counter of its own. */
    lemma KeysDiffer(a: string, b: string)
      requires RedisKey(a) == RedisKey(b)
      ensures a == b
    {
      var n := |keyPrefix| + 1;
      assert RedisKey(a)[n..] == a && RedisKey(b)[n..] == b;
    }

    /** A failing `GET` lets the attempt through, and so does a missing or expired counter. */
    method IsAllowed(key: string, now: int, redis: Redis) returns (allowed: bool)
      ensures allowed == Allows(limits, EntryOf(key), now, redis.getUp)
      ensures !redis.getUp || EntryOf(key).None? ==> allowed
      ensures redis.getUp && EntryOf(key).Some? ==>
                var Entry(count, deadline) := EntryOf(key).value;
                allowed <==> count < limits.maxAttempts || (deadline.Some? && deadline.value <= now)
    {
      if !redis.getUp {
        return true;
      }
      var count := Get(EntryOf(key), now);
      if count.None? {
        return true;
      }
      return count.value < limits.maxAttempts;
    }

    /** The first count of a window sets the deadline, `windowSeconds` ahead; later ones keep it. */
    method AddFailure(key: string, now: int, redis: Redis)
      modifies this
      ensures EntryOf(key) == AfterFailure(limits, old(EntryOf(key)), now, redis.incrUp, redis.expireUp)
      ensures !redis.incrUp ==> EntryOf(key) == old(EntryOf(key))
      ensures redis.incrUp ==>
                var was := Get(old(EntryOf(key)), now);
                EntryOf(key) == Some(
                  if was.Some? && was.value > 0 then Entry(was.value + 1, old(EntryOf(key)).value.deadline)
                  else if redis.expireUp then Entry(1, Some(now + 1000 * limits.windowSeconds))
                  else Entry(1, if was.Some? then old(EntryOf(key)).value.deadline else None))
      ensures forall k | k != key :: EntryOf(k) == old(EntryOf(k))
    {
      var redisKey := RedisKey(key);
      OtherKeys(key);
      if !redis.incrUp {
        return;
      }
      var entry := Incr(At(store, redisKey), now);
      store := store[redisKey := entry];
      if entry.count == 1 {
        if redis.expireUp {
          store := store[redisKey := entry.(deadline := Some(now + limits.WindowMs()))];
        }
      }
    }

    lemma OtherKeys(key: string)
      ensures forall k | k != key :: RedisKey(k) != RedisKey(key)
    {
      forall k | k != key ensures RedisKey(k) != RedisKey(key) {
        if RedisKey(k) == RedisKey(key) {
          KeysDiffer(k, key);
        }
      }
    }

    method Clear(key: string, redis: Redis)
      modifies this
      ensures EntryOf(key) == if redis.deleteUp then None else old(EntryOf(key))
      ensures forall k | k != key :: EntryOf(k) == old(EntryOf(k))
    {
      OtherKeys(key);
      if redis.deleteUp {
        store := store - {RedisKey(key)};
      }
    }
  }
}
