/** The wrappers that put the circuit breaker and an in-process cache (L1) in front of the
    session store and the device-token repository. Both follow one pattern, written once
    over the type of the values. Times are nanoseconds. */
module L1Wrappers {
  import opened CircuitBreakers

  type Key = string

  const L1_LIFETIME: int := 60_000_000_000

  datatype Item<+V> = Item(value: V, end: int)

  predicate Found<V>(l1: map<Key, Item<V>>, now: int, k: Key) {
    k in l1 && now <= l1[k].end
  }

  function Cached<V>(l1: map<Key, Item<V>>, now: int, k: Key, v: V): map<Key, Item<V>> {
    l1[k := Item(v, now + L1_LIFETIME)]
  }

  // ---------------------------------------------------------------- the code

  datatype Fault = NoFault | DomainError | InfraError

  datatype Result<+V> = Value(value: V) | NotFound | Unavailable | Failed

  class ResilientStore<V> {
    const cb: CircuitBreaker
    /** What a read says when Redis cannot be asked: "not found" for sessions,
        "unavailable" for device tokens. */
    const whenDown: Result<V>
    var redis: map<Key, V>
    var l1: map<Key, Item<V>>

    constructor (cb: CircuitBreaker, whenDown: Result<V>)
      ensures this.cb == cb && this.whenDown == whenDown && redis == map[] && l1 == map[]
    {
      this.cb := cb;
      this.whenDown := whenDown;
      redis, l1 := map[], map[];
    }

    method Get(now: int64, draw: int64, k: Key, fault: Fault) returns (r: Result<V>)
      requires cb.Ready(now, draw)
      modifies this`l1, cb
      ensures cb.InBounds()
      ensures Found(old(l1), now as int, k) ==> r == Value(old(l1)[k].value) && l1 == old(l1) && unchanged(cb)
      ensures !Found(old(l1), now as int, k) ==>
                && cb.Abs() == old(Called(cb.cfg, cb.Abs(), now as int, draw as int, fault.InfraError?))
                && (var asked := old(Admits(cb.Abs(), now as int)) && !fault.InfraError?;
                    && r == (if !asked then whenDown else if fault.DomainError? then Failed
                             else if k in redis then Value(redis[k]) else NotFound)
                    && l1 == (if asked && fault.NoFault? && k in redis then Cached(old(l1), now as int, k, redis[k]) else old(l1)))
    {
      if Found(l1, now as int, k) {
        return Value(l1[k].value);
      }
      var allowed := cb.Allow(now);
      if !allowed {
        return whenDown;
      }
      if fault.InfraError? {
        cb.RecordFailureInBounds(now, draw);
        return whenDown;
      }
      cb.RecordSuccess();
      if fault.DomainError? {
        return Failed;
      }
      if k !in redis {
        return NotFound;
      }
      l1 := Cached(l1, now as int, k, redis[k]);
      return Value(redis[k]);
    }

    /** Create and Update of a session, SaveLogin and RotateRefreshToken of a token. */
    method Put(now: int64, draw: int64, k: Key, v: V, fault: Fault) returns (ok: bool)
      requires cb.Ready(now, draw)
      modifies this`redis, this`l1, cb
      ensures cb.InBounds() && cb.Abs() == old(Called(cb.cfg, cb.Abs(), now as int, draw as int, fault.InfraError?))
      ensures ok == (old(Admits(cb.Abs(), now as int)) && fault.NoFault?)
      ensures redis == (if ok then old(redis)[k := v] else old(redis))
      ensures l1 == (if ok then Cached(old(l1), now as int, k, v) else old(l1))
    {
      var allowed := cb.Allow(now);
      if !allowed {
        return false;
      }
      if fault.InfraError? {
        cb.RecordFailureInBounds(now, draw);
        return false;
      }
      cb.RecordSuccess();
      if fault.DomainError? {
        return false;
      }
      redis := redis[k := v];
      l1 := Cached(l1, now as int, k, v);
      return true;
    }

    /** Delete of a session: the cache lets go first, whatever becomes of the rest. */
    method Delete(now: int64, draw: int64, k: Key, fault: Fault) returns (ok: bool)
      requires cb.Ready(now, draw)
      modifies this`redis, this`l1, cb
      ensures cb.InBounds() && cb.Abs() == old(Called(cb.cfg, cb.Abs(), now as int, draw as int, fault.InfraError?))
      ensures ok == (old(Admits(cb.Abs(), now as int)) && fault.NoFault?)
      ensures l1 == old(l1) - {k} && redis == (if ok then old(redis) - {k} else old(redis))
    {
      l1 := l1 - {k};
      var allowed := cb.Allow(now);
      if !allowed {
        return false;
      }
      if fault.InfraError? {
        cb.RecordFailureInBounds(now, draw);
        return false;
      }
      cb.RecordSuccess();
      if fault.DomainError? {
        return false;
      }
      redis := redis - {k};
      return true;
    }

    /** LogoutDevice of a token: the cache lets go only after Redis has. */
    method Logout(now: int64, draw: int64, k: Key, fault: Fault) returns (ok: bool)
      requires cb.Ready(now, draw)
      modifies this`redis, this`l1, cb
      ensures cb.InBounds() && cb.Abs() == old(Called(cb.cfg, cb.Abs(), now as int, draw as int, fault.InfraError?))
      ensures ok == (old(Admits(cb.Abs(), now as int)) && fault.NoFault?)
      ensures redis == (if ok then old(redis) - {k} else old(redis)) && l1 == (if ok then old(l1) - {k} else old(l1))
    {
      var allowed := cb.Allow(now);
      if !allowed {
        return false;
      }
      if fault.InfraError? {
        cb.RecordFailureInBounds(now, draw);
        return false;
      }
      cb.RecordSuccess();
      if fault.DomainError? {
        return false;
      }
      redis := redis - {k};
      l1 := l1 - {k};
      return true;
    }

    /** LogoutAll of the device tokens: Redis deletes the tokens `ids`, the cache keeps what
        it has. */
    method LogoutAll(now: int64, draw: int64, ids: set<Key>, fault: Fault) returns (ok: bool)
      requires cb.Ready(now, draw)
      modifies this`redis, cb
      ensures cb.InBounds() && cb.Abs() == old(Called(cb.cfg, cb.Abs(), now as int, draw as int, fault.InfraError?))
      ensures ok == (old(Admits(cb.Abs(), now as int)) && fault.NoFault?)
      ensures redis == (if ok then old(redis) - ids else old(redis))
    {
      var allowed := cb.Allow(now);
      if !allowed {
        return false;
      }
      if fault.InfraError? {
        cb.RecordFailureInBounds(now, draw);
        return false;
      }
      cb.RecordSuccess();
      if fault.DomainError? {
        return false;
      }
      redis := redis - ids;
      return true;
    }

    /** DeleteAllForUser: `ids` is what the store deleted and reported. */
    method DeleteAll(now: int64, draw: int64, ids: seq<Key>, fault: Fault) returns (ok: bool)
      requires cb.Ready(now, draw)
      modifies this`redis, this`l1, cb
      ensures cb.InBounds() && cb.Abs() == old(Called(cb.cfg, cb.Abs(), now as int, draw as int, fault.InfraError?))
      ensures ok == (old(Admits(cb.Abs(), now as int)) && fault.NoFault?)
      ensures redis == (if ok then old(redis) - (set k | k in ids) else old(redis))
      ensures l1 == (if ok then old(l1) - (set k | k in ids) else old(l1))
    {
      var allowed := cb.Allow(now);
      if !allowed {
        return false;
      }
      if fault.InfraError? {
        cb.RecordFailureInBounds(now, draw);
        return false;
      }
      cb.RecordSuccess();
      if fault.DomainError? {
        return false;
      }
      redis := redis - set k | k in ids;
      for i := 0 to |ids|
        invariant l1 == old(l1) - set k | k in ids[..i]
        invariant redis == old(redis) - set k | k in ids
        invariant cb.InBounds() && cb.Abs() == old(Called(cb.cfg, cb.Abs(), now as int, draw as int, false))
      {
        l1 := l1 - {ids[i]};
        assert ids[..i + 1] == ids[..i] + [ids[i]];
      }
      assert ids[..|ids|] == ids;
      return true;
    }
  }
}
