/** The session blacklist behind the circuit breaker, with its in-process cache (L1) and its
    PostgreSQL table. Times are nanoseconds. An outage is a stretch in which Redis gives no
    answer, so that every call takes the L1 / PostgreSQL path. */
module ResilientBlacklists {
  import opened Options
  import opened CircuitBreakers

  type Id = string

  const DEFAULT_EXPIRATION: int := 60_000_000_000

  /** A cache item; one without an end never expires. */
  datatype Item = Item(value: bool, end: Option<int>)

  type Cache = map<Id, Item>
  type Table = map<Id, int>

  // ---------------------------------------------------------------- cache and table

  /** The cache still serves an item at its end. */
  predicate Found(l1: Cache, now: int, id: Id) {
    id in l1 && (l1[id].end.None? || now <= l1[id].end.value)
  }

  /** A lifetime of zero means the default one; a negative one means no end. */
  function EndOf(now: int, ttl: int): Option<int> {
    if ttl == 0 then Some(now + DEFAULT_EXPIRATION) else if ttl > 0 then Some(now + ttl) else None
  }

  function CacheSet(l1: Cache, now: int, id: Id, value: bool, ttl: int): Cache {
    l1[id := Item(value, EndOf(now, ttl))]
  }

  /** The upsert never shortens an entry. */
  function Upsert(pg: Table, id: Id, end: int): Table {
    pg[id := if id in pg && pg[id] > end then pg[id] else end]
  }

  predicate Active(pg: Table, now: int, id: Id) {
    id in pg && pg[id] > now
  }

  // ---------------------------------------------------------------- whole calls in an outage

  datatype Answer = Answer(blacklisted: bool, failed: bool, l1: Cache)

  function Lookup(l1: Cache, pg: Table, now: int, id: Id, pgOk: bool): Answer {
    if Found(l1, now, id) then Answer(l1[id].value, false, l1)
    else if !pgOk then Answer(true, true, l1)
    else Answer(Active(pg, now, id), false, CacheSet(l1, now, id, Active(pg, now, id), 0))
  }

  function CacheAll(l1: Cache, now: int, ids: seq<Id>, ttl: int): Cache {
    if ids == [] then l1 else CacheSet(CacheAll(l1, now, ids[..|ids| - 1], ttl), now, ids[|ids| - 1], true, ttl)
  }

  function UpsertAll(pg: Table, ids: seq<Id>, end: int): Table {
    if ids == [] then pg else Upsert(UpsertAll(pg, ids[..|ids| - 1], end), ids[|ids| - 1], end)
  }

  function Synced(l1: Cache, pg: Table, now: int): Cache {
    l1 + map id | id in pg && Active(pg, now, id) :: Item(true, Some(pg[id]))
  }

  // ---------------------------------------------------------------- the code

  datatype RedisReply = Reply(value: bool) | DomainError | InfraError

  class ResilientBlacklist {
    const cb: CircuitBreaker
    var l1: Cache
    var pg: Table

    constructor (cb: CircuitBreaker)
      ensures this.cb == cb && l1 == map[] && pg == map[]
    {
      this.cb := cb;
      l1, pg := map[], map[];
    }

    method IsBlacklisted(now: int64, draw: int64, id: Id, redis: RedisReply, pgOk: bool) returns (blacklisted: bool, failed: bool)
      requires cb.Ready(now, draw)
      modifies this`l1, cb
      ensures cb.InBounds() && cb.Abs() == old(Called(cb.cfg, cb.Abs(), now as int, draw as int, redis.InfraError?))
      ensures old(Admits(cb.Abs(), now as int)) && !redis.InfraError? ==>
                && blacklisted == (redis.DomainError? || redis.value) && failed == redis.DomainError?
                && l1 == CacheSet(old(l1), now as int, id, blacklisted, 0)
      ensures !(old(Admits(cb.Abs(), now as int)) && !redis.InfraError?) ==>
                Answer(blacklisted, failed, l1) == Lookup(old(l1), pg, now as int, id, pgOk)
    {
      var allowed := cb.Allow(now);
      if allowed {
        if redis.InfraError? {
          cb.RecordFailureInBounds(now, draw);
        } else {
          cb.RecordSuccess();
          blacklisted := redis.DomainError? || redis.value;
          l1 := CacheSet(l1, now as int, id, blacklisted, 0);
          return blacklisted, redis.DomainError?;
        }
      }
      if Found(l1, now as int, id) {
        return l1[id].value, false;
      }
      if !pgOk {
        return true, true;
      }
      blacklisted := Active(pg, now as int, id);
      l1 := CacheSet(l1, now as int, id, blacklisted, 0);
      return blacklisted, false;
    }

    method Add(now: int64, draw: int64, id: Id, ttl: int, redis: RedisReply, pgOk: bool) returns (ok: bool)
      requires cb.Ready(now, draw)
      modifies this, cb
      ensures cb.InBounds() && cb.Abs() == old(Called(cb.cfg, cb.Abs(), now as int, draw as int, redis.InfraError?))
      ensures old(Admits(cb.Abs(), now as int)) && !redis.InfraError? ==>
                && ok == redis.Reply? && pg == old(pg)
                && l1 == (if ok then CacheSet(old(l1), now as int, id, true, ttl) else old(l1))
      ensures !(old(Admits(cb.Abs(), now as int)) && !redis.InfraError?) ==>
                && ok == pgOk
                && pg == (if ok then Upsert(old(pg), id, now as int + ttl) else old(pg))
                && l1 == (if ok then CacheSet(old(l1), now as int, id, true, ttl) else old(l1))
    {
      var allowed := cb.Allow(now);
      if allowed {
        if redis.InfraError? {
          cb.RecordFailureInBounds(now, draw);
        } else {
          cb.RecordSuccess();
          if redis.Reply? {
            l1 := CacheSet(l1, now as int, id, true, ttl);
          }
          return redis.Reply?;
        }
      }
      if !pgOk {
        return false;
      }
      pg := Upsert(pg, id, now as int + ttl);
      l1 := CacheSet(l1, now as int, id, true, ttl);
      return true;
    }

    /** During an outage the ids before the first failed write are revoked, the rest not. */
    method AddBatchInOutage(now: int, ids: seq<Id>, ttl: int, failAt: nat) returns (ok: bool)
      modifies this
      ensures ok == (failAt >= |ids|)
      ensures var done := if ok then ids else ids[..failAt];
        pg == UpsertAll(old(pg), done, now + ttl) && l1 == CacheAll(old(l1), now, done, ttl)
    {
      var end := now + ttl;
      for i := 0 to |ids|
        invariant i <= failAt
        invariant pg == UpsertAll(old(pg), ids[..i], end) && l1 == CacheAll(old(l1), now, ids[..i], ttl)
      {
        if i == failAt {
          return false;
        }
        pg := Upsert(pg, ids[i], end);
        l1 := CacheSet(l1, now, ids[i], true, ttl);
        assert ids[..i + 1][..i] == ids[..i];
      }
      assert ids[..|ids|] == ids;
      return true;
    }

    method AddBatch(now: int64, draw: int64, ids: seq<Id>, ttl: int, redis: RedisReply, failAt: nat) returns (ok: bool)
      requires cb.Ready(now, draw)
      modifies this, cb
      ensures ids == [] ==> ok && unchanged(this) && unchanged(cb)
      ensures ids != [] ==>
                cb.InBounds() && cb.Abs() == old(Called(cb.cfg, cb.Abs(), now as int, draw as int, redis.InfraError?))
      ensures ids != [] && old(Admits(cb.Abs(), now as int)) && !redis.InfraError? ==>
                && ok == redis.Reply? && pg == old(pg)
                && l1 == (if ok then CacheAll(old(l1), now as int, ids, ttl) else old(l1))
      ensures ids != [] && !(old(Admits(cb.Abs(), now as int)) && !redis.InfraError?) ==>
                var done := if failAt >= |ids| then ids else ids[..failAt];
                && ok == (failAt >= |ids|)
                && pg == UpsertAll(old(pg), done, now as int + ttl) && l1 == CacheAll(old(l1), now as int, done, ttl)
    {
      if |ids| == 0 {
        return true;
      }
      var allowed := cb.Allow(now);
      if allowed {
        if redis.InfraError? {
          cb.RecordFailureInBounds(now, draw);
        } else {
          cb.RecordSuccess();
          if redis.Reply? {
            for i := 0 to |ids|
              invariant l1 == CacheAll(old(l1), now as int, ids[..i], ttl) && pg == old(pg)
              invariant cb.InBounds() && cb.Abs() == old(Called(cb.cfg, cb.Abs(), now as int, draw as int, false))
            {
              l1 := CacheSet(l1, now as int, ids[i], true, ttl);
              assert ids[..i + 1][..i] == ids[..i];
            }
            assert ids[..|ids|] == ids;
          }
          return redis.Reply?;
        }
      }
      ok := AddBatchInOutage(now as int, ids, ttl, failAt);
    }

    method SyncFromPg(now: int)
      modifies this`l1
      ensures l1 == Synced(old(l1), pg, now)
    {
      var todo := pg.Keys;
      while todo != {}
        invariant todo <= pg.Keys
        invariant l1 == old(l1) + map id | id in pg.Keys - todo && Active(pg, now, id) :: Item(true, Some(pg[id]))
        decreases |todo|
      {
        var id :| id in todo;
        todo := todo - {id};
        var ttl := pg[id] - now;
        if ttl > 0 {
          l1 := CacheSet(l1, now, id, true, ttl);
        }
      }
      assert pg.Keys - {} == pg.Keys;
    }
  }
}
