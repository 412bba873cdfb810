/** What callers see through the L1 wrappers, while Redis changes under them in any way:
    other instances, expiry, evictions. Every call is split where it touches Redis or the
    cache, and calls interleave freely:
      a read that misses the cache is ReadRedis, later FillCache;
      Create, Update, SaveLogin and RotateRefreshToken are WriteRedis, later FillCache;
      Delete is Evict, later Remove; LogoutDevice and DeleteAllForUser are Remove, later
      Evict; LogoutAll of the device tokens is Remove alone.
    A call that fails on the way stops there. */
module L1Freshness {
  import opened L1Wrappers

  /** A call between its contact with Redis, at time `at`, and its write to the cache. */
  datatype Pending<V> = Pending(key: Key, value: V, at: int, isRead: bool)

  /** `used` are the numbers of all calls so far. */
  datatype System<V> = System(now: int, redis: map<Key, V>, l1: map<Key, Item<V>>,
                              pending: map<nat, Pending<V>>, used: set<nat>)

  datatype Action<V> =
    | Tick(d: nat)
    | Outside(redis: map<Key, V>)       // Redis changes by itself or through others
    | ReadCached(key: Key)
    | ReadRedis(n: nat, key: Key)
    | WriteRedis(n: nat, key: Key, value: V)
    | FillCache(n: nat)
    | Evict(key: Key)
    | Remove(keys: set<Key>)

  predicate Enabled<V>(s: System<V>, a: Action<V>) {
    match a
    case ReadCached(k) => Found(s.l1, s.now, k)
    case ReadRedis(n, k) => n !in s.used && k in s.redis
    case WriteRedis(n, _, _) => n !in s.used
    case FillCache(n) => n in s.pending
    case _ => true
  }

  function Next<V>(s: System<V>, a: Action<V>): System<V>
    requires Enabled(s, a)
  {
    match a
    case Tick(d) => s.(now := s.now + d)
    case Outside(redis) => s.(redis := redis)
    case ReadCached(_) => s
    case ReadRedis(n, k) =>
      s.(pending := s.pending[n := Pending(k, s.redis[k], s.now, true)], used := s.used + {n})
    case WriteRedis(n, k, v) =>
      s.(redis := s.redis[k := v], pending := s.pending[n := Pending(k, v, s.now, false)], used := s.used + {n})
    case FillCache(n) =>
      s.(pending := s.pending - {n}, l1 := Cached(s.l1, s.now, s.pending[n].key, s.pending[n].value))
    case Evict(k) => s.(l1 := s.l1 - {k})
    case Remove(ks) => s.(redis := s.redis - ks)
  }

  datatype Told<V> = Nothing | Told(key: Key, value: V)

  function Tells<V>(s: System<V>, a: Action<V>): Told<V>
    requires Enabled(s, a)
  {
    match a
    case ReadCached(k) => Told(k, s.l1[k].value)
    case FillCache(n) => if s.pending[n].isRead then Told(s.pending[n].key, s.pending[n].value) else Nothing
    case _ => Nothing
  }

  // ---------------------------------------------------------------- runs

  ghost predicate Runs<V>(redis: map<Key, V>, trace: seq<Action<V>>)
    decreases |trace|, 0
  {
    trace == [] || (Runs(redis, Front(trace)) && Enabled(Run(redis, Front(trace)), Last(trace)))
  }

  /** From any content of Redis and an empty cache. */
  function Run<V>(redis: map<Key, V>, trace: seq<Action<V>>): System<V>
    requires Runs(redis, trace)
    decreases |trace|, 1
  {
    if trace == [] then System(0, redis, map[], map[], {}) else Next(Run(redis, Front(trace)), Last(trace))
  }

  function Front<V>(trace: seq<Action<V>>): seq<Action<V>>
    requires trace != []
  {
    trace[..|trace| - 1]
  }

  function Last<V>(trace: seq<Action<V>>): Action<V>
    requires trace != []
  {
    trace[|trace| - 1]
  }

  lemma {:induction false} PrefixRuns<V>(redis: map<Key, V>, trace: seq<Action<V>>, i: nat)
    requires Runs(redis, trace) && i <= |trace|
    ensures Runs(redis, trace[..i]) && Run(redis, trace[..i]).now <= Run(redis, trace).now
    decreases |trace|
  {
    if i == |trace| {
      assert trace[..i] == trace;
    } else {
      assert trace[..i] == Front(trace)[..i];
      PrefixRuns(redis, Front(trace), i);
    }
  }

  /** The uninterrupted calls are those of the wrapper class. */
  lemma WholeCallsAreSteps<V>(s: System<V>, n: nat, k: Key, v: V, ks: set<Key>)
    requires n !in s.used
    ensures var put := Next(Next(s, WriteRedis(n, k, v)), FillCache(n));
      put.redis == s.redis[k := v] && put.l1 == Cached(s.l1, s.now, k, v) && put.pending.Keys == s.pending.Keys - {n}
    ensures k in s.redis ==>
      var get := Next(Next(s, ReadRedis(n, k)), FillCache(n));
      && get.redis == s.redis && get.l1 == Cached(s.l1, s.now, k, s.redis[k])
      && Tells(Next(s, ReadRedis(n, k)), FillCache(n)) == Told(k, s.redis[k])
    ensures var deleted := Next(Next(s, Evict(k)), Remove({k}));
      deleted.redis == s.redis - {k} && deleted.l1 == s.l1 - {k} && deleted == Next(Next(s, Remove({k})), Evict(k))
  {
  }

  // ---------------------------------------------------------------- freshness

  ghost predicate HeldAt<V>(redis: map<Key, V>, trace: seq<Action<V>>, i: nat, since: int, k: Key, v: V) {
    && i <= |trace| && Runs(redis, trace[..i])
    && var s := Run(redis, trace[..i]);
    && s.now >= since && k in s.redis && s.redis[k] == v
  }

  /** Redis held this value at some moment of the run from `since` on. */
  ghost predicate HeldSince<V>(redis: map<Key, V>, trace: seq<Action<V>>, since: int, k: Key, v: V) {
    exists i: nat :: HeldAt(redis, trace, i, since, k, v)
  }

  lemma HeldStays<V>(redis: map<Key, V>, trace: seq<Action<V>>, since: int, earlier: int, k: Key, v: V)
    requires trace != [] && HeldSince(redis, Front(trace), since, k, v) && earlier <= since
    ensures HeldSince(redis, trace, earlier, k, v)
  {
    var i: nat :| HeldAt(redis, Front(trace), i, since, k, v);
    assert trace[..i] == Front(trace)[..i];
    assert HeldAt(redis, trace, i, earlier, k, v);
  }

  lemma HeldNow<V>(redis: map<Key, V>, trace: seq<Action<V>>, k: Key)
    requires Runs(redis, trace) && k in Run(redis, trace).redis
    ensures HeldSince(redis, trace, Run(redis, trace).now, k, Run(redis, trace).redis[k])
  {
    assert trace[..|trace|] == trace;
    assert HeldAt(redis, trace, |trace|, Run(redis, trace).now, k, Run(redis, trace).redis[k]);
  }

  /** Every cached value was in Redis at most `d` before it was cached. */
  ghost predicate CacheFresh<V>(redis: map<Key, V>, trace: seq<Action<V>>, s: System<V>, d: int) {
    forall k | k in s.l1 :: HeldSince(redis, trace, s.l1[k].end - L1_LIFETIME - d, k, s.l1[k].value)
  }

  /** Every pending value was in Redis when its call was there. */
  ghost predicate PendingFresh<V>(redis: map<Key, V>, trace: seq<Action<V>>, s: System<V>) {
    forall n | n in s.pending :: HeldSince(redis, trace, s.pending[n].at, s.pending[n].key, s.pending[n].value)
  }

  /** A call reaches the cache at most `d` after it was at Redis. */
  predicate Quick<V>(s: System<V>, a: Action<V>, d: int)
    requires Enabled(s, a)
  {
    a.FillCache? ==> s.now <= s.pending[a.n].at + d
  }

  ghost predicate QuickRun<V>(redis: map<Key, V>, trace: seq<Action<V>>, d: int)
    requires Runs(redis, trace)
    decreases |trace|
  {
    trace == [] || (QuickRun(redis, Front(trace), d) && Quick(Run(redis, Front(trace)), Last(trace), d))
  }

  /** A cached item is an old one or was just brought by a call. */
  lemma ItemComesFrom<V>(s: System<V>, a: Action<V>, k: Key)
    requires Enabled(s, a) && k in Next(s, a).l1
    ensures (k in s.l1 && Next(s, a).l1[k] == s.l1[k]) ||
            (a.FillCache? && s.pending[a.n].key == k && Next(s, a).l1[k] == Item(s.pending[a.n].value, s.now + L1_LIFETIME))
  {
  }

  lemma CacheStaysFresh<V>(redis: map<Key, V>, trace: seq<Action<V>>, s: System<V>, s': System<V>, d: int)
    requires trace != [] && CacheFresh(redis, Front(trace), s, d) && PendingFresh(redis, Front(trace), s)
    requires Enabled(s, Last(trace)) && Quick(s, Last(trace), d) && s' == Next(s, Last(trace))
    ensures CacheFresh(redis, trace, s', d)
  {
    forall k | k in s'.l1
      ensures HeldSince(redis, trace, s'.l1[k].end - L1_LIFETIME - d, k, s'.l1[k].value)
    {
      ItemStaysFresh(redis, trace, s, d, k, s'.l1[k]);
    }
  }

  lemma ItemStaysFresh<V>(redis: map<Key, V>, trace: seq<Action<V>>, s: System<V>, d: int, k: Key, item: Item<V>)
    requires trace != [] && CacheFresh(redis, Front(trace), s, d) && PendingFresh(redis, Front(trace), s)
    requires Enabled(s, Last(trace)) && Quick(s, Last(trace), d)
    requires k in Next(s, Last(trace)).l1 && item == Next(s, Last(trace)).l1[k]
    ensures HeldSince(redis, trace, item.end - L1_LIFETIME - d, k, item.value)
  {
    ItemComesFrom(s, Last(trace), k);
    var earlier := item.end - L1_LIFETIME - d;
    if k in s.l1 && item == s.l1[k] {
      HeldStays(redis, trace, earlier, earlier, k, item.value);
    } else {
      HeldStays(redis, trace, s.pending[Last(trace).n].at, earlier, k, item.value);
    }
  }

  lemma PendingStaysFresh<V>(redis: map<Key, V>, trace: seq<Action<V>>)
    requires trace != [] && Runs(redis, trace) && PendingFresh(redis, Front(trace), Run(redis, Front(trace)))
    ensures PendingFresh(redis, trace, Run(redis, trace))
  {
    var s, a := Run(redis, Front(trace)), Last(trace);
    var s' := Run(redis, trace);
    forall n | n in s'.pending
      ensures HeldSince(redis, trace, s'.pending[n].at, s'.pending[n].key, s'.pending[n].value)
    {
      var p := s'.pending[n];
      if (a.ReadRedis? || a.WriteRedis?) && a.n == n {
        HeldNow(redis, trace, a.key);
      } else {
        assert n in s.pending;
        HeldStays(redis, trace, p.at, p.at, p.key, p.value);
      }
    }
  }

  lemma {:induction false} StaysFresh<V>(redis: map<Key, V>, trace: seq<Action<V>>, d: int)
    requires Runs(redis, trace) && QuickRun(redis, trace, d)
    ensures CacheFresh(redis, trace, Run(redis, trace), d) && PendingFresh(redis, trace, Run(redis, trace))
    decreases |trace|
  {
    if trace != [] {
      StaysFresh(redis, Front(trace), d);
      CacheStaysFresh(redis, trace, Run(redis, Front(trace)), Run(redis, trace), d);
      PendingStaysFresh(redis, trace);
    }
  }

  /** Where calls take at most `d` from Redis to the cache, whatever a wrapper returns is a
      value Redis held within the last L1 lifetime plus `d`. */
  lemma ReturnedWasHeldRecently<V>(redis: map<Key, V>, trace: seq<Action<V>>, d: nat, a: Action<V>, k: Key, v: V)
    requires Runs(redis, trace) && QuickRun(redis, trace, d)
    requires var s := Run(redis, trace); Enabled(s, a) && Quick(s, a, d) && Tells(s, a) == Told(k, v)
    ensures HeldSince(redis, trace, Run(redis, trace).now - L1_LIFETIME - d, k, v)
  {
    StaysFresh(redis, trace, d);
    ToldIsFresh(redis, trace, Run(redis, trace), d, a, k, v);
  }

  lemma ToldIsFresh<V>(redis: map<Key, V>, trace: seq<Action<V>>, s: System<V>, d: nat, a: Action<V>, k: Key, v: V)
    requires CacheFresh(redis, trace, s, d) && PendingFresh(redis, trace, s)
    requires Enabled(s, a) && Quick(s, a, d) && Tells(s, a) == Told(k, v)
    ensures HeldSince(redis, trace, s.now - L1_LIFETIME - d, k, v)
  {
    var since := if a.ReadCached? then s.l1[k].end - L1_LIFETIME - d else s.pending[a.n].at;
    var i: nat :| HeldAt(redis, trace, i, since, k, v);
    assert HeldAt(redis, trace, i, s.now - L1_LIFETIME - d, k, v);
  }

  // ---------------------------------------------------------------- schedules

  /** Call n reads or writes k at Redis. */
  predicate Begins<V>(a: Action<V>, n: nat, k: Key) {
    (a.ReadRedis? || a.WriteRedis?) && a.n == n && a.key == k
  }

  ghost predicate Begun<V>(trace: seq<Action<V>>, n: nat, k: Key) {
    exists b: nat :: b < |trace| && Begins(trace[b], n, k)
  }

  predicate Fills<V>(a: Action<V>, n: nat) { a.FillCache? && a.n == n }

  ghost predicate Ended<V>(trace: seq<Action<V>>, n: nat) {
    exists e: nat :: e < |trace| && Fills(trace[e], n)
  }

  /** Step e ends a call on k, and nobody evicts k after it. */
  ghost predicate LeftBehind<V>(trace: seq<Action<V>>, e: nat, k: Key) {
    && e < |trace| && trace[e].FillCache? && Begun(trace[..e], trace[e].n, k)
    && forall c | e < c < |trace| :: !(trace[c].Evict? && trace[c].key == k)
  }

  /** The time of step e. */
  ghost function At<V>(redis: map<Key, V>, trace: seq<Action<V>>, e: nat): int
    requires Runs(redis, trace) && e <= |trace|
  {
    PrefixRuns(redis, trace, e);
    Run(redis, trace[..e]).now
  }

  /** Some read or write of k is still on its way to the cache, or got there after the last
      eviction of k and at most one L1 lifetime ago. */
  ghost predicate Lingers<V>(redis: map<Key, V>, trace: seq<Action<V>>, k: Key)
    requires Runs(redis, trace)
  {
    || (exists n: nat :: Begun(trace, n, k) && !Ended(trace, n))
    || (exists e: nat :: LeftBehind(trace, e, k) && Run(redis, trace).now <= At(redis, trace, e) + L1_LIFETIME)
  }

  lemma BegunSplits<V>(trace: seq<Action<V>>, n: nat, k: Key)
    requires trace != []
    ensures Begun(trace, n, k) <==> Begun(Front(trace), n, k) || Begins(Last(trace), n, k)
    ensures Ended(trace, n) <==> Ended(Front(trace), n) || Fills(Last(trace), n)
  {
    assert forall b | 0 <= b < |trace| - 1 :: Front(trace)[b] == trace[b];
    if Begun(Front(trace), n, k) {
      var b: nat :| b < |Front(trace)| && Begins(Front(trace)[b], n, k);
      assert Begins(trace[b], n, k);
    }
    if Ended(Front(trace), n) {
      var e: nat :| e < |Front(trace)| && Fills(Front(trace)[e], n);
      assert Fills(trace[e], n);
    }
  }

  /** The calls on their way to the cache are those begun and not ended. */
  lemma {:induction false} PendingIff<V>(redis: map<Key, V>, trace: seq<Action<V>>, n: nat, k: Key)
    requires Runs(redis, trace)
    ensures var s := Run(redis, trace);
      && (n in s.pending && s.pending[n].key == k <==> Begun(trace, n, k) && !Ended(trace, n))
      && (Begun(trace, n, k) || Ended(trace, n) || n in s.pending ==> n in s.used)
    decreases |trace|
  {
    if trace != [] {
      PendingIff(redis, Front(trace), n, k);
      BegunSplits(trace, n, k);
    }
  }

  lemma EndsOnce<V>(redis: map<Key, V>, trace: seq<Action<V>>, e: nat)
    requires Runs(redis, trace) && e < |trace| && trace[e].FillCache?
    ensures !Ended(trace[..e], trace[e].n)
  {
    PrefixRuns(redis, trace, e + 1);
    assert trace[..e + 1][..e] == trace[..e];
    var s := Run(redis, trace[..e]);
    PendingIff(redis, trace[..e], trace[e].n, s.pending[trace[e].n].key);
  }

  lemma LeftBehindEarlier<V>(trace: seq<Action<V>>, e: nat, k: Key)
    requires trace != [] && e < |trace| - 1
    ensures LeftBehind(trace, e, k) <==>
            LeftBehind(Front(trace), e, k) && !(Last(trace).Evict? && Last(trace).key == k)
  {
    assert Front(trace)[..e] == trace[..e];
    assert forall c | 0 <= c < |trace| - 1 :: Front(trace)[c] == trace[c];
  }

  /** A cached item was left behind by a call; its end counts from there. */
  lemma {:induction false} CachedWasLeft<V>(redis: map<Key, V>, trace: seq<Action<V>>, k: Key) returns (e: nat)
    requires Runs(redis, trace) && k in Run(redis, trace).l1
    ensures LeftBehind(trace, e, k) && Run(redis, trace).l1[k].end == At(redis, trace, e) + L1_LIFETIME
    decreases |trace|
  {
    var s, a := Run(redis, Front(trace)), Last(trace);
    if a.FillCache? && s.pending[a.n].key == k {
      e := |trace| - 1;
      PendingIff(redis, Front(trace), a.n, k);
    } else {
      e := CachedWasLeft(redis, Front(trace), k);
      LeftBehindEarlier(trace, e, k);
      assert Front(trace)[..e] == trace[..e];
    }
  }

  /** What a call left behind is in the cache for an L1 lifetime at least. */
  lemma {:induction false} LeftIsCached<V>(redis: map<Key, V>, trace: seq<Action<V>>, e: nat, k: Key)
    requires Runs(redis, trace) && LeftBehind(trace, e, k)
    ensures k in Run(redis, trace).l1 && Run(redis, trace).l1[k].end >= At(redis, trace, e) + L1_LIFETIME
    decreases |trace|
  {
    var s, a := Run(redis, Front(trace)), Last(trace);
    if e == |trace| - 1 {
      PendingIff(redis, Front(trace), a.n, k);
      EndsOnce(redis, trace, e);
    } else {
      LeftBehindEarlier(trace, e, k);
      LeftIsCached(redis, Front(trace), e, k);
      assert Front(trace)[..e] == trace[..e];
      PrefixRuns(redis, Front(trace), e);
    }
  }

  lemma LingersIff<V>(redis: map<Key, V>, trace: seq<Action<V>>, k: Key)
    requires Runs(redis, trace)
    ensures var s := Run(redis, trace);
      Lingers(redis, trace, k) <==> Found(s.l1, s.now, k) || exists n | n in s.pending :: s.pending[n].key == k
  {
    var s := Run(redis, trace);
    forall n: nat {
      PendingIff(redis, trace, n, k);
    }
    if Found(s.l1, s.now, k) {
      var e := CachedWasLeft(redis, trace, k);
    }
    forall e: nat | LeftBehind(trace, e, k)
      ensures k in s.l1 && s.l1[k].end >= At(redis, trace, e) + L1_LIFETIME
    {
      LeftIsCached(redis, trace, e, k);
    }
  }

  // ---------------------------------------------------------------- deletion

  ghost predicate Gone<V>(s: System<V>, k: Key) {
    k !in s.redis && !Found(s.l1, s.now, k) && forall n | n in s.pending :: s.pending[n].key != k
  }

  /** Only a write of the key brings it back. */
  predicate Restores<V>(a: Action<V>, k: Key) {
    (a.WriteRedis? && a.key == k) || (a.Outside? && k in a.redis)
  }

  lemma {:induction false} StaysGone<V>(redis: map<Key, V>, trace: seq<Action<V>>, more: seq<Action<V>>, k: Key)
    requires Runs(redis, trace) && Runs(redis, trace + more) && Gone(Run(redis, trace), k)
    requires forall i | 0 <= i < |more| :: !Restores(more[i], k)
    ensures Gone(Run(redis, trace + more), k)
    decreases |more|
  {
    if more == [] {
      assert trace + more == trace;
    } else {
      assert Front(trace + more) == trace + Front(more);
      StaysGone(redis, trace, Front(more), k);
      assert !Restores(Last(more), k) && Last(trace + more) == Last(more);
    }
  }

  /** A read returns k after steps that do not write it. */
  ghost predicate Resurfaces<V>(redis: map<Key, V>, trace: seq<Action<V>>, k: Key, more: seq<Action<V>>, a: Action<V>) {
    && Runs(redis, trace + more)
    && (forall i | 0 <= i < |more| :: !Restores(more[i], k))
    && Enabled(Run(redis, trace + more), a)
    && Tells(Run(redis, trace + more), a).Told?
    && Tells(Run(redis, trace + more), a).key == k
  }

  lemma DeletedStaysDeleted<V>(redis: map<Key, V>, trace: seq<Action<V>>, k: Key, more: seq<Action<V>>, a: Action<V>)
    requires Runs(redis, trace) && k !in Run(redis, trace).redis && !Lingers(redis, trace, k)
    ensures !Resurfaces(redis, trace, k, more, a)
  {
    LingersIff(redis, trace, k);
    if Resurfaces(redis, trace, k, more, a) {
      StaysGone(redis, trace, more, k);
    }
  }

  lemma LingeringComesBack<V>(redis: map<Key, V>, trace: seq<Action<V>>, k: Key) returns (more: seq<Action<V>>)
    requires Runs(redis, trace) && Lingers(redis, trace, k)
    ensures Resurfaces(redis, trace, k, more, ReadCached(k))
  {
    LingersIff(redis, trace, k);
    var s := Run(redis, trace);
    if Found(s.l1, s.now, k) {
      more := [];
      assert trace + more == trace;
    } else {
      var n :| n in s.pending && s.pending[n].key == k;
      more := [FillCache(n)];
      assert Front(trace + more) == trace && Last(trace + more) == FillCache(n);
    }
  }

  /** When a key is gone from Redis, some later read can return it without its being written
      again exactly if a read or write of it lingers: it has not reached the cache yet, or
      reached it after the last eviction and less than an L1 lifetime ago. */
  lemma DeletionFinalIff<V(!new)>(redis: map<Key, V>, trace: seq<Action<V>>, k: Key)
    requires Runs(redis, trace) && k !in Run(redis, trace).redis
    ensures Lingers(redis, trace, k) <==> exists more, a :: Resurfaces(redis, trace, k, more, a)
  {
    if Lingers(redis, trace, k) {
      var more := LingeringComesBack(redis, trace, k);
    } else {
      forall more, a
        ensures !Resurfaces(redis, trace, k, more, a)
      {
        DeletedStaysDeleted(redis, trace, k, more, a);
      }
    }
  }

  lemma BegunBefore<V>(trace: seq<Action<V>>, longer: seq<Action<V>>, n: nat, k: Key)
    requires trace <= longer
    ensures Begun(trace, n, k) ==> Begun(longer, n, k)
    ensures Ended(trace, n) ==> Ended(longer, n)
  {
    assert forall b | 0 <= b < |trace| :: longer[b] == trace[b];
    if Begun(trace, n, k) {
      var b: nat :| b < |trace| && Begins(trace[b], n, k);
      assert Begins(longer[b], n, k);
    }
    if Ended(trace, n) {
      var e: nat :| e < |trace| && Fills(trace[e], n);
      assert Fills(longer[e], n);
    }
  }

  /** After a Delete whose eviction and Redis deletion no read or write of the session
      overlaps, no read returns the session until it is written again. */
  lemma UnoverlappedDeleteIsFinal<V>(redis: map<Key, V>, before: seq<Action<V>>, during: seq<Action<V>>, k: Key,
                                     more: seq<Action<V>>, a: Action<V>)
    requires Runs(redis, before + [Evict(k)] + during + [Remove({k})])
    requires forall n: nat | Begun(before + [Evict(k)] + during, n, k) :: Ended(before, n)
    ensures !Resurfaces(redis, before + [Evict(k)] + during + [Remove({k})], k, more, a)
  {
    var start := before + [Evict(k)] + during;
    var trace := start + [Remove({k})];
    assert Front(trace) == start;
    forall n: nat | Begun(trace, n, k)
      ensures Ended(before, n) && Ended(trace, n)
    {
      BegunSplits(trace, n, k);
      BegunBefore(before, trace, n, k);
    }
    forall e: nat
      ensures !LeftBehind(trace, e, k)
    {
      if LeftBehind(trace, e, k) {
        assert trace[|before|] == Evict(k);
        BegunBefore(trace[..e], trace, trace[e].n, k);
        EndsOnce(redis, trace, e);
        BegunBefore(before, trace[..e], trace[e].n, k);
      }
    }
    DeletedStaysDeleted(redis, trace, k, more, a);
  }

  // ---------------------------------------------------------------- what can go wrong

  /** A read inside a Delete, between the eviction and the deletion in Redis, puts the
      session back into the cache although no call is under way when Redis deletes it. */
  lemma ReadInsideDeleteBringsBack<V>(s: System<V>, n: nat, k: Key)
    requires Enabled(s, ReadRedis(n, k))
    ensures var s1 := Next(s, Evict(k));
      var s2 := Next(Next(s1, ReadRedis(n, k)), FillCache(n));
      var s3 := Next(s2, Remove({k}));
      k !in s3.redis && Enabled(s3, ReadCached(k)) && Tells(s3, ReadCached(k)) == Told(k, s.redis[k])
  {
  }

  /** A read that straddles a whole Delete does the same. */
  lemma StraddlingReadBringsBack<V>(s: System<V>, n: nat, k: Key)
    requires Enabled(s, ReadRedis(n, k))
    ensures var s1 := Next(s, ReadRedis(n, k));
      var s2 := Next(Next(s1, Evict(k)), Remove({k}));
      var s3 := Next(s2, FillCache(n));
      k !in s3.redis && Enabled(s3, ReadCached(k)) && Tells(s3, ReadCached(k)) == Told(k, s.redis[k])
  {
  }

  /** So does a Create or Update whose Redis write a whole Delete follows. */
  lemma StraddlingWriteBringsBack<V>(s: System<V>, n: nat, k: Key, v: V)
    requires Enabled(s, WriteRedis(n, k, v))
    ensures var s1 := Next(s, WriteRedis(n, k, v));
      var s2 := Next(Next(s1, Evict(k)), Remove({k}));
      var s3 := Next(s2, FillCache(n));
      k !in s3.redis && Enabled(s3, ReadCached(k)) && Tells(s3, ReadCached(k)) == Told(k, v)
  {
  }

  /** LogoutAll of the device tokens never evicts: a cached token is served after it exactly
      until its cache item ends. */
  lemma LogoutAllLeavesCached<V>(s: System<V>, k: Key, ks: set<Key>, d: nat)
    requires Found(s.l1, s.now, k) && k in ks
    ensures var s' := Next(Next(s, Remove(ks)), Tick(d));
      && k !in s'.redis
      && (Enabled(s', ReadCached(k)) <==> s.now + d <= s.l1[k].end)
      && (Enabled(s', ReadCached(k)) ==> Tells(s', ReadCached(k)) == Told(k, s.l1[k].value))
  {
  }
}
