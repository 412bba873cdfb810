/** The cache of Hydra's signing keys: the current generation and the one before it. Times
    are nanoseconds; a generation never fetched has no time. */
module Jwks {
  import opened Options

  type Kid = string
  type PublicKey = string
  type KeySet = map<Kid, PublicKey>

  const TTL: int := 3_600_000_000_000

  /** An entry of the endpoint's answer; `parsed` is its RSA key, if it has a good one. */
  datatype RawKey = RawKey(kty: string, use: string, kid: Kid, parsed: Option<PublicKey>)

  predicate Usable(k: RawKey) { k.kty == "RSA" && k.use == "sig" && k.parsed.Some? }

  /** The usable keys by kid; a later entry replaces an earlier one. */
  function UsableKeys(raw: seq<RawKey>): KeySet {
    if raw == [] then map[] else
      var before := UsableKeys(raw[..|raw| - 1]);
      var k := raw[|raw| - 1];
      if Usable(k) then before[k.kid := k.parsed.value] else before
  }

  /** Entry i is the last usable one with this kid. */
  predicate GivesKey(raw: seq<RawKey>, i: nat, kid: Kid) {
    && i < |raw| && Usable(raw[i]) && raw[i].kid == kid
    && forall j | i < j < |raw| :: !(Usable(raw[j]) && raw[j].kid == kid)
  }

  /** A kid is known exactly if some entry for RSA signatures with a key that parses has it;
      the last such entry gives the key. */
  lemma {:induction false} UsableKeysIff(raw: seq<RawKey>, kid: Kid)
    ensures kid in UsableKeys(raw) <==>
      exists i | 0 <= i < |raw| :: raw[i].kid == kid && raw[i].kty == "RSA" && raw[i].use == "sig" && raw[i].parsed.Some?
    ensures forall i: nat | GivesKey(raw, i, kid) :: kid in UsableKeys(raw) && UsableKeys(raw)[kid] == raw[i].parsed.value
  {
    if raw != [] {
      var n := |raw| - 1;
      UsableKeysIff(raw[..n], kid);
      assert forall i | 0 <= i < n :: raw[..n][i] == raw[i];
      forall i: nat | GivesKey(raw, i, kid)
        ensures kid in UsableKeys(raw) && UsableKeys(raw)[kid] == raw[i].parsed.value
      {
        assert i < n ==> GivesKey(raw[..n], i, kid);
      }
      if i :| 0 <= i < n && raw[..n][i].kid == kid && Usable(raw[..n][i]) {
        assert raw[i].kid == kid && Usable(raw[i]);
      }
    }
  }

  datatype Cache = Cache(keys: KeySet, fetchedAt: Option<int>, previous: KeySet, previousAt: Option<int>)

  const EMPTY := Cache(map[], None, map[], None)

  predicate IsStale(c: Cache, now: int) { c.fetchedAt.None? || now - c.fetchedAt.value > TTL }

  function GetKey(c: Cache, grace: int, now: int, kid: Kid): Option<PublicKey> {
    if kid in c.keys then Some(c.keys[kid])
    else if c.previousAt.Some? && now - c.previousAt.value < grace && kid in c.previous then Some(c.previous[kid])
    else None
  }

  /** A fetch that failed, or brought no usable key, changes nothing. */
  function Refreshed(c: Cache, now: int, fetch: Option<seq<RawKey>>): Cache {
    if fetch.None? || UsableKeys(fetch.value) == map[] then c
    else Cache(UsableKeys(fetch.value), Some(now), c.keys, c.fetchedAt)
  }

  predicate FetchOk(fetch: Option<seq<RawKey>>) { fetch.Some? && UsableKeys(fetch.value) != map[] }

  predicate NeedsFetch(c: Cache, grace: int, now: int, kid: Kid) {
    IsStale(c, now) || GetKey(c, grace, now, kid).None?
  }

  function AfterResolve(c: Cache, grace: int, now: int, kid: Kid, fetch: Option<seq<RawKey>>): Cache {
    if NeedsFetch(c, grace, now, kid) then Refreshed(c, now, fetch) else c
  }

  function Resolved(c: Cache, grace: int, now: int, kid: Kid, fetch: Option<seq<RawKey>>): Option<PublicKey> {
    if !NeedsFetch(c, grace, now, kid) then GetKey(c, grace, now, kid)
    else if !FetchOk(fetch) then None
    else GetKey(Refreshed(c, now, fetch), grace, now, kid)
  }

  class JwksCache {
    var keys: KeySet
    var fetchedAt: Option<int>
    var previousKeys: KeySet
    var previousFetchedAt: Option<int>
    const gracePeriod: int

    constructor (gracePeriod: int)
      ensures this.gracePeriod == gracePeriod && Abs() == EMPTY
    {
      this.gracePeriod := gracePeriod;
      keys, fetchedAt, previousKeys, previousFetchedAt := map[], None, map[], None;
    }

    ghost function Abs(): Cache
      reads this
    {
      Cache(keys, fetchedAt, previousKeys, previousFetchedAt)
    }

    method RefreshJwks(now: int, fetch: Option<seq<RawKey>>) returns (ok: bool)
      modifies this
      ensures ok == FetchOk(fetch)
      ensures Abs() == Refreshed(old(Abs()), now, fetch)
    {
      if fetch.None? {
        return false;
      }
      var raw := fetch.value;
      var fresh_: KeySet := map[];
      for i := 0 to |raw|
        invariant fresh_ == UsableKeys(raw[..i])
      {
        var k := raw[i];
        assert raw[..i + 1][..i] == raw[..i];
        if k.kty != "RSA" || k.use != "sig" || k.parsed.None? {
          continue;
        }
        fresh_ := fresh_[k.kid := k.parsed.value];
      }
      assert raw[..|raw|] == raw;
      if fresh_ == map[] {
        return false;
      }
      previousKeys, previousFetchedAt := keys, fetchedAt;
      keys, fetchedAt := fresh_, Some(now);
      return true;
    }

    method ResolveKey(now: int, kid: Kid, fetch: Option<seq<RawKey>>) returns (key: Option<PublicKey>)
      modifies this
      ensures key == Resolved(old(Abs()), gracePeriod, now, kid, fetch)
      ensures Abs() == AfterResolve(old(Abs()), gracePeriod, now, kid, fetch)
    {
      if !IsStale(Cache(keys, fetchedAt, previousKeys, previousFetchedAt), now) {
        key := GetKey(Cache(keys, fetchedAt, previousKeys, previousFetchedAt), gracePeriod, now, kid);
        if key.Some? {
          return;
        }
      }
      var ok := RefreshJwks(now, fetch);
      if !ok {
        return None;
      }
      key := GetKey(Cache(keys, fetchedAt, previousKeys, previousFetchedAt), gracePeriod, now, kid);
    }
  }

  // ---------------------------------------------------------------- where keys come from

  /** A resolution of a kid, or a refresh forced by an operator. */
  datatype Event = Resolve(now: int, kid: Kid, fetch: Option<seq<RawKey>>) | Force(now: int, fetch: Option<seq<RawKey>>)

  datatype Generation = Generation(at: int, keys: KeySet)

  function Step(c: Cache, grace: int, e: Event): Cache {
    match e
    case Resolve(now, kid, fetch) => AfterResolve(c, grace, now, kid, fetch)
    case Force(now, fetch) => Refreshed(c, now, fetch)
  }

  function Run(grace: int, es: seq<Event>): Cache {
    if es == [] then EMPTY else Step(Run(grace, es[..|es| - 1]), grace, es[|es| - 1])
  }

  /** The successful fetches of a run, in order. */
  function Fetches(grace: int, es: seq<Event>): seq<Generation> {
    if es == [] then [] else
      var c := Run(grace, es[..|es| - 1]);
      var e := es[|es| - 1];
      var before := Fetches(grace, es[..|es| - 1]);
      if FetchOk(e.fetch) && (e.Force? || NeedsFetch(c, grace, e.now, e.kid))
      then before + [Generation(e.now, UsableKeys(e.fetch.value))] else before
  }

  /** The cache is the last two successful fetches. */
  lemma {:induction false} CacheIsLastTwo(grace: int, es: seq<Event>)
    ensures var gs, c := Fetches(grace, es), Run(grace, es);
      && (gs == [] ==> c.keys == map[] && c.fetchedAt == None)
      && (gs != [] ==> c.keys == gs[|gs| - 1].keys && c.fetchedAt == Some(gs[|gs| - 1].at))
      && (|gs| < 2 ==> c.previous == map[] && c.previousAt == None)
      && (|gs| >= 2 ==> c.previous == gs[|gs| - 2].keys && c.previousAt == Some(gs[|gs| - 2].at))
  {
    if es != [] {
      CacheIsLastTwo(grace, es[..|es| - 1]);
    }
  }

  /** A resolved key is the one its kid had in one of the two most recent successful
      fetches, counting the one this call may have made; the latest is at most TTL old, the
      one before it less than the grace period. */
  lemma ResolvedFromLastTwo(grace: int, es: seq<Event>, now: int, kid: Kid, fetch: Option<seq<RawKey>>)
    requires Resolved(Run(grace, es), grace, now, kid, fetch).Some?
    ensures var key := Resolved(Run(grace, es), grace, now, kid, fetch).value;
      var gs := Fetches(grace, es + [Resolve(now, kid, fetch)]);
      || (|gs| >= 1 && kid in gs[|gs| - 1].keys && gs[|gs| - 1].keys[kid] == key && now - gs[|gs| - 1].at <= TTL)
      || (|gs| >= 2 && kid in gs[|gs| - 2].keys && gs[|gs| - 2].keys[kid] == key && now - gs[|gs| - 2].at < grace)
  {
    var longer := es + [Resolve(now, kid, fetch)];
    assert longer[..|longer| - 1] == es;
    CacheIsLastTwo(grace, es);
    CacheIsLastTwo(grace, longer);
  }

  /** Each lookup in the cache by itself, whatever calls came before it or between it and the
      fetch of its own call: it finds exactly the kids of the last generation, and those of
      the one before while that is younger than the grace period. */
  lemma LookupFindsIff(grace: int, es: seq<Event>, now: int, kid: Kid)
    ensures var gs, found := Fetches(grace, es), GetKey(Run(grace, es), grace, now, kid);
      var n := |gs|;
      if n >= 1 && kid in gs[n - 1].keys then found == Some(gs[n - 1].keys[kid])
      else if n >= 2 && kid in gs[n - 2].keys && now - gs[n - 2].at < grace then found == Some(gs[n - 2].keys[kid])
      else found.None?
  {
    CacheIsLastTwo(grace, es);
  }

  /** The last fetch is at most TTL old, and it has the kid, or the one before it does and is
      younger than the grace period. */
  predicate Serves(gs: seq<Generation>, grace: int, now: int, kid: Kid) {
    var n := |gs|;
    && n >= 1 && now - gs[n - 1].at <= TTL
    && (kid in gs[n - 1].keys || (n >= 2 && kid in gs[n - 2].keys && now - gs[n - 2].at < grace))
  }

  /** In every run, when a kid is accepted: the cache serves it, or this call's own fetch
      succeeds and brings it, or succeeds and moves the last generation, which has it and is
      younger than the grace period, to second place. */
  lemma KidAcceptedIff(grace: int, es: seq<Event>, now: int, kid: Kid, fetch: Option<seq<RawKey>>)
    ensures var gs := Fetches(grace, es);
      Resolved(Run(grace, es), grace, now, kid, fetch).Some? <==>
      || Serves(gs, grace, now, kid)
      || (FetchOk(fetch) &&
          (kid in UsableKeys(fetch.value) ||
           (gs != [] && kid in gs[|gs| - 1].keys && now - gs[|gs| - 1].at < grace)))
  {
    CacheIsLastTwo(grace, es);
  }

  /** So a kid that the endpoint no longer publishes is accepted, after the refresh that
      retired it, exactly while that refresh is at most TTL old and the kid's own fetch is
      younger than the grace period. */
  lemma RetiredKidAcceptedIff(grace: int, es: seq<Event>, now: int, kid: Kid, fetch: Option<seq<RawKey>>)
    requires var gs := Fetches(grace, es); |gs| >= 2 && kid in gs[|gs| - 2].keys && kid !in gs[|gs| - 1].keys
    requires FetchOk(fetch) ==> kid !in UsableKeys(fetch.value)
    ensures var gs := Fetches(grace, es);
      Resolved(Run(grace, es), grace, now, kid, fetch).Some? <==>
      now - gs[|gs| - 1].at <= TTL && now - gs[|gs| - 2].at < grace
  {
    KidAcceptedIff(grace, es, now, kid, fetch);
  }

  /** A second refresh without the kid ends its grace at once, however long that is. */
  lemma SecondRefreshEndsGrace(grace: int, es: seq<Event>, now: int, kid: Kid, fetch: Option<seq<RawKey>>)
    requires var gs := Fetches(grace, es); |gs| >= 2 && kid !in gs[|gs| - 2].keys && kid !in gs[|gs| - 1].keys
    requires FetchOk(fetch) ==> kid !in UsableKeys(fetch.value)
    ensures Resolved(Run(grace, es), grace, now, kid, fetch).None?
  {
    KidAcceptedIff(grace, es, now, kid, fetch);
  }

  /** With a grace period no longer than TTL, a refresh made because the cache was stale
      leaves the kids it retires no grace at all. */
  lemma StaleRefreshLeavesNoGrace(grace: int, es: seq<Event>, t: int, refresh: seq<RawKey>, now: int, kid: Kid, fetch: Option<seq<RawKey>>)
    requires IsStale(Run(grace, es), t) && grace <= TTL && t <= now
    requires UsableKeys(refresh) != map[] && kid !in UsableKeys(refresh)
    requires FetchOk(fetch) ==> kid !in UsableKeys(fetch.value)
    ensures Resolved(Run(grace, es + [Force(t, Some(refresh))]), grace, now, kid, fetch).None?
  {
    var longer := es + [Force(t, Some(refresh))];
    assert longer[..|longer| - 1] == es;
    CacheIsLastTwo(grace, es);
    KidAcceptedIff(grace, longer, now, kid, fetch);
    assert Fetches(grace, longer) == Fetches(grace, es) + [Generation(t, UsableKeys(refresh))];
  }
}
