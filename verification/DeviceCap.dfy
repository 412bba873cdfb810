/** Devices and refresh tokens of a user in Redis: a sorted set of devices scored by login
    time, capped at five, and one token key per device. Times are seconds.

    The functions give the effect of each script; class `RedisRepository` is the code. */
module DeviceCap {
  import opened Options

  type DeviceId = string
  type KratosId = string

  const MAX_DEVICES: nat := 5
  const CHUNK: nat := 50
  const REFRESH_TTL_SHORT: int := 7 * 24 * 3600
  const REFRESH_TTL_LONG: int := 30 * 24 * 3600

  datatype Member = Member(score: int, device: DeviceId)
  /** A token without an end never expires. */
  datatype Token = Token(value: string, end: Option<int>)

  /** `devices` is the sorted set in its order; `setEnd` is when its key expires, if ever. */
  datatype User = User(devices: seq<Member>, setEnd: Option<int>, tokens: map<DeviceId, Token>)

  const NO_USER := User([], None, map[])

  // ---------------------------------------------------------------- the sorted set

  predicate LexLess(a: string, b: string) {
    b != [] && (a == [] || a[0] < b[0] || (a[0] == b[0] && LexLess(a[1..], b[1..])))
  }

  predicate Before(m: Member, n: Member) {
    m.score < n.score || (m.score == n.score && LexLess(m.device, n.device))
  }

  function Names(z: seq<Member>): seq<DeviceId> {
    seq(|z|, i requires 0 <= i < |z| => z[i].device)
  }

  function Remove(z: seq<Member>, d: DeviceId): seq<Member> {
    if z == [] then [] else if z[0].device == d then Remove(z[1..], d) else [z[0]] + Remove(z[1..], d)
  }

  function Insert(z: seq<Member>, m: Member): seq<Member> {
    if z == [] then [m] else if Before(m, z[0]) then [m] + z else [z[0]] + Insert(z[1..], m)
  }

  // ---------------------------------------------------------------- the scripts

  /** The set as Redis sees it: an expired key is no key. */
  function Devices(u: User, now: int): seq<Member> {
    if u.setEnd.Some? && now >= u.setEnd.value then [] else u.devices
  }

  predicate HasToken(u: User, now: int, d: DeviceId) {
    d in u.tokens && (u.tokens[d].end.None? || now < u.tokens[d].end.value)
  }

  /** A set that becomes empty loses its key and its expiry with it. */
  function WithDevices(u: User, now: int, z: seq<Member>): User {
    u.(devices := z, setEnd := if z == [] || Devices(u, now) == [] then None else u.setEnd)
  }

  /** Make room for a device that is not listed yet. */
  function Evicted(u: User, now: int, d: DeviceId): User {
    var z := Devices(u, now);
    if d in Names(z) || |z| < MAX_DEVICES then WithDevices(u, now, z)
    else WithDevices(u, now, Remove(z, z[0].device)).(tokens := u.tokens - {z[0].device})
  }

  function Added(u: User, now: int, d: DeviceId): User {
    var v := Evicted(u, now, d);
    v.(devices := Insert(Remove(v.devices, d), Member(now, d)))
  }

  /** With a lifetime that is not positive the script stops at the SET, after the ZADD. */
  function SaveLogin(u: User, now: int, d: DeviceId, token: string, ttl: int): User {
    var v := Added(u, now, d);
    if ttl <= 0 then v else
      v.(tokens := v.tokens[d := Token(token, Some(now + ttl))],
         setEnd := if v.setEnd.None? || now + ttl > v.setEnd.value then Some(now + ttl) else v.setEnd)
  }

  function LogoutDevice(u: User, now: int, d: DeviceId): User {
    WithDevices(u, now, Remove(Devices(u, now), d)).(tokens := u.tokens - {d})
  }

  function Listed(u: User, now: int): set<DeviceId> {
    set d | d in Names(Devices(u, now))
  }

  /** A LogoutAll that fails has deleted some tokens and kept the set. */
  function LogoutAllFailed(u: User, deleted: set<DeviceId>): User {
    u.(tokens := u.tokens - deleted)
  }

  function LogoutAllDone(u: User, now: int): User {
    User([], None, u.tokens - Listed(u, now))
  }

  /** With a lifetime that is not positive the token gets no expiry. */
  function Rotate(u: User, now: int, d: DeviceId, token: string, ttl: int): User {
    u.(tokens := u.tokens[d := Token(token, if ttl > 0 then Some(now + ttl) else None)])
  }

  // ---------------------------------------------------------------- the code

  class RedisRepository {
    var users: map<KratosId, User>

    constructor ()
      ensures users == map[]
    {
      users := map[];
    }

    function Of(k: KratosId): User
      reads this
    {
      if k in users then users[k] else NO_USER
    }

    method SaveLoginScript(now: int, k: KratosId, d: DeviceId, token: string, ttl: int) returns (ok: bool)
      modifies this
      ensures ok == (ttl > 0)
      ensures users == old(users)[k := SaveLogin(old(Of(k)), now, d, token, ttl)]
    {
      var u := Of(k);
      var z := Devices(u, now);
      var tokens := u.tokens;
      var end := if z == [] then None else u.setEnd;
      if d !in Names(z) && |z| >= MAX_DEVICES {
        var oldest := z[0].device;
        z := Remove(z, oldest);
        if z == [] {
          end := None;
        }
        tokens := tokens - {oldest};
      }
      z := Insert(Remove(z, d), Member(now, d));
      if ttl <= 0 {
        users := users[k := User(z, end, tokens)];
        return false;
      }
      tokens := tokens[d := Token(token, Some(now + ttl))];
      if end.None? || now + ttl > end.value {
        end := Some(now + ttl);
      }
      users := users[k := User(z, end, tokens)];
      return true;
    }

    method GetDeviceRefreshToken(now: int, k: KratosId, d: DeviceId) returns (r: Option<string>)
      ensures r.Some? <==> HasToken(Of(k), now, d)
      ensures r.Some? ==> r.value == Of(k).tokens[d].value
    {
      var u := Of(k);
      if d in u.tokens && (u.tokens[d].end.None? || now < u.tokens[d].end.value) {
        return Some(u.tokens[d].value);
      }
      return None;
    }

    method RotateRefreshToken(now: int, k: KratosId, d: DeviceId, token: string, ttl: int)
      modifies this
      ensures users == old(users)[k := Rotate(old(Of(k)), now, d, token, ttl)]
    {
      var u := Of(k);
      var end := None;
      if ttl > 0 {
        end := Some(now + ttl);
      }
      users := users[k := User(u.devices, u.setEnd, u.tokens[d := Token(token, end)])];
    }

    method LogoutDeviceScript(now: int, k: KratosId, d: DeviceId)
      modifies this
      ensures users == old(users)[k := LogoutDevice(old(Of(k)), now, d)]
    {
      var u := Of(k);
      var z := Remove(Devices(u, now), d);
      var end := if z == [] || Devices(u, now) == [] then None else u.setEnd;
      users := users[k := User(z, end, u.tokens - {d})];
    }

    /** Token deletions go out in chunks; the pipeline that starts at device `failAt` or
        covers it fails after deleting the tokens before `failAt`. The set is deleted last. */
    method LogoutAll(now: int, k: KratosId, failAt: Option<nat>) returns (ok: bool)
      modifies this
      ensures ok == (failAt.None? || failAt.value >= |Devices(old(Of(k)), now)|)
      ensures ok ==> users == old(users)[k := LogoutAllDone(old(Of(k)), now)]
      ensures !ok ==> users == old(users)[k := LogoutAllFailed(old(Of(k)), set d | d in Names(Devices(old(Of(k)), now))[..failAt.value])]
    {
      var u := Of(k);
      var ids := Names(Devices(u, now));
      var tokens := u.tokens;
      var i := 0;
      while i < |ids|
        invariant i <= |ids|
        invariant failAt.Some? ==> i <= failAt.value
        invariant tokens == u.tokens - set d | d in ids[..i]
        invariant users == old(users)
      {
        var end := i + CHUNK;
        if end > |ids| {
          end := |ids|;
        }
        for j := i to end
          invariant failAt.Some? ==> j <= failAt.value
          invariant tokens == u.tokens - set d | d in ids[..j]
          invariant users == old(users)
        {
          if failAt == Some(j) {
            users := users[k := User(u.devices, u.setEnd, tokens)];
            return false;
          }
          tokens := tokens - {ids[j]};
          assert ids[..j + 1] == ids[..j] + [ids[j]];
        }
        i := end;
      }
      assert ids[..|ids|] == ids;
      users := users[k := User([], None, tokens)];
      return true;
    }
  }

  // ---------------------------------------------------------------- cap and tokens

  /** At most five devices, each once. */
  predicate Capped(u: User, now: int) {
    |Devices(u, now)| <= MAX_DEVICES && Distinct(u.devices)
  }

  /** A live token belongs to a listed device, and the set does not expire before it. */
  predicate AllBacked(u: User, now: int) {
    forall d | d in u.tokens && HasToken(u, now, d) :: Backed(u, now, d)
  }

  predicate Backed(u: User, now: int, d: DeviceId)
    requires d in u.tokens
  {
    && d in Names(Devices(u, now)) && u.setEnd.Some?
    && u.tokens[d].end.Some? && u.tokens[d].end.value <= u.setEnd.value
  }

  predicate Distinct(z: seq<Member>) {
    forall i, j | 0 <= i < j < |z| :: z[i].device != z[j].device
  }

  lemma {:induction false} RemoveKeepsRest(z: seq<Member>, d: DeviceId)
    ensures |Remove(z, d)| <= |z| && (d in Names(z) ==> |Remove(z, d)| < |z|)
    ensures forall m :: m in Remove(z, d) <==> m in z && m.device != d
    ensures Distinct(z) ==> Distinct(Remove(z, d))
  {
    if z != [] {
      RemoveKeepsRest(z[1..], d);
      assert d in Names(z) <==> z[0].device == d || d in Names(z[1..]) by { NamesOf(z, d); NamesOf(z[1..], d); }
      assert forall m :: m in z <==> m == z[0] || m in z[1..];
      if Distinct(z) {
        assert Distinct(z[1..]);
        forall m | m in Remove(z[1..], d)
          ensures m.device != z[0].device
        {
          var i :| 0 <= i < |z[1..]| && z[1..][i] == m;
          assert z[i + 1] == m;
        }
      }
    }
  }

  lemma NamesOf(z: seq<Member>, d: DeviceId)
    ensures d in Names(z) <==> exists m | m in z :: m.device == d
  {
    if d in Names(z) {
      var i :| 0 <= i < |Names(z)| && Names(z)[i] == d;
      assert z[i] in z;
    }
    forall m | m in z
      ensures m.device in Names(z)
    {
      var i :| 0 <= i < |z| && z[i] == m;
      assert Names(z)[i] == m.device;
    }
  }

  lemma {:induction false} InsertAddsOne(z: seq<Member>, m: Member)
    ensures |Insert(z, m)| == |z| + 1
    ensures forall n :: n in Insert(z, m) <==> n == m || n in z
    ensures Distinct(z) && m.device !in Names(z) ==> Distinct(Insert(z, m))
  {
    if z == [] {
    } else if Before(m, z[0]) {
      if m.device !in Names(z) {
        forall n | n in z
          ensures n.device != m.device
        {
          NamesOf(z, m.device);
        }
      }
    } else {
      InsertAddsOne(z[1..], m);
      assert forall n :: n in z <==> n == z[0] || n in z[1..];
      if Distinct(z) && m.device !in Names(z) {
        NamesOf(z, m.device);
        NamesOf(z[1..], m.device);
        forall n | n in Insert(z[1..], m)
          ensures n.device != z[0].device
        {
          if n != m {
            var i :| 0 <= i < |z[1..]| && z[1..][i] == n;
            assert z[i + 1] == n;
          }
        }
      }
    }
  }

  lemma KeptByEviction(u: User, now: int, d: DeviceId)
    requires Capped(u, now)
    ensures var v := Evicted(u, now, d);
      && Capped(v, now) && Devices(v, now) == v.devices
      && (d !in Names(v.devices) ==> |v.devices| < MAX_DEVICES)
      && (v.setEnd.Some? ==> now < v.setEnd.value)
      && (AllBacked(u, now) ==> AllBacked(v, now))
  {
    var z := Devices(u, now);
    var v := Evicted(u, now, d);
    if !(d in Names(z) || |z| < MAX_DEVICES) {
      var oldest := z[0].device;
      RemoveKeepsRest(z, oldest);
      NamesOf(z, oldest);
      NamesOf(v.devices, d);
      NamesOf(z, d);
    }
    if AllBacked(u, now) {
      forall e | e in v.tokens && HasToken(v, now, e)
        ensures Backed(v, now, e)
      {
        assert Backed(u, now, e);
        NamesOf(z, e);
        NamesOf(v.devices, e);
      }
    }
  }

  lemma KeptByAdding(u: User, now: int, d: DeviceId)
    requires Capped(u, now)
    ensures var w := Added(u, now, d);
      && Capped(w, now) && Devices(w, now) == w.devices && d in Names(w.devices)
      && (w.setEnd.Some? ==> now < w.setEnd.value)
      && (AllBacked(u, now) ==> AllBacked(w, now))
  {
    var v := Evicted(u, now, d);
    var w := Added(u, now, d);
    KeptByEviction(u, now, d);
    RemoveKeepsRest(v.devices, d);
    NamesOf(Remove(v.devices, d), d);
    InsertAddsOne(Remove(v.devices, d), Member(now, d));
    NamesOf(w.devices, d);
    if AllBacked(u, now) {
      forall e | e in w.tokens && HasToken(w, now, e)
        ensures Backed(w, now, e)
      {
        assert Backed(v, now, e);
        NamesOf(v.devices, e);
        NamesOf(w.devices, e);
      }
    }
  }

  lemma KeptBySave(u: User, now: int, d: DeviceId, token: string, ttl: int)
    requires Capped(u, now)
    ensures Capped(SaveLogin(u, now, d, token, ttl), now)
    ensures AllBacked(u, now) ==> AllBacked(SaveLogin(u, now, d, token, ttl), now)
  {
    var v := Added(u, now, d);
    var w := SaveLogin(u, now, d, token, ttl);
    KeptByAdding(u, now, d);
    assert Devices(w, now) == v.devices;
    if AllBacked(u, now) {
      forall e | e in w.tokens && HasToken(w, now, e)
        ensures Backed(w, now, e)
      {
        if e != d || ttl <= 0 {
          assert Backed(v, now, e);
        }
      }
    }
  }

  lemma KeptByLogoutDevice(u: User, now: int, d: DeviceId)
    requires Capped(u, now)
    ensures Capped(LogoutDevice(u, now, d), now)
    ensures AllBacked(u, now) ==> AllBacked(LogoutDevice(u, now, d), now)
  {
    var z := Devices(u, now);
    var v := LogoutDevice(u, now, d);
    RemoveKeepsRest(z, d);
    if AllBacked(u, now) {
      forall e | e in v.tokens && HasToken(v, now, e)
        ensures Backed(v, now, e)
      {
        assert Backed(u, now, e);
        NamesOf(z, e);
        NamesOf(v.devices, e);
      }
    }
  }

  /** Tokens end no later than the set, so the set never expires under a live token. */
  lemma KeptByTime(u: User, now: int, later: int)
    requires now <= later
    ensures Capped(u, now) ==> Capped(u, later)
    ensures AllBacked(u, now) ==> AllBacked(u, later)
  {
    if AllBacked(u, now) {
      forall d | d in u.tokens && HasToken(u, later, d)
        ensures Backed(u, later, d)
      {
        assert HasToken(u, now, d) && Backed(u, now, d);
      }
    }
  }

  lemma KeptByTokenDeletion(u: User, now: int, deleted: set<DeviceId>)
    ensures Capped(u, now) ==> Capped(LogoutAllFailed(u, deleted), now)
    ensures AllBacked(u, now) ==> AllBacked(LogoutAllFailed(u, deleted), now)
  {
    if AllBacked(u, now) {
      forall d | d in u.tokens && HasToken(u, now, d)
        ensures Backed(u, now, d)
      {
      }
    }
  }

  /** After a rotation the device's token is the new one, until its end if it has one; the set
      and the tokens of other devices are as before. */
  lemma RotationIsRead(u: User, now: int, d: DeviceId, token: string, ttl: int, later: int)
    requires now <= later
    ensures var v := Rotate(u, now, d, token, ttl);
      && d in v.tokens && v.tokens[d].value == token && (HasToken(v, later, d) <==> ttl <= 0 || later < now + ttl)
      && v.tokens - {d} == u.tokens - {d} && v.devices == u.devices && v.setEnd == u.setEnd
  {
  }

  /** After a login the device's token is the new one, until its end; the set lasts until then,
      or longer if it did. Other tokens are as before, but for that of an evicted device. */
  lemma LoginIsRead(u: User, now: int, d: DeviceId, token: string, ttl: int, later: int)
    requires now <= later && ttl > 0 && Capped(u, now)
    ensures var v, z := SaveLogin(u, now, d, token, ttl), Devices(u, now);
      && d in v.tokens && v.tokens[d].value == token && (HasToken(v, later, d) <==> later < now + ttl)
      && (d in Names(z) || |z| < MAX_DEVICES ==> v.tokens - {d} == u.tokens - {d})
      && v.setEnd == Some(if z != [] && u.setEnd.Some? && u.setEnd.value > now + ttl then u.setEnd.value else now + ttl)
  {
    KeptByAdding(u, now, d);
    var z := Devices(u, now);
    if !(d in Names(z) || |z| < MAX_DEVICES) {
      RemoveKeepsRest(z, z[0].device);
      NamesOf(z, z[1].device);
      assert z[1] in Remove(z, z[0].device);
    }
  }

  /** Rotation does not look at the device set. It leaves every live token backed exactly when
      the device is listed, the new token ends, and the set lasts as long. */
  lemma RotationSafeIff(u: User, now: int, d: DeviceId, token: string, ttl: int)
    requires AllBacked(u, now)
    ensures AllBacked(Rotate(u, now, d, token, ttl), now) <==>
            d in Names(Devices(u, now)) && u.setEnd.Some? && ttl > 0 && now + ttl <= u.setEnd.value
  {
    var v := Rotate(u, now, d, token, ttl);
    assert HasToken(v, now, d);
    forall e | e in v.tokens && HasToken(v, now, e) && e != d
      ensures Backed(v, now, e)
    {
      assert Backed(u, now, e);
    }
  }

  /** Every refresh rotates with the long lifetime, whatever lifetime the login had. So the
      first refresh after a short login leaves a token that outlives the set, unless another
      device keeps the set longer. */
  lemma RefreshAfterShortLoginOutlivesSet(u: User, at: int, d: DeviceId, token: string, now: int, renewed: string)
    requires at <= now && (u.setEnd.Some? ==> u.setEnd.value <= at + REFRESH_TTL_SHORT)
    ensures var v := SaveLogin(u, at, d, token, REFRESH_TTL_SHORT);
      !AllBacked(Rotate(v, now, d, renewed, REFRESH_TTL_LONG), now)
  {
    var v := SaveLogin(u, at, d, token, REFRESH_TTL_SHORT);
    var w := Rotate(v, now, d, renewed, REFRESH_TTL_LONG);
    assert HasToken(w, now, d) && !Backed(w, now, d);
  }

  // ---------------------------------------------------------------- who is evicted

  /** Dictionary order, at the first position where the strings differ. */
  lemma {:induction false} LexLessIff(a: string, b: string)
    ensures LexLess(a, b) <==> exists p: nat :: DiffersAt(a, b, p)
  {
    if b != [] && a != [] && a[0] == b[0] {
      LexLessIff(a[1..], b[1..]);
      if LexLess(a, b) {
        var p: nat :| DiffersAt(a[1..], b[1..], p);
        assert a[..p + 1] == [a[0]] + a[1..][..p] && b[..p + 1] == [b[0]] + b[1..][..p];
        assert DiffersAt(a, b, p + 1);
      }
      if p: nat :| DiffersAt(a, b, p) {
        assert p > 0;
        assert a[1..][..p - 1] == a[..p][1..] && b[1..][..p - 1] == b[..p][1..];
        assert DiffersAt(a[1..], b[1..], p - 1);
      }
    } else if b != [] && (a == [] || a[0] < b[0]) {
      assert DiffersAt(a, b, 0);
    }
  }

  predicate DiffersAt(a: string, b: string, p: nat) {
    p <= |a| && p < |b| && a[..p] == b[..p] && (p == |a| || a[p] < b[p])
  }

  lemma {:induction false} LexLessTotal(a: string, b: string)
    requires a != b
    ensures LexLess(a, b) || LexLess(b, a)
  {
    if a != [] && b != [] && a[0] == b[0] {
      assert a == [a[0]] + a[1..] && b == [b[0]] + b[1..];
      LexLessTotal(a[1..], b[1..]);
    }
  }

  lemma {:induction false} LexLessTransitive(a: string, b: string, c: string)
    requires LexLess(a, b) && LexLess(b, c)
    ensures LexLess(a, c)
  {
    if a != [] && a[0] == b[0] && b[0] == c[0] {
      LexLessTransitive(a[1..], b[1..], c[1..]);
    }
  }

  lemma BeforeTransitive(x: Member, y: Member, z: Member)
    requires Before(x, y) && Before(y, z)
    ensures Before(x, z)
  {
    if x.score == y.score && y.score == z.score {
      LexLessTransitive(x.device, y.device, z.device);
    }
  }

  /** The set is in order: by login time, and by name within a second. */
  predicate Sorted(z: seq<Member>) {
    forall i, j | 0 <= i < j < |z| :: Before(z[i], z[j])
  }

  lemma {:induction false} InsertKeepsOrder(z: seq<Member>, m: Member)
    requires Sorted(z) && m.device !in Names(z)
    ensures Sorted(Insert(z, m))
  {
    if z == [] {
    } else if Before(m, z[0]) {
      forall j | 1 <= j < |z|
        ensures Before(m, z[j])
      {
        BeforeTransitive(m, z[0], z[j]);
      }
    } else {
      assert Names(z)[0] == z[0].device && Names(z)[1..] == Names(z[1..]);
      LexLessTotal(m.device, z[0].device);
      InsertKeepsOrder(z[1..], m);
      InsertAddsOne(z[1..], m);
      var r := Insert(z[1..], m);
      forall j | 0 <= j < |r|
        ensures Before(z[0], r[j])
      {
        assert r[j] in r;
      }
    }
  }

  lemma {:induction false} RemoveKeepsOrder(z: seq<Member>, d: DeviceId)
    requires Sorted(z)
    ensures Sorted(Remove(z, d))
  {
    if z != [] {
      assert Sorted(z[1..]);
      RemoveKeepsOrder(z[1..], d);
      RemoveKeepsRest(z[1..], d);
      var r := Remove(z[1..], d);
      forall j | 0 <= j < |r|
        ensures Before(z[0], r[j])
      {
        assert r[j] in r;
      }
    }
  }

  lemma SaveKeepsOrder(u: User, now: int, d: DeviceId, token: string, ttl: int)
    requires Sorted(u.devices)
    ensures Sorted(SaveLogin(u, now, d, token, ttl).devices)
  {
    var z := Devices(u, now);
    if !(d in Names(z) || |z| < MAX_DEVICES) {
      RemoveKeepsOrder(z, z[0].device);
    }
    var v := Evicted(u, now, d);
    RemoveKeepsOrder(v.devices, d);
    RemoveKeepsRest(v.devices, d);
    NamesOf(Remove(v.devices, d), d);
    InsertKeepsOrder(Remove(v.devices, d), Member(now, d));
  }

  lemma EvictedMembers(u: User, now: int, d: DeviceId, e: DeviceId)
    ensures var z := Devices(u, now);
      e in Names(Evicted(u, now, d).devices) <==>
      e in Names(z) && (d in Names(z) || |z| < MAX_DEVICES || e != z[0].device)
  {
    var z := Devices(u, now);
    if !(d in Names(z) || |z| < MAX_DEVICES) {
      RemoveKeepsRest(z, z[0].device);
      NamesOf(z, e);
      NamesOf(Remove(z, z[0].device), e);
    }
  }

  lemma AddedMembers(z: seq<Member>, m: Member, e: DeviceId)
    ensures e in Names(Insert(Remove(z, m.device), m)) <==> e == m.device || e in Names(z)
  {
    var r := Remove(z, m.device);
    RemoveKeepsRest(z, m.device);
    InsertAddsOne(r, m);
    NamesOf(z, e);
    NamesOf(Insert(r, m), e);
    assert m in Insert(r, m);
  }

  lemma SaveMembers(u: User, now: int, d: DeviceId, token: string, ttl: int)
    requires Capped(u, now)
    ensures var z, w := Devices(u, now), SaveLogin(u, now, d, token, ttl);
      && Devices(w, now) == w.devices
      && Listed(w, now) ==
         (if d in Names(z) || |z| < MAX_DEVICES then Listed(u, now) else Listed(u, now) - {z[0].device}) + {d}
  {
    var w := SaveLogin(u, now, d, token, ttl);
    KeptByAdding(u, now, d);
    forall e
      ensures e in Names(w.devices) <==> e == d || e in Names(Evicted(u, now, d).devices)
    {
      AddedMembers(Evicted(u, now, d).devices, Member(now, d), e);
    }
    forall e {
      EvictedMembers(u, now, d, e);
    }
  }

  /** Logging one device out removes that device and its token and nothing else. */
  lemma LogoutDeviceRemovesOne(u: User, now: int, d: DeviceId)
    ensures var v := LogoutDevice(u, now, d);
      && Listed(v, now) == Listed(u, now) - {d}
      && v.tokens == u.tokens - {d}
  {
    var z := Devices(u, now);
    var v := LogoutDevice(u, now, d);
    RemoveKeepsRest(z, d);
    forall e
      ensures e in Names(v.devices) <==> e in Names(z) && e != d
    {
      NamesOf(z, e);
      NamesOf(v.devices, e);
    }
  }
}
