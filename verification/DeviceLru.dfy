/** The device set as a least-recently-used list: with strictly increasing login times and
    no expiry it is exactly "move to the back, keep the last five". */
module DeviceLru {
  import opened Options
  import opened DeviceCap

  // ---------------------------------------------------------------- the list

  function Without(l: seq<DeviceId>, d: DeviceId): seq<DeviceId> {
    if l == [] then [] else if l[0] == d then Without(l[1..], d) else [l[0]] + Without(l[1..], d)
  }

  function LastFive(l: seq<DeviceId>): seq<DeviceId> {
    if |l| <= MAX_DEVICES then l else l[|l| - MAX_DEVICES..]
  }

  function Touch(l: seq<DeviceId>, d: DeviceId): seq<DeviceId> {
    LastFive(Without(l, d) + [d])
  }

  predicate AllDifferent(l: seq<DeviceId>) {
    forall i, j | 0 <= i < j < |l| :: l[i] != l[j]
  }

  lemma {:induction false} WithoutFilters(l: seq<DeviceId>, d: DeviceId)
    ensures forall e :: e in Without(l, d) <==> e in l && e != d
    ensures |Without(l, d)| <= |l| && (d !in l ==> Without(l, d) == l)
    ensures AllDifferent(l) ==> AllDifferent(Without(l, d)) && (d in l ==> |Without(l, d)| == |l| - 1)
  {
    if l != [] {
      WithoutFilters(l[1..], d);
      assert forall e :: e in l <==> e == l[0] || e in l[1..];
      if AllDifferent(l) {
        assert AllDifferent(l[1..]) && l[0] !in l[1..];
      }
    }
  }

  lemma {:induction false} WithoutSplits(a: seq<DeviceId>, b: seq<DeviceId>, d: DeviceId)
    ensures Without(a + b, d) == Without(a, d) + Without(b, d)
  {
    if a == [] {
      assert a + b == b;
    } else {
      assert (a + b)[1..] == a[1..] + b;
      WithoutSplits(a[1..], b, d);
    }
  }

  lemma {:induction false} RemoveIsWithout(z: seq<Member>, d: DeviceId)
    ensures Names(Remove(z, d)) == Without(Names(z), d)
  {
    if z == [] {
      assert Names(z) == [];
    } else {
      RemoveIsWithout(z[1..], d);
      assert Names(z)[1..] == Names(z[1..]);
      assert Names(Remove(z, d)) == Without(Names(z), d);
    }
  }

  lemma {:induction false} InsertNewest(z: seq<Member>, m: Member)
    requires forall n | n in z :: n.score < m.score
    ensures Insert(z, m) == z + [m]
  {
    if z != [] {
      InsertNewest(z[1..], m);
    }
  }

  // ---------------------------------------------------------------- one step

  /** The set is not about to expire and every score is in the past. */
  predicate Fresh(u: User, now: int) {
    && Devices(u, now) == u.devices && |u.devices| <= MAX_DEVICES && Distinct(u.devices)
    && forall m | m in u.devices :: m.score < now
  }

  lemma NamesDiffer(z: seq<Member>)
    requires Distinct(z)
    ensures AllDifferent(Names(z))
  {
  }

  /** What is left before the new login is added. */
  function Room(l: seq<DeviceId>, d: DeviceId): seq<DeviceId> {
    if d in l || |l| < MAX_DEVICES then l else l[1..]
  }

  lemma EvictionMakesRoom(u: User, now: int, d: DeviceId)
    requires Fresh(u, now)
    ensures Names(Evicted(u, now, d).devices) == Room(Names(u.devices), d)
    ensures forall m | m in Evicted(u, now, d).devices :: m.score < now
  {
    var z := u.devices;
    var l := Names(z);
    if !(d in l || |z| < MAX_DEVICES) {
      NamesDiffer(z);
      RemoveIsWithout(z, z[0].device);
      RemoveKeepsRest(z, z[0].device);
      WithoutFilters(l[1..], l[0]);
    }
  }

  lemma TouchUsesRoom(l: seq<DeviceId>, d: DeviceId)
    requires AllDifferent(l) && |l| <= MAX_DEVICES
    ensures Touch(l, d) == Without(Room(l, d), d) + [d]
  {
    WithoutFilters(l, d);
    if !(d in l || |l| < MAX_DEVICES) {
      WithoutFilters(l[1..], d);
    }
  }

  lemma NewestGoesLast(z: seq<Member>, now: int, d: DeviceId)
    requires forall m | m in z :: m.score < now
    ensures Names(Insert(Remove(z, d), Member(now, d))) == Without(Names(z), d) + [d]
  {
    var r := Remove(z, d);
    RemoveIsWithout(z, d);
    RemoveKeepsRest(z, d);
    InsertNewest(r, Member(now, d));
    assert Names(r + [Member(now, d)]) == Names(r) + [d];
  }

  /** A login moves its device to the back and drops the front of a list that is too long. */
  lemma LoginIsTouch(u: User, now: int, d: DeviceId, token: string, ttl: int)
    requires Fresh(u, now)
    ensures Names(SaveLogin(u, now, d, token, ttl).devices) == Touch(Names(u.devices), d)
  {
    EvictionMakesRoom(u, now, d);
    NamesDiffer(u.devices);
    TouchUsesRoom(Names(u.devices), d);
    NewestGoesLast(Evicted(u, now, d).devices, now, d);
  }

  lemma LogoutIsRemoval(u: User, now: int, d: DeviceId)
    requires Fresh(u, now)
    ensures Names(LogoutDevice(u, now, d).devices) == Without(Names(u.devices), d)
  {
    RemoveIsWithout(u.devices, d);
  }

  // ---------------------------------------------------------------- whole runs

  datatype Event = LoginEvent(at: int, device: DeviceId, token: string, ttl: int) | LogoutEvent(at: int, device: DeviceId)

  function Step(u: User, e: Event): User {
    match e
    case LoginEvent(at, d, token, ttl) => SaveLogin(u, at, d, token, ttl)
    case LogoutEvent(at, d) => LogoutDevice(u, at, d)
  }

  function StepList(l: seq<DeviceId>, e: Event): seq<DeviceId> {
    if e.LoginEvent? then Touch(l, e.device) else Without(l, e.device)
  }

  function RunSet(es: seq<Event>): User {
    if es == [] then NO_USER else Step(RunSet(es[..|es| - 1]), es[|es| - 1])
  }

  function RunList(es: seq<Event>): seq<DeviceId> {
    if es == [] then [] else StepList(RunList(es[..|es| - 1]), es[|es| - 1])
  }

  /** Times increase strictly, and the set never expires under an event. */
  predicate Proper(es: seq<Event>) {
    && (forall i, j | 0 <= i < j < |es| :: es[i].at < es[j].at)
    && (forall i | 0 <= i < |es| :: var u := RunSet(es[..i]); u.setEnd.Some? ==> es[i].at < u.setEnd.value)
  }

  lemma ProperPrefix(es: seq<Event>)
    requires Proper(es) && es != []
    ensures Proper(es[..|es| - 1])
  {
    var before := es[..|es| - 1];
    forall i | 0 <= i < |before|
      ensures var u := RunSet(before[..i]); u.setEnd.Some? ==> before[i].at < u.setEnd.value
    {
      assert before[..i] == es[..i];
    }
  }

  lemma StepKeepsPast(u: User, e: Event)
    requires Fresh(u, e.at)
    ensures |Step(u, e).devices| <= MAX_DEVICES && Distinct(Step(u, e).devices)
    ensures forall m | m in Step(u, e).devices :: m.score <= e.at
  {
    match e
    case LoginEvent(at, d, token, ttl) =>
      var v := Evicted(u, at, d);
      if !(d in Names(u.devices) || |u.devices| < MAX_DEVICES) {
        RemoveKeepsRest(u.devices, u.devices[0].device);
        NamesOf(u.devices, u.devices[0].device);
        NamesOf(v.devices, d);
        NamesOf(u.devices, d);
      }
      RemoveKeepsRest(v.devices, d);
      NamesOf(Remove(v.devices, d), d);
      InsertAddsOne(Remove(v.devices, d), Member(at, d));
    case LogoutEvent(at, d) =>
      RemoveKeepsRest(u.devices, d);
  }

  lemma {:induction false} RunRefines(es: seq<Event>)
    requires Proper(es)
    ensures Names(RunSet(es).devices) == RunList(es)
    ensures |RunSet(es).devices| <= MAX_DEVICES && Distinct(RunSet(es).devices)
    ensures forall m | m in RunSet(es).devices :: es != [] && m.score <= es[|es| - 1].at
  {
    if es == [] {
      assert Names([]) == [];
    } else {
      var before := es[..|es| - 1];
      var e := es[|es| - 1];
      ProperPrefix(es);
      RunRefines(before);
      assert es[..|before|] == before;
      assert Fresh(RunSet(before), e.at);
      StepKeepsPast(RunSet(before), e);
      match e
      case LoginEvent(at, d, token, ttl) => LoginIsTouch(RunSet(before), at, d, token, ttl);
      case LogoutEvent(at, d) => LogoutIsRemoval(RunSet(before), at, d);
    }
  }

  /** The sorted set with its eviction script refines the list. */
  lemma DeviceSetIsLru(es: seq<Event>)
    requires Proper(es)
    ensures Names(RunSet(es).devices) == RunList(es)
  {
    RunRefines(es);
  }

  // ---------------------------------------------------------------- logins only

  predicate OnlyLogins(es: seq<Event>) {
    forall i | 0 <= i < |es| :: es[i].LoginEvent?
  }

  /** Every device of the history once, in order of its last login. */
  function ByLastUse(es: seq<Event>): seq<DeviceId> {
    if es == [] then [] else Without(ByLastUse(es[..|es| - 1]), es[|es| - 1].device) + [es[|es| - 1].device]
  }

  lemma {:induction false} ByLastUseOrdered(es: seq<Event>)
    ensures AllDifferent(ByLastUse(es))
    ensures forall d :: d in ByLastUse(es) <==> exists i | 0 <= i < |es| :: es[i].device == d
    ensures forall i, j | 0 <= i < j < |ByLastUse(es)| :: LastUse(es, ByLastUse(es)[i]) < LastUse(es, ByLastUse(es)[j])
  {
    if es != [] {
      var before := es[..|es| - 1];
      var d := es[|es| - 1].device;
      var l := ByLastUse(before);
      var kept := Without(l, d);
      ByLastUseOrdered(before);
      WithoutFilters(l, d);
      WithoutKeepsOrder(before, l, d);
      forall e
        ensures e in ByLastUse(es) <==> exists i | 0 <= i < |es| :: es[i].device == e
      {
        if i :| 0 <= i < |es| && es[i].device == e {
          if i < |before| {
            assert before[i].device == e;
          }
        }
        if e == d {
          assert es[|es| - 1].device == e;
        } else if i :| 0 <= i < |before| && before[i].device == e {
          assert es[i].device == e;
        }
      }
      forall i | 0 <= i < |kept|
        ensures LastUse(es, kept[i]) == LastUse(before, kept[i]) < |es| - 1
      {
        assert kept[i] in kept;
        LastUseBounds(before, kept[i]);
      }
    }
  }

  /** The index of the last event of the device, or -1. */
  function LastUse(es: seq<Event>, d: DeviceId): int {
    if es == [] then -1 else if es[|es| - 1].device == d then |es| - 1 else LastUse(es[..|es| - 1], d)
  }

  lemma {:induction false} LastUseBounds(es: seq<Event>, d: DeviceId)
    ensures -1 <= LastUse(es, d) < |es|
    ensures LastUse(es, d) >= 0 ==> es[LastUse(es, d)].device == d
    ensures forall i | LastUse(es, d) < i < |es| :: es[i].device != d
  {
    if es != [] {
      LastUseBounds(es[..|es| - 1], d);
    }
  }

  lemma {:induction false} WithoutKeepsOrder(es: seq<Event>, l: seq<DeviceId>, d: DeviceId)
    requires forall i, j | 0 <= i < j < |l| :: LastUse(es, l[i]) < LastUse(es, l[j])
    ensures var r := Without(l, d); forall i, j | 0 <= i < j < |r| :: LastUse(es, r[i]) < LastUse(es, r[j])
  {
    if l != [] {
      WithoutKeepsOrder(es, l[1..], d);
      WithoutFilters(l[1..], d);
      var r := Without(l[1..], d);
      forall j | 0 <= j < |r|
        ensures LastUse(es, l[0]) < LastUse(es, r[j])
      {
        assert r[j] in l[1..];
        var k :| 0 <= k < |l[1..]| && l[1..][k] == r[j];
        assert l[k + 1] == r[j];
      }
    }
  }

  lemma LastFiveOfLongEnd(a: seq<DeviceId>, b: seq<DeviceId>)
    requires |b| >= MAX_DEVICES
    ensures LastFive(a + b) == LastFive(b)
  {
  }

  /** Cutting to five first and moving then is the same as moving first. */
  lemma TouchOfLastFive(l: seq<DeviceId>, d: DeviceId)
    requires AllDifferent(l)
    ensures Touch(LastFive(l), d) == Touch(l, d)
  {
    if |l| > MAX_DEVICES {
      var a, b := l[..|l| - MAX_DEVICES], l[|l| - MAX_DEVICES..];
      assert l == a + b;
      assert AllDifferent(b);
      WithoutSplits(a, b, d);
      WithoutFilters(b, d);
      assert Without(l, d) + [d] == Without(a, d) + (Without(b, d) + [d]);
      LastFiveOfLongEnd(Without(a, d), Without(b, d) + [d]);
    }
  }

  lemma {:induction false} LoginsKeepLastFive(es: seq<Event>)
    requires OnlyLogins(es)
    ensures RunList(es) == LastFive(ByLastUse(es))
  {
    if es != [] {
      var before := es[..|es| - 1];
      LoginsKeepLastFive(before);
      ByLastUseOrdered(before);
      TouchOfLastFive(ByLastUse(before), es[|es| - 1].device);
    }
  }

  ghost function Elements(l: seq<DeviceId>): set<DeviceId> { set e | e in l }

  /** Devices of the history that logged in after the last login of d. */
  ghost function MoreRecent(es: seq<Event>, d: DeviceId): set<DeviceId> {
    set e | e in ByLastUse(es) && LastUse(es, e) > LastUse(es, d)
  }

  lemma {:induction false} SuffixSize(l: seq<DeviceId>, p: nat)
    requires AllDifferent(l) && p <= |l|
    ensures |Elements(l[p..])| == |l| - p
    decreases |l| - p
  {
    if p < |l| {
      SuffixSize(l, p + 1);
      NotAgain(l, p);
      ElementsOfCons(l[p], l[p + 1..]);
      assert l[p..] == [l[p]] + l[p + 1..];
    }
  }

  lemma NotAgain(l: seq<DeviceId>, p: nat)
    requires AllDifferent(l) && p < |l|
    ensures l[p] !in l[p + 1..]
  {
  }

  lemma ElementsOfCons(d: DeviceId, l: seq<DeviceId>)
    requires d !in l
    ensures |Elements([d] + l)| == 1 + |Elements(l)|
  {
    assert Elements([d] + l) == {d} + Elements(l);
  }

  lemma MoreRecentAreAfter(es: seq<Event>, p: nat)
    requires p < |ByLastUse(es)|
    ensures MoreRecent(es, ByLastUse(es)[p]) == Elements(ByLastUse(es)[p + 1..])
  {
    var l := ByLastUse(es);
    ByLastUseOrdered(es);
    forall e
      ensures e in MoreRecent(es, l[p]) <==> e in l[p + 1..]
    {
      if e in l {
        var q :| 0 <= q < |l| && l[q] == e;
        assert q > p ==> l[p + 1..][q - p - 1] == e;
      }
    }
  }

  /** After any run of logins the set holds a device exactly when it has logged in and fewer
      than five others have logged in since. */
  lemma SetHoldsFiveMostRecent(es: seq<Event>, d: DeviceId)
    requires Proper(es) && OnlyLogins(es)
    ensures d in Names(RunSet(es).devices) <==>
            (exists i | 0 <= i < |es| :: es[i].device == d) && |MoreRecent(es, d)| < MAX_DEVICES
  {
    DeviceSetIsLru(es);
    LoginsKeepLastFive(es);
    ByLastUseOrdered(es);
    if d in ByLastUse(es) {
      FiveMostRecent(es, d);
    }
  }

  lemma FiveMostRecent(es: seq<Event>, d: DeviceId)
    requires d in ByLastUse(es)
    ensures d in LastFive(ByLastUse(es)) <==> |MoreRecent(es, d)| < MAX_DEVICES
  {
    var l := ByLastUse(es);
    var p :| 0 <= p < |l| && l[p] == d;
    MoreRecentAreAfter(es, p);
    ByLastUseOrdered(es);
    SuffixSize(l, p + 1);
    LastFiveHas(l, p);
  }

  lemma LastFiveHas(l: seq<DeviceId>, p: nat)
    requires AllDifferent(l) && p < |l|
    ensures l[p] in LastFive(l) <==> |l| - p - 1 < MAX_DEVICES
  {
    if |l| > MAX_DEVICES {
      var b := l[|l| - MAX_DEVICES..];
      if p >= |l| - MAX_DEVICES {
        assert b[p - (|l| - MAX_DEVICES)] == l[p];
      } else {
        assert forall i | 0 <= i < |b| :: b[i] == l[|l| - MAX_DEVICES + i];
      }
    }
  }
}
