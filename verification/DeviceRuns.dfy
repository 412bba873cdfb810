/** Whole runs of one user's devices: logins, logouts of one device, and LogoutAlls, which
    list the devices, delete their tokens one by one and drop the set at the end. Other calls
    may come between these steps, and a LogoutAll may fail and stop after any of them. */
module DeviceRuns {
  import opened Options
  import opened DeviceCap

  /** `logouts` holds, for each LogoutAll under way, the devices whose tokens it has still to
      delete; `used` are the numbers of all LogoutAlls so far. */
  datatype Sys = Sys(now: int, user: User, logouts: map<nat, set<DeviceId>>, used: set<nat>)

  datatype Action =
    | Tick(d: nat)
    | Save(device: DeviceId, token: string, ttl: int)
    | LeaveDevice(device: DeviceId)
    | ListAll(n: nat)
    | DeleteToken(n: nat, device: DeviceId)
    | DropSet(n: nat)

  predicate Enabled(s: Sys, a: Action) {
    match a
    case ListAll(n) => n !in s.used
    case DeleteToken(n, d) => n in s.logouts && d in s.logouts[n]
    case DropSet(n) => n in s.logouts && s.logouts[n] == {}
    case _ => true
  }

  function Next(s: Sys, a: Action): Sys
    requires Enabled(s, a)
  {
    match a
    case Tick(d) => s.(now := s.now + d)
    case Save(d, token, ttl) => s.(user := SaveLogin(s.user, s.now, d, token, ttl))
    case LeaveDevice(d) => s.(user := LogoutDevice(s.user, s.now, d))
    case ListAll(n) => s.(logouts := s.logouts[n := Listed(s.user, s.now)], used := s.used + {n})
    case DeleteToken(n, d) =>
      s.(user := LogoutAllFailed(s.user, {d}), logouts := s.logouts[n := s.logouts[n] - {d}])
    case DropSet(n) => s.(user := s.user.(devices := [], setEnd := None), logouts := s.logouts - {n})
  }

  ghost predicate Runs(trace: seq<Action>)
    decreases |trace|, 0
  {
    trace == [] || (Runs(Front(trace)) && Enabled(Run(Front(trace)), Last(trace)))
  }

  function Run(trace: seq<Action>): Sys
    requires Runs(trace)
    decreases |trace|, 1
  {
    if trace == [] then Sys(0, NO_USER, map[], {}) else Next(Run(Front(trace)), Last(trace))
  }

  function Front(trace: seq<Action>): seq<Action>
    requires trace != []
  {
    trace[..|trace| - 1]
  }

  function Last(trace: seq<Action>): Action
    requires trace != []
  {
    trace[|trace| - 1]
  }

  lemma {:induction false} PrefixRuns(trace: seq<Action>, i: nat)
    requires Runs(trace) && i <= |trace|
    ensures Runs(trace[..i]) && Run(trace[..i]).now <= Run(trace).now
    ensures i < |trace| ==> Enabled(Run(trace[..i]), trace[i])
    decreases |trace|
  {
    if i == |trace| {
      assert trace[..i] == trace;
    } else {
      assert trace[..i] == Front(trace)[..i];
      PrefixRuns(Front(trace), i);
    }
  }

  /** The state before step i. */
  ghost function StateAt(trace: seq<Action>, i: nat): (s: Sys)
    requires Runs(trace) && i <= |trace|
    ensures i < |trace| ==> Enabled(s, trace[i])
  {
    PrefixRuns(trace, i);
    Run(trace[..i])
  }

  // ---------------------------------------------------------------- at most five devices

  lemma CappedKept(s: Sys, a: Action)
    requires Capped(s.user, s.now) && Enabled(s, a)
    ensures Capped(Next(s, a).user, Next(s, a).now)
  {
    match a
    case Tick(_) => KeptByTime(s.user, s.now, Next(s, a).now);
    case Save(d, token, ttl) => KeptBySave(s.user, s.now, d, token, ttl);
    case LeaveDevice(d) => KeptByLogoutDevice(s.user, s.now, d);
    case DeleteToken(_, d) => KeptByTokenDeletion(s.user, s.now, {d});
    case ListAll(_) =>
    case DropSet(_) =>
  }

  /** In every run a user has at most five devices, each listed once. */
  lemma {:induction false} AlwaysCapped(trace: seq<Action>)
    requires Runs(trace)
    ensures Capped(Run(trace).user, Run(trace).now)
  {
    if trace != [] {
      AlwaysCapped(Front(trace));
      CappedKept(Run(Front(trace)), Last(trace));
    }
  }

  // ---------------------------------------------------------------- who wrote a token

  predicate Saves(a: Action, d: DeviceId) {
    a.Save? && a.device == d && a.ttl > 0
  }

  predicate Evicts(s: Sys, a: Action, d: DeviceId) {
    && a.Save?
    && var z := Devices(s.user, s.now);
    a.device !in Names(z) && |z| >= MAX_DEVICES && z[0].device == d
  }

  /** The step writes or deletes the token of d. */
  predicate Touches(s: Sys, a: Action, d: DeviceId) {
    Saves(a, d) || Evicts(s, a, d) || ((a.LeaveDevice? || a.DeleteToken?) && a.device == d)
  }

  lemma StepToken(s: Sys, a: Action, d: DeviceId)
    requires Enabled(s, a)
    ensures var u, u' := s.user, Next(s, a).user;
      && (!Touches(s, a, d) ==> (d in u'.tokens <==> d in u.tokens) && (d in u.tokens ==> u'.tokens[d] == u.tokens[d]))
      && (Saves(a, d) ==> d in u'.tokens && u'.tokens[d] == Token(a.token, Some(s.now + a.ttl)))
      && (Touches(s, a, d) && !Saves(a, d) ==> d !in u'.tokens)
  {
    if a.Save? {
      var z := Devices(s.user, s.now);
      assert |z| > 0 ==> Names(z)[0] == z[0].device;
    }
  }

  /** Step e touches the token of d. */
  ghost predicate TouchedAt(trace: seq<Action>, e: nat, d: DeviceId)
    requires Runs(trace) && e < |trace|
  {
    Touches(StateAt(trace, e), trace[e], d)
  }

  /** Step c writes a token for d, and nothing after it touches that token. */
  ghost predicate Wrote(trace: seq<Action>, c: nat, d: DeviceId)
    requires Runs(trace)
  {
    c < |trace| && Saves(trace[c], d) && forall e: nat | c < e < |trace| :: !TouchedAt(trace, e, d)
  }

  ghost predicate UntouchedFrom(trace: seq<Action>, i: nat, d: DeviceId)
    requires Runs(trace)
  {
    forall e: nat | i <= e < |trace| :: !TouchedAt(trace, e, d)
  }

  lemma UntouchedAtLast(trace: seq<Action>, d: DeviceId)
    requires Runs(trace) && trace != []
    ensures UntouchedFrom(trace, |trace| - 1, d) <==> !TouchedAt(trace, |trace| - 1, d)
  {
  }

  lemma TouchedInPrefix(trace: seq<Action>, i: nat, e: nat, d: DeviceId)
    requires Runs(trace) && e < i <= |trace|
    ensures Runs(trace[..i]) && (TouchedAt(trace[..i], e, d) <==> TouchedAt(trace, e, d))
  {
    SameState(trace, i, e);
  }

  lemma WroteInPrefix(trace: seq<Action>, i: nat, c: nat, d: DeviceId)
    requires Runs(trace) && c < i <= |trace|
    ensures Runs(trace[..i])
    ensures Wrote(trace, c, d) <==> Wrote(trace[..i], c, d) && UntouchedFrom(trace, i, d)
  {
    PrefixRuns(trace, i);
    forall e: nat | e < i
      ensures TouchedAt(trace[..i], e, d) <==> TouchedAt(trace, e, d)
    {
      TouchedInPrefix(trace, i, e, d);
    }
  }

  lemma TouchedLast(trace: seq<Action>, d: DeviceId)
    requires Runs(trace) && trace != []
    ensures TouchedAt(trace, |trace| - 1, d) <==> Touches(Run(Front(trace)), Last(trace), d)
  {
  }

  lemma WroteEarlier(trace: seq<Action>, c: nat, d: DeviceId)
    requires Runs(trace) && trace != [] && c < |trace| - 1
    ensures Wrote(trace, c, d) <==> Wrote(Front(trace), c, d) && !TouchedAt(trace, |trace| - 1, d)
  {
    WroteInPrefix(trace, |trace| - 1, c, d);
    UntouchedAtLast(trace, d);
  }

  lemma SameState(trace: seq<Action>, i: nat, e: nat)
    requires Runs(trace) && e < i <= |trace|
    ensures Runs(trace[..i]) && trace[..i][e] == trace[e] && StateAt(trace[..i], e) == StateAt(trace, e)
  {
    PrefixRuns(trace, i);
    assert trace[..i][..e] == trace[..e];
  }

  /** Every token comes from the last step that touched it, a login. */
  lemma {:induction false} TokenWasWritten(trace: seq<Action>, d: DeviceId) returns (c: nat)
    requires Runs(trace) && d in Run(trace).user.tokens
    ensures Wrote(trace, c, d)
    ensures Run(trace).user.tokens[d].end == Some(StateAt(trace, c).now + trace[c].ttl)
    decreases |trace|
  {
    StepToken(Run(Front(trace)), Last(trace), d);
    TouchedLast(trace, d);
    if Saves(Last(trace), d) {
      c := |trace| - 1;
    } else {
      c := TokenWasWritten(Front(trace), d);
      WroteEarlier(trace, c, d);
      assert Front(trace)[..c] == trace[..c];
    }
  }

  lemma {:induction false} WrittenIsThere(trace: seq<Action>, c: nat, d: DeviceId)
    requires Runs(trace) && Wrote(trace, c, d)
    ensures d in Run(trace).user.tokens
    ensures Run(trace).user.tokens[d].end == Some(StateAt(trace, c).now + trace[c].ttl)
    decreases |trace|
  {
    StepToken(Run(Front(trace)), Last(trace), d);
    TouchedLast(trace, d);
    if c == |trace| - 1 {
      assert StateAt(trace, c) == Run(Front(trace));
    } else {
      WroteEarlier(trace, c, d);
      WrittenIsThere(Front(trace), c, d);
      SameState(trace, |trace| - 1, c);
    }
  }

  // ---------------------------------------------------------------- what a LogoutAll overlooks

  ghost predicate Deleted(trace: seq<Action>, from: nat, to: nat, n: nat, d: DeviceId) {
    exists e: nat :: from < e < to <= |trace| && trace[e] == DeleteToken(n, d)
  }

  /** The LogoutAll listed at step b cannot see the login at step c: its device was not
      listed, or its token was deleted already. */
  ghost predicate Overlooked(trace: seq<Action>, b: nat, c: nat, n: nat)
    requires Runs(trace)
  {
    && b < c < |trace| && trace[b] == ListAll(n) && trace[c].Save? && trace[c].ttl > 0
    && (trace[c].device in Listed(StateAt(trace, b).user, StateAt(trace, b).now) ==> Deleted(trace, b, c, n, trace[c].device))
  }

  /** The login at step c wrote a token that is still alive. */
  ghost predicate StillAlive(trace: seq<Action>, c: nat)
    requires Runs(trace)
  {
    && c < |trace| && trace[c].Save?
    && Wrote(trace, c, trace[c].device) && Run(trace).now < StateAt(trace, c).now + trace[c].ttl
  }

  /** Some LogoutAll dropped the set strictly between steps c and b. */
  ghost predicate DroppedBetween(trace: seq<Action>, c: nat, b: nat) {
    exists e: nat :: c < e < b <= |trace| && trace[e].DropSet?
  }

  /** The LogoutAll listed at step b does not delete the token of the login at step c: it
      cannot see the login, or the set was dropped after the login, so that its device was
      not listed. */
  ghost predicate Missed(trace: seq<Action>, b: nat, c: nat, n: nat)
    requires Runs(trace)
  {
    Overlooked(trace, b, c, n) || (b < |trace| && trace[b] == ListAll(n) && DroppedBetween(trace, c, b))
  }

  /** LogoutAll n misses a login whose token is still alive. */
  ghost predicate Misses(trace: seq<Action>, n: nat)
    requires Runs(trace)
  {
    exists b: nat, c: nat :: Missed(trace, b, c, n) && StillAlive(trace, c)
  }

  /** A LogoutAll under way was listed at some step; whatever was listed then it has deleted
      or has still to delete. */
  lemma {:induction false} ListedAt(trace: seq<Action>, n: nat) returns (b: nat)
    requires Runs(trace) && n in Run(trace).logouts
    ensures b < |trace| && trace[b] == ListAll(n)
    ensures forall d | d in Listed(StateAt(trace, b).user, StateAt(trace, b).now) ::
      d in Run(trace).logouts[n] || Deleted(trace, b, |trace|, n, d)
    decreases |trace|
  {
    var s, a := Run(Front(trace)), Last(trace);
    if a == ListAll(n) {
      b := |trace| - 1;
    } else {
      b := ListedAt(Front(trace), n);
      assert Front(trace)[..b] == trace[..b];
      forall d | d in Listed(StateAt(trace, b).user, StateAt(trace, b).now)
        ensures d in Run(trace).logouts[n] || Deleted(trace, b, |trace|, n, d)
      {
        if Deleted(Front(trace), b, |trace| - 1, n, d) {
          var e: nat :| b < e < |trace| - 1 && Front(trace)[e] == DeleteToken(n, d);
          assert trace[e] == DeleteToken(n, d);
        } else if a == DeleteToken(n, d) {
          assert trace[|trace| - 1] == DeleteToken(n, d);
        }
      }
    }
  }

  /** The live tokens are exactly those of logins still alive. */
  lemma LiveIffWritten(trace: seq<Action>, d: DeviceId)
    requires Runs(trace)
    ensures HasToken(Run(trace).user, Run(trace).now, d) <==>
            exists c: nat :: StillAlive(trace, c) && trace[c].device == d
  {
    if HasToken(Run(trace).user, Run(trace).now, d) {
      var c := TokenWasWritten(trace, d);
      assert StillAlive(trace, c);
    }
    if c: nat :| StillAlive(trace, c) && trace[c].device == d {
      WrittenIsThere(trace, c, d);
    }
  }

  /** If d has a live token, its device is listed and the set lasts as long. */
  predicate BackedIfLive(u: User, now: int, d: DeviceId) {
    d in u.tokens && HasToken(u, now, d) ==> Backed(u, now, d)
  }

  lemma AllBackedKept(s: Sys, a: Action)
    requires Capped(s.user, s.now) && AllBacked(s.user, s.now) && Enabled(s, a) && !a.DropSet?
    ensures AllBacked(Next(s, a).user, Next(s, a).now)
  {
    match a
    case Tick(_) => KeptByTime(s.user, s.now, Next(s, a).now);
    case Save(d, token, ttl) => KeptBySave(s.user, s.now, d, token, ttl);
    case LeaveDevice(d) => KeptByLogoutDevice(s.user, s.now, d);
    case DeleteToken(_, d) => KeptByTokenDeletion(s.user, s.now, {d});
    case ListAll(_) =>
  }

  /** The user with the token of d alone, or with none if the step writes that one anew. */
  function Alone(u: User, a: Action, d: DeviceId): User {
    u.(tokens := if d in u.tokens && !Saves(a, d) then map[d := u.tokens[d]] else map[])
  }

  lemma AloneBehavesAlike(s: Sys, a: Action, d: DeviceId)
    requires Enabled(s, a)
    ensures var s1 := s.(user := Alone(s.user, a, d));
      && Enabled(s1, a)
      && var u, u1 := Next(s, a).user, Next(s1, a).user;
      && u1.devices == u.devices && u1.setEnd == u.setEnd
      && (d in u1.tokens <==> d in u.tokens) && (d in u.tokens ==> u1.tokens[d] == u.tokens[d])
  {
    var s1 := s.(user := Alone(s.user, a, d));
    StepToken(s, a, d);
    StepToken(s1, a, d);
  }

  /** Whatever became of other tokens: a token is backed when a login writes it, and stays so
      until a LogoutAll drops the set. */
  lemma BackedKept(s: Sys, a: Action, d: DeviceId)
    requires Capped(s.user, s.now) && Enabled(s, a) && !a.DropSet?
    requires Saves(a, d) || BackedIfLive(s.user, s.now, d)
    ensures BackedIfLive(Next(s, a).user, Next(s, a).now, d)
  {
    var s1 := s.(user := Alone(s.user, a, d));
    AloneBehavesAlike(s, a, d);
    assert AllBacked(s1.user, s.now);
    AllBackedKept(s1, a);
  }

  /** A token written at step c is backed while alive, if the set was not dropped since. */
  lemma {:induction false} BackedUnlessDropped(trace: seq<Action>, c: nat, d: DeviceId)
    requires Runs(trace) && Wrote(trace, c, d) && !DroppedBetween(trace, c, |trace|)
    ensures BackedIfLive(Run(trace).user, Run(trace).now, d)
    decreases |trace|
  {
    var last := |trace| - 1;
    AlwaysCapped(Front(trace));
    if c < last {
      assert !Last(trace).DropSet?;
      WroteEarlier(trace, c, d);
      DroppedInPrefix(trace, c, last);
      BackedUnlessDropped(Front(trace), c, d);
    }
    BackedKept(Run(Front(trace)), Last(trace), d);
  }

  lemma DroppedInPrefix(trace: seq<Action>, c: nat, i: nat)
    requires i <= |trace|
    ensures DroppedBetween(trace[..i], c, i) <==> DroppedBetween(trace, c, i)
    ensures !DroppedBetween(trace, c, |trace|) ==> !DroppedBetween(trace, c, i)
  {
    if DroppedBetween(trace[..i], c, i) {
      var e: nat :| c < e < i && trace[..i][e].DropSet?;
      assert trace[e].DropSet?;
    }
    if DroppedBetween(trace, c, i) {
      var e: nat :| c < e < i && trace[e].DropSet?;
      assert trace[..i][e].DropSet?;
    }
  }

  /** A token written before the listing and alive now was alive at the listing; so its device
      was listed, unless the set had been dropped. */
  lemma OlderIsListed(trace: seq<Action>, b: nat, c: nat)
    requires Runs(trace) && c < b < |trace| && StillAlive(trace, c) && !DroppedBetween(trace, c, b)
    ensures trace[c].device in Listed(StateAt(trace, b).user, StateAt(trace, b).now)
  {
    var d, early := trace[c].device, trace[..b];
    PrefixRuns(trace, b);
    SameState(trace, b, c);
    WroteInPrefix(trace, b, c, d);
    WrittenIsThere(early, c, d);
    DroppedInPrefix(trace, c, b);
    BackedUnlessDropped(early, c, d);
  }

  lemma LiveTokenMissed(trace: seq<Action>, n: nat, b: nat, c: nat)
    requires Runs(trace) && b < |trace| && trace[b] == ListAll(n)
    requires forall e | e in Listed(StateAt(trace, b).user, StateAt(trace, b).now) :: Deleted(trace, b, |trace|, n, e)
    requires StillAlive(trace, c)
    ensures Missed(trace, b, c, n)
  {
    var d := trace[c].device;
    if c < b && !DroppedBetween(trace, c, b) {
      OlderIsListed(trace, b, c);
      DeletedBeforeWriting(trace, n, b, c);
    } else if c > b && d in Listed(StateAt(trace, b).user, StateAt(trace, b).now) {
      DeletedBeforeWriting(trace, n, b, c);
    }
  }

  /** A token that is alive was written after any deletion. */
  lemma DeletedBeforeWriting(trace: seq<Action>, n: nat, b: nat, c: nat)
    requires Runs(trace) && StillAlive(trace, c) && Deleted(trace, b, |trace|, n, trace[c].device)
    ensures b < c && Deleted(trace, b, c, n, trace[c].device)
  {
    var d := trace[c].device;
    var e: nat :| b < e < |trace| && trace[e] == DeleteToken(n, d);
    assert TouchedAt(trace, e, d);
    assert e < c;
  }

  /** When a LogoutAll is about to drop the set, a live token is left exactly if it misses
      one. */
  lemma TokenLeftIffMissed(trace: seq<Action>, n: nat)
    requires Runs(trace) && Enabled(Run(trace), DropSet(n))
    ensures Misses(trace, n) <==> exists d :: HasToken(Run(trace).user, Run(trace).now, d)
  {
    var s := Run(trace);
    if Misses(trace, n) {
      var b: nat, c: nat :| Missed(trace, b, c, n) && StillAlive(trace, c);
      LiveIffWritten(trace, trace[c].device);
    }
    if d :| HasToken(s.user, s.now, d) {
      LiveIffWritten(trace, d);
      var c: nat :| StillAlive(trace, c) && trace[c].device == d;
      var b := ListedAt(trace, n);
      LiveTokenMissed(trace, n, b, c);
    }
  }

  lemma DropIsSafeWithoutTokens(s: Sys, a: Action)
    requires a.DropSet? && Enabled(s, a)
    ensures var s' := Next(s, a);
      && (forall d :: HasToken(s'.user, s'.now, d) <==> HasToken(s.user, s.now, d))
      && (AllBacked(s'.user, s'.now) <==> forall d :: !HasToken(s.user, s.now, d))
  {
    var s' := Next(s, a);
    forall d
      ensures HasToken(s'.user, s'.now, d) <==> HasToken(s.user, s.now, d)
      ensures HasToken(s.user, s.now, d) ==> !Backed(s'.user, s'.now, d)
    {
    }
  }

  /** In any run whatsoever, a LogoutAll that drops the set leaves no device. It leaves no live
      token, and so no token without a device, exactly if it misses no login whose token is
      still alive: none after its listing for a device that was not listed or whose token it
      had deleted already, and none before its listing after which the set was dropped. */
  lemma LogoutAllFinishesIff(trace: seq<Action>, n: nat)
    requires Runs(trace) && Enabled(Run(trace), DropSet(n))
    ensures var s := Next(Run(trace), DropSet(n));
      && Devices(s.user, s.now) == []
      && ((forall d :: !HasToken(s.user, s.now, d)) <==> !Misses(trace, n))
      && (AllBacked(s.user, s.now) <==> !Misses(trace, n))
  {
    TokenLeftIffMissed(trace, n);
    DropIsSafeWithoutTokens(Run(trace), DropSet(n));
  }

  /** No LogoutAll drops the set when it misses a login. */
  ghost predicate Guarded(trace: seq<Action>)
    requires Runs(trace)
    decreases |trace|
  {
    trace == [] || (Guarded(Front(trace)) && (Last(trace).DropSet? ==> !Misses(Front(trace), Last(trace).n)))
  }

  /** In every run of logins, logouts of one or all devices, attempts at the latter that stop
      anywhere, and passing time, in which no LogoutAll drops the set when it misses a login:
      no live token is without a listed device, and the set does not expire before it. */
  lemma {:induction false} NoTokenWithoutDevice(trace: seq<Action>)
    requires Runs(trace) && Guarded(trace)
    ensures AllBacked(Run(trace).user, Run(trace).now)
    decreases |trace|
  {
    if trace != [] {
      var s, a := Run(Front(trace)), Last(trace);
      NoTokenWithoutDevice(Front(trace));
      AlwaysCapped(Front(trace));
      if a.DropSet? {
        LogoutAllFinishesIff(Front(trace), a.n);
        assert a == DropSet(a.n) && !Misses(Front(trace), a.n);
      } else {
        AllBackedKept(s, a);
      }
    }
  }

  lemma {:induction false} UsedSince(trace: seq<Action>, b: nat, n: nat)
    requires Runs(trace) && b < |trace| && trace[b] == ListAll(n)
    ensures n in Run(trace).used
    decreases |trace|
  {
    if b < |trace| - 1 {
      assert Front(trace)[b] == trace[b];
      UsedSince(Front(trace), b, n);
    }
  }

  lemma ListedOnce(trace: seq<Action>, b: nat, c: nat, n: nat)
    requires Runs(trace) && b < c < |trace| && trace[b] == ListAll(n)
    ensures trace[c] != ListAll(n)
  {
    PrefixRuns(trace, c);
    assert trace[..c][b] == trace[b];
    UsedSince(trace[..c], b, n);
  }

  lemma NothingOverlooked(trace: seq<Action>, at: nat, n: nat, b: nat, c: nat)
    requires Runs(trace) && at < |trace| && trace[at] == ListAll(n)
    requires forall i | at < i < |trace| :: !trace[i].Save?
    ensures !Overlooked(trace, b, c, n)
  {
    if Overlooked(trace, b, c, n) {
      if b < at {
        ListedOnce(trace, b, at, n);
      }
    }
  }

  /** A login before step `at` whose token is still alive, although the set was dropped
      between the two. */
  ghost predicate OrphanedBefore(trace: seq<Action>, at: nat)
    requires Runs(trace)
  {
    exists c: nat :: StillAlive(trace, c) && DroppedBetween(trace, c, at)
  }

  /** Whatever happened before, a LogoutAll that goes through while nobody logs in leaves no
      device; it leaves no live token exactly if no earlier LogoutAll orphaned one that is
      still alive. Attempts that failed before dropping the set do no harm. */
  lemma RetryFinishesIff(trace: seq<Action>, at: nat, n: nat)
    requires Runs(trace) && Enabled(Run(trace), DropSet(n))
    requires at < |trace| && trace[at] == ListAll(n) && forall i | at < i < |trace| :: !trace[i].Save?
    ensures var s := Next(Run(trace), DropSet(n));
      && Devices(s.user, s.now) == []
      && ((forall d :: !HasToken(s.user, s.now, d)) <==> !OrphanedBefore(trace, at))
  {
    if Misses(trace, n) {
      var b: nat, c: nat :| Missed(trace, b, c, n) && StillAlive(trace, c);
      NothingOverlooked(trace, at, n, b, c);
      if b != at {
        ListedOnce(trace, if b < at then b else at, if b < at then at else b, n);
      }
      assert DroppedBetween(trace, c, at);
    }
    if OrphanedBefore(trace, at) {
      var c: nat :| StillAlive(trace, c) && DroppedBetween(trace, c, at);
      assert Missed(trace, at, c, n);
    }
    LogoutAllFinishesIff(trace, n);
  }

  lemma Then(trace: seq<Action>, a: Action) returns (longer: seq<Action>)
    requires Runs(trace) && Enabled(Run(trace), a)
    ensures longer == trace + [a] && Runs(longer) && Run(longer) == Next(Run(trace), a)
  {
    longer := trace + [a];
    assert Front(longer) == trace;
  }

  /** A login between the listing and the dropping of the set: its device is gone and its
      token stays. */
  lemma LoginDuringLogoutAllIsOrphaned(d: DeviceId, token: string, ttl: int) returns (trace: seq<Action>)
    requires ttl > 0
    ensures trace == [ListAll(0), Save(d, token, ttl), DropSet(0)] && Runs(trace)
    ensures var s := Run(trace);
      && Devices(s.user, s.now) == [] && HasToken(s.user, s.now, d) && s.user.tokens[d].value == token
      && !AllBacked(s.user, s.now)
  {
    trace := Then([], ListAll(0));
    assert Listed(NO_USER, 0) == {};
    trace := Then(trace, Save(d, token, ttl));
    trace := Then(trace, DropSet(0));
    ghost var s := Run(trace);
    assert HasToken(s.user, s.now, d) && !Backed(s.user, s.now, d);
  }

  /** A second LogoutAll, during which nobody logs in, does not see that token either. */
  lemma RetryMissesOrphan(d: DeviceId, token: string, ttl: int) returns (trace: seq<Action>)
    requires ttl > 0
    ensures trace == [ListAll(0), Save(d, token, ttl), DropSet(0)] + [ListAll(1)] + [DropSet(1)] && Runs(trace)
    ensures var s := Run(trace); Devices(s.user, s.now) == [] && HasToken(s.user, s.now, d)
  {
    trace := LoginDuringLogoutAllIsOrphaned(d, token, ttl);
    ghost var s := Run(trace);
    assert Listed(s.user, s.now) == {};
    UsedAreListed(trace, 1);
    trace := Then(trace, ListAll(1));
    trace := Then(trace, DropSet(1));
  }

  lemma {:induction false} UsedAreListed(trace: seq<Action>, n: nat)
    requires Runs(trace)
    ensures n in Run(trace).used ==> ListAll(n) in trace
    decreases |trace|
  {
    if trace != [] {
      UsedAreListed(Front(trace), n);
      assert Last(trace) in trace && forall a | a in Front(trace) :: a in trace;
    }
  }

  /** The steps of a LogoutAll taken in one go are the whole call. */
  lemma {:induction false} UninterruptedLogoutAll(trace: seq<Action>, n: nat) returns (longer: seq<Action>)
    requires Runs(trace) && n !in Run(trace).used
    ensures Runs(longer) && Run(longer).user == LogoutAllDone(Run(trace).user, Run(trace).now)
  {
    longer := Then(trace, ListAll(n));
    longer := DeleteListed(longer, n);
    longer := Then(longer, DropSet(n));
  }

  lemma {:induction false} DeleteListed(trace: seq<Action>, n: nat) returns (longer: seq<Action>)
    requires Runs(trace) && n in Run(trace).logouts
    ensures Runs(longer) && n in Run(longer).logouts && Run(longer).logouts[n] == {}
    ensures Run(longer).user == LogoutAllFailed(Run(trace).user, Run(trace).logouts[n])
    decreases |Run(trace).logouts[n]|
  {
    var s := Run(trace);
    var todo := s.logouts[n];
    if todo == {} {
      longer := trace;
      assert s.user.tokens - todo == s.user.tokens;
    } else {
      var d :| d in todo;
      longer := Then(trace, DeleteToken(n, d));
      longer := DeleteListed(longer, n);
      assert s.user.tokens - {d} - (todo - {d}) == s.user.tokens - todo;
    }
  }

  // ---------------------------------------------------------------- who is evicted

  lemma {:induction false} AlwaysSorted(trace: seq<Action>)
    requires Runs(trace)
    ensures Sorted(Run(trace).user.devices)
  {
    if trace != [] {
      var s, a := Run(Front(trace)), Last(trace);
      AlwaysSorted(Front(trace));
      if a.Save? {
        SaveKeepsOrder(s.user, s.now, a.device, a.token, a.ttl);
      } else if a.LeaveDevice? {
        RemoveKeepsOrder(Devices(s.user, s.now), a.device);
      }
    }
  }

  /** In every run, whatever the clock: a login of a sixth device drops exactly one device,
      the one whose last login is oldest to the second, and the first of these by name, with
      its token, and lists the new one, whose token can then be read back. */
  lemma SixthDeviceEvictsAnOldest(trace: seq<Action>, d: DeviceId, token: string, ttl: int)
    requires Runs(trace) && ttl > 0
    requires var s := Run(trace); d !in Names(Devices(s.user, s.now)) && |Devices(s.user, s.now)| == MAX_DEVICES
    ensures var s := Run(trace);
      var z, w := Devices(s.user, s.now), SaveLogin(s.user, s.now, d, token, ttl);
      && Listed(w, s.now) == Listed(s.user, s.now) - {z[0].device} + {d}
      && (forall m | m in z && m != z[0] :: Before(z[0], m))
      && z[0].device !in w.tokens
      && HasToken(w, s.now, d) && w.tokens[d].value == token
      && (forall e | e != d && e != z[0].device :: e in w.tokens <==> e in s.user.tokens)
      && (forall e | e in w.tokens && e != d :: e in s.user.tokens && w.tokens[e] == s.user.tokens[e])
  {
    var s := Run(trace);
    AlwaysCapped(trace);
    AlwaysSorted(trace);
    SaveMembers(s.user, s.now, d, token, ttl);
    var z := Devices(s.user, s.now);
    NamesOf(z, z[0].device);
    assert z[0].device in Names(z);
  }
}
