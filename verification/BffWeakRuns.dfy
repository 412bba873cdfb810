/** Runs outside the guards of BffIndex and BffLock, and what goes wrong in them. */
module BffWeakRuns {
  import opened Options
  import opened Sessions
  import opened BffProtocol
  import opened BffLock

  lemma Then(trace: seq<Action>, a: Action, buffer: int) returns (longer: seq<Action>)
    requires Runs(trace, buffer) && Enabled(Run(trace, buffer), a, buffer)
    ensures Runs(longer, buffer) && Run(longer, buffer) == Next(Run(trace, buffer), a, buffer)
  {
    longer := trace + [a];
    assert longer[..|longer| - 1] == trace;
  }

  /** A login with a shorter life, then time until that login ends: the index is gone while
      the longer session lives on. */
  lemma IndexDies(a: Session, b: Session, buffer: int) returns (trace: seq<Action>)
    requires a.sessionId != b.sessionId && a.kratosId == b.kratosId
    requires 0 < b.expiresAt < a.expiresAt
    ensures Runs(trace, buffer)
    ensures var s := Run(trace, buffer);
      && Get(s.redis, s.now, a.sessionId) == Some(a)
      && Members(s.redis, s.now, a.kratosId) == {}
      && s.threads == map[] && s.redis.blacklist == map[] && s.revoked == {}
  {
    trace := Then([], Login(a), buffer);
    trace := Then(trace, Login(b), buffer);
    trace := Then(trace, Tick(b.expiresAt), buffer);
  }

  /** For any two sessions of one user that end at different times, with the shorter one
      created last: a LogoutAll asked for with the longer session, when the shorter one has
      ended, runs without any error and yet that very session is granted afterwards. */
  lemma LongerSessionSurvivesLogoutAll(a: Session, b: Session, buffer: int) returns (trace: seq<Action>)
    requires a.sessionId != b.sessionId && a.kratosId == b.kratosId
    requires 0 < b.expiresAt < a.expiresAt
    ensures Runs(trace, buffer)
    ensures var s := Run(trace, buffer);
      && s.threads.Keys == {0, 1}
      && s.threads[0] == Ended(true)
      && s.threads[1] == Resolve(a.sessionId, false, true, Granted(a))
  {
    trace := IndexDies(a, b, buffer);
    trace := SurvivesTheBatch(trace, a, buffer);
    trace := Then(trace, StartResolve(1, a.sessionId, true, false), buffer);
    trace := Then(trace, ReadSession(1, false), buffer);
    trace := Then(trace, ReturnToken(1), buffer);
  }

  lemma SurvivesTheBatch(before: seq<Action>, a: Session, buffer: int) returns (trace: seq<Action>)
    requires Runs(before, buffer)
    requires var s := Run(before, buffer);
      && Get(s.redis, s.now, a.sessionId) == Some(a)
      && Members(s.redis, s.now, a.kratosId) == {}
      && s.threads == map[] && s.redis.blacklist == map[] && s.revoked == {}
    ensures Runs(trace, buffer)
    ensures var s := Run(trace, buffer);
      && s.redis == Run(before, buffer).redis && s.now == Run(before, buffer).now
      && s.threads == map[0 := Ended(true)]
      && s.revoked == {}
  {
    trace := Then(before, StartLogoutAll(0, a.sessionId, false), buffer);
    trace := Then(trace, ListUser(0, false), buffer);
    assert Run(trace, buffer).threads == map[0 := LogoutAll(a, Listing({}, []))];
    trace := EmptyBatch(trace, a, buffer);
  }

  lemma EmptyBatch(before: seq<Action>, a: Session, buffer: int) returns (trace: seq<Action>)
    requires Runs(before, buffer)
    requires var s := Run(before, buffer);
      && Members(s.redis, s.now, a.kratosId) == {}
      && s.threads == map[0 := LogoutAll(a, Listing({}, []))]
    ensures Runs(trace, buffer)
    ensures var s := Run(trace, buffer);
      && s.redis == Run(before, buffer).redis && s.now == Run(before, buffer).now
      && s.threads == map[0 := Ended(true)]
      && s.revoked == Run(before, buffer).revoked
  {
    trace := Then(before, MarkAll(0, Done), buffer);
    EmptyMark(Run(before, buffer), a);
    trace := NothingToPurge(trace, a, buffer);
  }

  lemma NothingToPurge(before: seq<Action>, a: Session, buffer: int) returns (trace: seq<Action>)
    requires Runs(before, buffer)
    requires var s := Run(before, buffer);
      Members(s.redis, s.now, a.kratosId) == {} && s.threads == map[0 := LogoutAll(a, MarkedAll)]
    ensures Runs(trace, buffer) && Run(trace, buffer) == Run(before, buffer).(threads := map[0 := Ended(true)])
  {
    trace := Then(before, RevokeSubject(0, false), buffer);
    trace := Then(trace, PurgeList(0, false), buffer);
  }

  /** With nothing listed, the batch write writes nothing. */
  lemma EmptyMark(s: Sys, a: Session)
    requires s.threads == map[0 := LogoutAll(a, Listing({}, []))]
    ensures AfterMarkAll(s, 0, Done) ==
            s.(threads := map[0 := LogoutAll(a, MarkedAll)])
  {
    assert Ids([]) == {};
    assert s.redis.blacklist + map[] == s.redis.blacklist;
  }

  lemma TakesLock(before: seq<Action>, t: ThreadId, sess: Session, buffer: int) returns (trace: seq<Action>)
    requires Runs(before, buffer)
    requires var s := Run(before, buffer);
      && t !in s.threads && !Blacklisted(s.redis, s.now, sess.sessionId) && sess.sessionId !in s.revoked
      && Get(s.redis, s.now, sess.sessionId) == Some(sess) && sess.accessExp - s.now < buffer
      && !Locked(s.redis, s.now, sess.sessionId)
    ensures Runs(trace, buffer)
    ensures var s := Run(before, buffer);
      Run(trace, buffer) == s.(redis := Lock(s.redis, s.now, sess.sessionId),
                               threads := s.threads[t := Resolve(sess.sessionId, false, false, Holding(sess, s.now))])
  {
    trace := Then(before, StartResolve(t, sess.sessionId, false, false), buffer);
    trace := Then(trace, ReadSession(t, false), buffer);
    trace := Then(trace, AskLock(t, Done), buffer);
  }

  /** A winner that keeps the lock for its whole lifetime, and a second caller that then takes
      it. */
  lemma SecondEnters(sess: Session, buffer: int) returns (trace: seq<Action>)
    requires sess.expiresAt > LOCK_TTL && sess.accessExp < buffer
    ensures Runs(trace, buffer)
    ensures var s := Run(trace, buffer);
      && s.now == LOCK_TTL && s.redis.blacklist == map[] && s.revoked == {}
      && Get(s.redis, s.now, sess.sessionId) == Some(sess)
      && s.threads == map[0 := Resolve(sess.sessionId, false, false, Holding(sess, 0)),
                          1 := Resolve(sess.sessionId, false, false, Holding(sess, LOCK_TTL))]
  {
    trace := Then([], Login(sess), buffer);
    trace := TakesLock(trace, 0, sess, buffer);
    trace := Then(trace, Tick(LOCK_TTL), buffer);
    trace := TakesLock(trace, 1, sess, buffer);
  }

  /** Both are between acquire and release for the same session. */
  lemma OverdueWinnerLosesExclusion(sess: Session, buffer: int) returns (trace: seq<Action>)
    requires sess.expiresAt > LOCK_TTL && sess.accessExp < buffer
    ensures Runs(trace, buffer)
    ensures !Exclusive(Run(trace, buffer), sess.sessionId) && !Timely(Run(trace, buffer), sess.sessionId)
  {
    trace := SecondEnters(sess, buffer);
    ghost var s := Run(trace, buffer);
    assert Inside(s, 0, sess.sessionId) && Inside(s, 1, sess.sessionId) && !InTime(s, 0);
  }

  lemma Releases(before: seq<Action>, t: ThreadId, sess: Session, since: int, buffer: int) returns (trace: seq<Action>)
    requires Runs(before, buffer)
    requires var s := Run(before, buffer);
      t in s.threads && s.threads[t] == Resolve(sess.sessionId, false, false, Holding(sess, since))
    ensures Runs(trace, buffer)
    ensures var s := Run(before, buffer);
      Run(trace, buffer) == s.(redis := Unlock(s.redis, sess.sessionId),
                               threads := s.threads[t := Resolve(sess.sessionId, false, false, Granted(sess))])
  {
    trace := Then(before, HydraRefresh(t, None), buffer);
    trace := Then(trace, ReleaseLock(t, Done), buffer);
  }

  /** When the overdue winner releases, it deletes the lock of the second caller, and a third
      one enters although the second is well in time. */
  lemma OverdueReleaseLetsInThird(sess: Session, buffer: int) returns (trace: seq<Action>)
    requires sess.expiresAt > LOCK_TTL && sess.accessExp < buffer
    ensures Runs(trace, buffer)
    ensures var s := Run(trace, buffer);
      && Inside(s, 1, sess.sessionId) && Inside(s, 2, sess.sessionId) && InTime(s, 1) && InTime(s, 2)
      && !Inside(s, 0, sess.sessionId)
  {
    trace := SecondEnters(sess, buffer);
    trace := Releases(trace, 0, sess, 0, buffer);
    trace := TakesLock(trace, 2, sess, buffer);
  }

  // ---------------------------------------------------------------- a refresh after two LogoutAlls

  /** Session b can be neither blacklisted nor revoked so far, and the user's index is `ids`. */
  predicate Unmarked(s: Sys, b: Session, ids: set<SessionId>) {
    && s.now == 0 && s.redis.locks.Keys <= {b.sessionId}
    && b.sessionId !in s.redis.blacklist && b.sessionId !in s.revoked
    && Members(s.redis, 0, b.kratosId) == ids
  }

  lemma FirstMarks(a: Session, b: Session, buffer: int) returns (trace: seq<Action>)
    requires a.sessionId != b.sessionId && a.kratosId == b.kratosId && 0 < a.expiresAt
    ensures Runs(trace, buffer)
    ensures var s := Run(trace, buffer);
      && Unmarked(s, b, {a.sessionId}) && s.born.Keys == {a.sessionId} && s.redis.locks == map[]
      && s.threads == map[0 := LogoutAll(a, MarkedAll)]
  {
    trace := Then([], Login(a), buffer);
    assert Members(Run(trace, buffer).redis, 0, a.kratosId) == {a.sessionId};
    trace := StartsAndLists(trace, 0, a, {a.sessionId}, buffer);
    trace := FindsAndMarks(trace, a, b, buffer);
  }

  lemma StartsAndLists(before: seq<Action>, t: ThreadId, v: Session, ids: set<SessionId>, buffer: int) returns (trace: seq<Action>)
    requires Runs(before, buffer)
    requires var s := Run(before, buffer);
      && t !in s.threads && Get(s.redis, s.now, v.sessionId) == Some(v) && Members(s.redis, s.now, v.kratosId) == ids
    ensures Runs(trace, buffer)
    ensures var s := Run(before, buffer);
      Run(trace, buffer) == s.(threads := s.threads[t := LogoutAll(v, Listing(ids, []))])
  {
    trace := Then(before, StartLogoutAll(t, v.sessionId, false), buffer);
    trace := Then(trace, ListUser(t, false), buffer);
  }

  lemma Finds(before: seq<Action>, a: Session, buffer: int) returns (trace: seq<Action>)
    requires Runs(before, buffer)
    requires var s := Run(before, buffer);
      && s.threads == map[0 := LogoutAll(a, Listing({a.sessionId}, []))]
      && Get(s.redis, s.now, a.sessionId) == Some(a)
    ensures Runs(trace, buffer)
    ensures Run(trace, buffer) == Run(before, buffer).(threads := map[0 := LogoutAll(a, Listing({}, [a]))])
  {
    trace := Then(before, Collect(0, a.sessionId, false), buffer);
    assert {a.sessionId} - {a.sessionId} == {} && [] + [a] == [a];
  }

  lemma FindsAndMarks(before: seq<Action>, a: Session, b: Session, buffer: int) returns (trace: seq<Action>)
    requires Runs(before, buffer) && a.sessionId != b.sessionId
    requires var s := Run(before, buffer);
      && Unmarked(s, b, {a.sessionId}) && s.born.Keys == {a.sessionId} && s.redis.locks == map[]
      && s.threads == map[0 := LogoutAll(a, Listing({a.sessionId}, []))]
      && Get(s.redis, s.now, a.sessionId) == Some(a)
    ensures Runs(trace, buffer)
    ensures var s := Run(trace, buffer);
      && Unmarked(s, b, {a.sessionId}) && s.born.Keys == {a.sessionId} && s.redis.locks == map[]
      && s.threads == map[0 := LogoutAll(a, MarkedAll)]
  {
    trace := Finds(before, a, buffer);
    trace := Then(trace, MarkAll(0, Done), buffer);
  }

  lemma RefreshBegins(before: seq<Action>, a: Session, b: Session, tokens: Tokens, buffer: int) returns (trace: seq<Action>)
    requires Runs(before, buffer) && a.sessionId != b.sessionId && 0 < b.expiresAt && b.accessExp < buffer
    requires var s := Run(before, buffer);
      && Unmarked(s, b, {a.sessionId}) && s.born.Keys == {a.sessionId} && s.redis.locks == map[]
      && s.threads == map[0 := LogoutAll(a, MarkedAll)]
    ensures Runs(trace, buffer)
    ensures var s := Run(trace, buffer);
      && Unmarked(s, b, {a.sessionId, b.sessionId}) && Get(s.redis, s.now, b.sessionId) == Some(b)
      && s.threads == map[0 := LogoutAll(a, MarkedAll),
                          1 := Resolve(b.sessionId, false, false, Refreshed(b, WithTokens(b, tokens), 0))]
  {
    trace := Then(before, Login(b), buffer);
    ghost var s := Run(trace, buffer);
    assert Unmarked(s, b, {a.sessionId, b.sessionId}) && Get(s.redis, s.now, b.sessionId) == Some(b);
    trace := Renews(trace, b, tokens, buffer);
  }

  lemma Renews(before: seq<Action>, b: Session, tokens: Tokens, buffer: int) returns (trace: seq<Action>)
    requires Runs(before, buffer) && b.accessExp < buffer
    requires var s := Run(before, buffer);
      && s.now == 0 && 1 !in s.threads && b.sessionId !in s.redis.blacklist && b.sessionId !in s.revoked
      && Get(s.redis, s.now, b.sessionId) == Some(b) && s.redis.locks == map[]
    ensures Runs(trace, buffer)
    ensures var s := Run(before, buffer);
      Run(trace, buffer) ==
      s.(redis := Lock(s.redis, 0, b.sessionId),
         threads := s.threads[1 := Resolve(b.sessionId, false, false, Refreshed(b, WithTokens(b, tokens), 0))])
  {
    trace := TakesLock(before, 1, b, buffer);
    trace := Then(trace, HydraRefresh(1, Some(tokens)), buffer);
  }

  /** A second LogoutAll reads the index, then the first one deletes everything. */
  lemma SecondListsFirstPurges(before: seq<Action>, a: Session, b: Session, refresh: Thread, buffer: int) returns (trace: seq<Action>)
    requires Runs(before, buffer) && a.kratosId == b.kratosId
    requires var s := Run(before, buffer);
      && Unmarked(s, b, {a.sessionId, b.sessionId}) && Get(s.redis, s.now, b.sessionId) == Some(b)
      && s.threads == map[0 := LogoutAll(a, MarkedAll), 1 := refresh]
    ensures Runs(trace, buffer)
    ensures var s := Run(trace, buffer);
      && Unmarked(s, b, {}) && a.sessionId !in s.redis.sessions && b.sessionId !in s.redis.sessions
      && s.threads == map[0 := Ended(true), 1 := refresh, 2 := LogoutAll(b, Listing({a.sessionId, b.sessionId}, []))]
  {
    trace := StartsAndLists(before, 2, b, {a.sessionId, b.sessionId}, buffer);
    assert Run(trace, buffer).threads ==
      map[0 := LogoutAll(a, MarkedAll), 1 := refresh, 2 := LogoutAll(b, Listing({a.sessionId, b.sessionId}, []))];
    trace := FirstPurges(trace, a, b, refresh, buffer);
  }

  lemma Purges(before: seq<Action>, t: ThreadId, v: Session, ids: set<SessionId>, buffer: int) returns (trace: seq<Action>)
    requires Runs(before, buffer) && ids != {}
    requires var s := Run(before, buffer);
      && t in s.threads && s.threads[t] == LogoutAll(v, MarkedAll) && Members(s.redis, s.now, v.kratosId) == ids
    ensures Runs(trace, buffer)
    ensures var s := Run(before, buffer);
      Run(trace, buffer) == s.(redis := DeleteUser(s.redis, v.kratosId, ids), threads := s.threads[t := Ended(true)])
  {
    trace := Then(before, RevokeSubject(t, false), buffer);
    trace := Then(trace, PurgeList(t, false), buffer);
    trace := Then(trace, PurgeWrite(t, Done), buffer);
  }

  lemma FirstPurges(before: seq<Action>, a: Session, b: Session, refresh: Thread, buffer: int) returns (trace: seq<Action>)
    requires Runs(before, buffer) && a.kratosId == b.kratosId
    requires var s := Run(before, buffer);
      && Unmarked(s, b, {a.sessionId, b.sessionId})
      && s.threads == map[0 := LogoutAll(a, MarkedAll), 1 := refresh,
                          2 := LogoutAll(b, Listing({a.sessionId, b.sessionId}, []))]
    ensures Runs(trace, buffer)
    ensures var s := Run(trace, buffer);
      && Unmarked(s, b, {}) && a.sessionId !in s.redis.sessions && b.sessionId !in s.redis.sessions
      && s.threads == map[0 := Ended(true), 1 := refresh, 2 := LogoutAll(b, Listing({a.sessionId, b.sessionId}, []))]
  {
    trace := Purges(before, 0, a, {a.sessionId, b.sessionId}, buffer);
  }

  /** The second LogoutAll finds nothing any more, and ends without an error. */
  lemma SecondFindsNothing(before: seq<Action>, a: Session, b: Session, refresh: Thread, buffer: int) returns (trace: seq<Action>)
    requires Runs(before, buffer) && a.sessionId != b.sessionId
    requires var s := Run(before, buffer);
      && Unmarked(s, b, {}) && a.sessionId !in s.redis.sessions && b.sessionId !in s.redis.sessions
      && s.threads == map[0 := Ended(true), 1 := refresh, 2 := LogoutAll(b, Listing({a.sessionId, b.sessionId}, []))]
    ensures Runs(trace, buffer)
    ensures var s := Run(trace, buffer);
      && Unmarked(s, b, {})
      && s.threads == map[0 := Ended(true), 1 := refresh, 2 := LogoutAll(b, Listing({}, []))]
  {
    trace := Then(before, Collect(2, a.sessionId, false), buffer);
    assert {a.sessionId, b.sessionId} - {a.sessionId} == {b.sessionId};
    assert Run(trace, buffer).threads[2] == LogoutAll(b, Listing({b.sessionId}, []));
    trace := Then(trace, Collect(2, b.sessionId, false), buffer);
    assert {b.sessionId} - {b.sessionId} == {};
    assert Run(trace, buffer).threads[2] == LogoutAll(b, Listing({}, []));
  }

  lemma SecondEnds(before: seq<Action>, b: Session, refresh: Thread, buffer: int) returns (trace: seq<Action>)
    requires Runs(before, buffer)
    requires var s := Run(before, buffer);
      && Unmarked(s, b, {})
      && s.threads == map[0 := Ended(true), 1 := refresh, 2 := LogoutAll(b, Listing({}, []))]
    ensures Runs(trace, buffer)
    ensures var s := Run(trace, buffer);
      Unmarked(s, b, {}) && s.threads == map[0 := Ended(true), 1 := refresh, 2 := Ended(true)]
  {
    trace := Then(before, MarkAll(2, Done), buffer);
    assert Run(trace, buffer).threads == map[0 := Ended(true), 1 := refresh, 2 := LogoutAll(b, MarkedAll)];
    trace := Then(trace, RevokeSubject(2, false), buffer);
    trace := Then(trace, PurgeList(2, false), buffer);
  }

  /** A session that was in the index when a LogoutAll read it, deleted meanwhile by another
      LogoutAll that had not blacklisted it: a refresh then writes it back, and it is granted
      although the LogoutAll went through. */
  lemma RefreshOutlivesLogoutAll(a: Session, b: Session, tokens: Tokens, buffer: int) returns (trace: seq<Action>)
    requires a.sessionId != b.sessionId && a.kratosId == b.kratosId
    requires 0 < a.expiresAt && 0 < b.expiresAt && b.accessExp < buffer
    ensures Runs(trace, buffer)
    ensures var s := Run(trace, buffer);
      && 2 in s.threads && s.threads[2] == Ended(true)
      && 3 in s.threads && s.threads[3] == Resolve(b.sessionId, false, true, Granted(WithTokens(b, tokens)))
  {
    var refresh := Resolve(b.sessionId, false, false, Refreshed(b, WithTokens(b, tokens), 0));
    trace := FirstMarks(a, b, buffer);
    trace := RefreshBegins(trace, a, b, tokens, buffer);
    trace := SecondListsFirstPurges(trace, a, b, refresh, buffer);
    trace := SecondFindsNothing(trace, a, b, refresh, buffer);
    trace := SecondEnds(trace, b, refresh, buffer);
    trace := WrittenBackAndGranted(trace, b, WithTokens(b, tokens), buffer);
  }

  lemma WrittenBackAndGranted(before: seq<Action>, b: Session, renewed: Session, buffer: int) returns (trace: seq<Action>)
    requires Runs(before, buffer) && renewed.sessionId == b.sessionId && 0 < renewed.expiresAt
    requires var s := Run(before, buffer);
      && Unmarked(s, b, {})
      && s.threads == map[0 := Ended(true), 1 := Resolve(b.sessionId, false, false, Refreshed(b, renewed, 0)), 2 := Ended(true)]
    ensures Runs(trace, buffer)
    ensures var s := Run(trace, buffer);
      && 2 in s.threads && s.threads[2] == Ended(true)
      && 3 in s.threads && s.threads[3] == Resolve(b.sessionId, false, true, Granted(renewed))
  {
    trace := Then(before, WriteBack(1, Done), buffer);
    trace := Then(trace, StartResolve(3, b.sessionId, true, false), buffer);
    trace := Then(trace, ReadSession(3, false), buffer);
    trace := Then(trace, ReturnToken(3), buffer);
  }
}
