/** The operations of the BFF as whole calls: the code, over the session store and the
    blacklist, and the steps of the protocol taken one after the other by one caller. Both are
    proved to have the same effect, whatever fails on the way. */
module BffService {
  import opened Options
  import opened Sessions
  import opened BffProtocol

  const REFRESH_TTL_SHORT: int := 7 * 24 * 3600 * 1000
  const REFRESH_TTL_LONG: int := 30 * 24 * 3600 * 1000

  /** What becomes of each command of a call. */
  datatype LogoutFaults = LogoutFaults(get: bool, mark: Reply, read: bool, del: Reply)
  datatype LogoutAllFaults = LogoutAllFaults(get: bool, list: bool, mark: Reply, subject: bool, purge: bool, del: Reply)
  datatype ResolveFaults = ResolveFaults(check: bool, get: bool, lock: Reply, hydra: Option<Tokens>, write: Reply, release: Reply)

  datatype Outcome = Outcome(redis: Redis, ok: bool)

  /** Every session is stored under its own id. */
  predicate KeyedById(r: Redis) {
    forall id | id in r.sessions :: r.sessions[id].value.sessionId == id
  }

  // ---------------------------------------------------------------- Logout

  /** Blacklist first, and not a step further if that fails; a failed deletion is no error. */
  function LogoutCall(r: Redis, now: int, id: SessionId, f: LogoutFaults): Outcome {
    var got := Get(r, now, id);
    if f.get then Outcome(r, false)
    else if got.None? then Outcome(r, true)
    else
      var r1 := if Applied(f.mark) then Blacklist(r, now, id, got.value.expiresAt - now) else r;
      if f.mark != Done then Outcome(r1, false)
      else if f.read || !Applied(f.del) then Outcome(r1, true)
      else Outcome(DeleteOne(r1, now, got.value.kratosId, id), true)
  }

  /** A Logout of a live session without an error has blacklisted it exactly until its end;
      if nothing failed it is also gone from store and index. With an error the session and
      the index are as before. Other sessions and users are never touched. */
  lemma LogoutCallMeans(r: Redis, now: int, id: SessionId, f: LogoutFaults, later: int)
    requires now <= later && Live(r, now, id)
    ensures var o, v := LogoutCall(r, now, id, f), r.sessions[id].value;
      && (o.ok && v.expiresAt > now ==> (Blacklisted(o.redis, later, id) <==> later < v.expiresAt))
      && (o.ok <==> !f.get && f.mark == Done)
      && (o.ok && !f.read && f.del == Done ==>
            Get(o.redis, later, id).None? && id !in Members(o.redis, later, v.kratosId))
      && (!o.ok ==> o.redis.sessions == r.sessions && o.redis.index == r.index)
      && (f.get || f.mark == LostBefore ==> o.redis == r)
      && (forall i | i != id :: Get(o.redis, later, i) == Get(r, later, i) && (Blacklisted(o.redis, later, i) <==> Blacklisted(r, later, i)))
      && o.redis.locks == r.locks
  {
    var v := r.sessions[id].value;
    var r1 := Blacklist(r, now, id, v.expiresAt - now);
    BlacklistThenRead(r, now, id, v.expiresAt - now, later);
    DeleteThenRead(r1, now, v.kratosId, id, later);
  }

  /** The protocol steps of one Logout, with nobody in between. */
  function LogoutSteps(s: Sys, t: ThreadId, id: SessionId, f: LogoutFaults, buffer: int): (s': Sys)
    requires t !in s.threads
    ensures t in s'.threads
  {
    var s1 := Next(s, StartLogout(t, id, f.get), buffer);
    if s1.threads[t].Ended? then s1 else MarkSteps(s1, t, f, buffer)
  }

  function MarkSteps(s: Sys, t: ThreadId, f: LogoutFaults, buffer: int): (s': Sys)
    requires LoggingOut(s, t) && s.threads[t].step.Read?
    ensures t in s'.threads
  {
    var s1 := Next(s, MarkRevoked(t, f.mark), buffer);
    if s1.threads[t].Ended? then s1 else DeleteSteps(s1, t, f, buffer)
  }

  function DeleteSteps(s: Sys, t: ThreadId, f: LogoutFaults, buffer: int): (s': Sys)
    requires LoggingOut(s, t) && s.threads[t].step.Marked?
    ensures t in s'.threads
  {
    var s1 := Next(s, DeleteRead(t, f.read), buffer);
    if s1.threads[t].Ended? then s1 else Next(s1, DeleteWrite(t, f.del), buffer)
  }

  lemma DeleteStepsAreCall(s: Sys, t: ThreadId, v: Session, f: LogoutFaults, buffer: int)
    requires LoggingOut(s, t) && s.threads[t] == Logout(v, Marked) && Get(s.redis, s.now, v.sessionId) == Some(v)
    ensures var s' := DeleteSteps(s, t, f, buffer);
      && s'.threads[t] == Ended(true)
      && s'.redis == (if f.read || !Applied(f.del) then s.redis else DeleteOne(s.redis, s.now, v.kratosId, v.sessionId))
  {
  }

  lemma LogoutStepsAreCall(s: Sys, t: ThreadId, id: SessionId, f: LogoutFaults, buffer: int)
    requires t !in s.threads && KeyedById(s.redis)
    ensures var s' := LogoutSteps(s, t, id, f, buffer);
      s'.threads[t].Ended? && Outcome(s'.redis, s'.threads[t].ok) == LogoutCall(s.redis, s.now, id, f)
  {
    var got := Get(s.redis, s.now, id);
    if !f.get && got.Some? {
      var s1 := Next(s, StartLogout(t, id, f.get), buffer);
      assert s1.threads[t] == Logout(got.value, Read);
      MarkStepsAreCall(s1, t, got.value, f, buffer);
    }
  }

  lemma MarkStepsAreCall(s: Sys, t: ThreadId, v: Session, f: LogoutFaults, buffer: int)
    requires LoggingOut(s, t) && s.threads[t] == Logout(v, Read) && Get(s.redis, s.now, v.sessionId) == Some(v)
    ensures var s' := MarkSteps(s, t, f, buffer);
      s'.threads[t].Ended? && Outcome(s'.redis, s'.threads[t].ok) == LogoutCall(s.redis, s.now, v.sessionId, f.(get := false))
  {
    var s1 := Next(s, MarkRevoked(t, f.mark), buffer);
    MarkStepMeans(s, t, v, f.mark, buffer);
    if f.mark == Done {
      DeleteStepsAreCall(s1, t, v, f, buffer);
    }
  }

  lemma MarkStepMeans(s: Sys, t: ThreadId, v: Session, mark: Reply, buffer: int)
    requires LoggingOut(s, t) && s.threads[t] == Logout(v, Read)
    ensures var s' := Next(s, MarkRevoked(t, mark), buffer);
      && s'.now == s.now && t in s'.threads
      && s'.threads[t] == (if mark == Done then Logout(v, Marked) else Ended(false))
      && s'.redis == (if Applied(mark) then Blacklist(s.redis, s.now, v.sessionId, v.expiresAt - s.now) else s.redis)
  {
  }

  // ---------------------------------------------------------------- LogoutAll

  /** `found` are the live sessions of the user's index, in some order. */
  ghost predicate FoundOf(r: Redis, now: int, k: KratosId, found: seq<Session>) {
    (set v | v in found) == set id | id in Members(r, now, k) && Live(r, now, id) :: r.sessions[id].value
  }

  /** From the list of sessions on. */
  function LogoutAllCall(r: Redis, now: int, of: Session, found: seq<Session>, f: LogoutAllFaults): Outcome {
    var r1 := if Applied(f.mark) then BlacklistAll(r, now, Ids(found), MaxTtl(now, of, found)) else r;
    var ids := Members(r1, now, of.kratosId);
    if f.mark != Done || f.subject then Outcome(r1, false)
    else if f.purge || ids == {} || !Applied(f.del) then Outcome(r1, true)
    else Outcome(DeleteUser(r1, of.kratosId, ids), true)
  }

  /** A LogoutAll without an error has blacklisted every live session of the index for at least
      its life; if nothing failed the index and the sessions in it are gone. Sessions outside
      the index are never touched. */
  lemma LogoutAllCallMeans(r: Redis, now: int, of: Session, found: seq<Session>, f: LogoutAllFaults, id: SessionId, later: int)
    requires FoundOf(r, now, of.kratosId, found) && now <= later
    requires KeyedById(r)
    ensures var o, listed := LogoutAllCall(r, now, of, found, f), Members(r, now, of.kratosId);
      && (o.ok <==> f.mark == Done && !f.subject)
      && (o.ok && id in listed && Live(r, now, id) && later < r.sessions[id].value.expiresAt ==> Blacklisted(o.redis, later, id))
      && (o.ok && !f.purge && f.del == Done ==>
            Members(o.redis, later, of.kratosId) == {} && (id in listed ==> Get(o.redis, later, id).None?))
      && (id !in listed ==> Get(o.redis, later, id) == Get(r, later, id) && (Blacklisted(o.redis, later, id) <==> Blacklisted(r, later, id)))
      && (!o.ok ==> o.redis.sessions == r.sessions && o.redis.index == r.index)
  {
    BatchMeans(r, now, of, found, id, later);
    var r1 := BlacklistAll(r, now, Ids(found), MaxTtl(now, of, found));
    DeleteUserThenRead(r1, of.kratosId, Members(r, now, of.kratosId), later);
  }

  lemma BatchMeans(r: Redis, now: int, of: Session, found: seq<Session>, id: SessionId, later: int)
    requires FoundOf(r, now, of.kratosId, found) && now <= later
    requires KeyedById(r)
    ensures var r', listed := BlacklistAll(r, now, Ids(found), MaxTtl(now, of, found)), Members(r, now, of.kratosId);
      && r'.(blacklist := r.blacklist) == r
      && (id in listed && Live(r, now, id) && later < r.sessions[id].value.expiresAt ==> Blacklisted(r', later, id))
      && (id !in listed ==> (Blacklisted(r', later, id) <==> Blacklisted(r, later, id)))
  {
    var ttl := MaxTtl(now, of, found);
    FoundIds(r, now, of.kratosId, found, id);
    BatchThenRead(r, now, Ids(found), ttl, id, later);
    if id in Ids(found) {
      FoundLife(r, now, of, found, id);
    }
  }

  lemma FoundLife(r: Redis, now: int, of: Session, found: seq<Session>, id: SessionId)
    requires FoundOf(r, now, of.kratosId, found) && id in Members(r, now, of.kratosId) && Live(r, now, id)
    ensures MaxTtl(now, of, found) >= r.sessions[id].value.expiresAt - now
  {
    var live := set i | i in Members(r, now, of.kratosId) && Live(r, now, i) :: r.sessions[i].value;
    assert r.sessions[id].value in live;
    assert live == set v | v in found;
  }

  lemma FoundIds(r: Redis, now: int, k: KratosId, found: seq<Session>, id: SessionId)
    requires FoundOf(r, now, k, found)
    requires KeyedById(r)
    ensures id in Ids(found) <==> id in Members(r, now, k) && Live(r, now, id)
  {
    var values := set v | v in found;
    if id in Ids(found) {
      var v :| v in found && v.sessionId == id;
      assert v in values;
    }
    if id in Members(r, now, k) && Live(r, now, id) {
      assert r.sessions[id].value in values;
    }
  }

  /** The protocol steps of a LogoutAll that has listed all sessions. */
  function LogoutAllSteps(s: Sys, t: ThreadId, f: LogoutAllFaults, buffer: int): (s': Sys)
    requires LoggingOutAll(s, t) && s.threads[t].progress.Listing? && s.threads[t].progress.todo == {}
    ensures t in s'.threads
  {
    var s1 := Next(s, MarkAll(t, f.mark), buffer);
    if s1.threads[t].Ended? then s1 else
      var s2 := Next(s1, RevokeSubject(t, f.subject), buffer);
      if s2.threads[t].Ended? then s2 else PurgeSteps(s2, t, f, buffer)
  }

  function PurgeSteps(s: Sys, t: ThreadId, f: LogoutAllFaults, buffer: int): (s': Sys)
    requires LoggingOutAll(s, t) && s.threads[t].progress.SubjectRevoked?
    ensures t in s'.threads
  {
    var s1 := Next(s, PurgeList(t, f.purge), buffer);
    if s1.threads[t].Ended? then s1 else Next(s1, PurgeWrite(t, f.del), buffer)
  }

  lemma PurgeStepsAreCall(s: Sys, t: ThreadId, f: LogoutAllFaults, buffer: int)
    requires LoggingOutAll(s, t) && s.threads[t].progress.SubjectRevoked?
    ensures var s', k := PurgeSteps(s, t, f, buffer), s.threads[t].of.kratosId;
      var ids := Members(s.redis, s.now, k);
      && s'.threads[t] == Ended(true)
      && s'.redis == if f.purge || ids == {} || !Applied(f.del) then s.redis else DeleteUser(s.redis, k, ids)
  {
  }

  lemma LogoutAllStepsAreCall(s: Sys, t: ThreadId, f: LogoutAllFaults, buffer: int)
    requires LoggingOutAll(s, t) && s.threads[t].progress.Listing? && s.threads[t].progress.todo == {}
    ensures var s', th := LogoutAllSteps(s, t, f, buffer), s.threads[t];
      && s'.threads[t].Ended?
      && Outcome(s'.redis, s'.threads[t].ok) == LogoutAllCall(s.redis, s.now, th.of, th.progress.found, f)
  {
    var s1 := Next(s, MarkAll(t, f.mark), buffer);
    if f.mark == Done && !f.subject {
      var s2 := Next(s1, RevokeSubject(t, f.subject), buffer);
      assert s2.threads[t] == LogoutAll(s.threads[t].of, SubjectRevoked) && s2.redis == s1.redis;
      PurgeStepsAreCall(s2, t, f, buffer);
    }
  }

  /** Before that: the session is looked up, the index read, and each of its ids looked up;
      any failure ends the call with an error. */
  lemma LogoutAllStarts(s: Sys, t: ThreadId, id: SessionId, f: LogoutAllFaults, buffer: int)
    requires t !in s.threads
    ensures var s1, got := Next(s, StartLogoutAll(t, id, f.get), buffer), Get(s.redis, s.now, id);
      && s1 == s.(threads := s1.threads) && t in s1.threads
      && (f.get ==> s1.threads[t] == Ended(false))
      && (!f.get && got.None? ==> s1.threads[t] == Ended(true))
      && (!f.get && got.Some? ==>
            && Enabled(s1, ListUser(t, f.list), buffer)
            && var s2 := Next(s1, ListUser(t, f.list), buffer);
            && s2 == s.(threads := s2.threads)
            && s2.threads[t] == (if f.list then Ended(false)
                                 else LogoutAll(got.value, Listing(Members(s.redis, s.now, got.value.kratosId), []))))
  {
  }

  /** Looking up the listed ids one after the other finds exactly the live sessions. */
  lemma {:induction false} CollectsFound(s: Sys, t: ThreadId, buffer: int) returns (s': Sys)
    requires LoggingOutAll(s, t) && s.threads[t].progress.Listing?
    ensures s' == s.(threads := s'.threads) && LoggingOutAll(s', t) && s'.threads[t].of == s.threads[t].of
    ensures s'.threads[t].progress.Listing? && s'.threads[t].progress.todo == {}
    ensures forall v :: v in s'.threads[t].progress.found <==>
      v in s.threads[t].progress.found ||
      exists id | id in s.threads[t].progress.todo && Live(s.redis, s.now, id) :: s.redis.sessions[id].value == v
    decreases |s.threads[t].progress.todo|
  {
    var todo := s.threads[t].progress.todo;
    if todo == {} {
      s' := s;
    } else {
      var id :| id in todo;
      s' := CollectsFound(Next(s, Collect(t, id, false), buffer), t, buffer);
    }
  }

  lemma FailedLookupEndsLogoutAll(s: Sys, t: ThreadId, id: SessionId, buffer: int)
    requires Enabled(s, Collect(t, id, true), buffer)
    ensures var s' := Next(s, Collect(t, id, true), buffer); s'.redis == s.redis && s'.threads[t] == Ended(false)
  {
  }

  // ---------------------------------------------------------------- ResolveSession and WhoAmI

  datatype Resolution = Resolution(redis: Redis, session: Option<Session>)

  predicate NearEnd(v: Session, now: int, buffer: int) { v.accessExp < now + buffer }

  predicate Passes(r: Redis, now: int, id: SessionId, f: ResolveFaults) {
    !f.check && !Blacklisted(r, now, id) && !f.get && Live(r, now, id)
  }

  /** The caller comes to the lock and finds it taken. */
  predicate LosesLock(r: Redis, now: int, id: SessionId, whoAmI: bool, buffer: int, f: ResolveFaults) {
    && Passes(r, now, id, f) && !whoAmI && NearEnd(r.sessions[id].value, now, buffer)
    && f.lock == Done && Locked(r, now, id)
  }

  /** The refresh of a caller that won the lock: new tokens only if all went well, the old
      session otherwise. */
  function RefreshCall(r: Redis, now: int, v: Session, f: ResolveFaults): Resolution {
    var r1 := Lock(r, now, v.sessionId);
    var renewed := if f.hydra.Some? then WithTokens(v, f.hydra.value) else v;
    var r2 := if f.hydra.Some? && Applied(f.write) then Update(r1, now, renewed) else r1;
    var stored := f.hydra.Some? && f.write == Done && v.expiresAt > now;
    Resolution(if Applied(f.release) then Unlock(r2, v.sessionId) else r2, Some(if stored then renewed else v))
  }

  function ResolveCall(r: Redis, now: int, id: SessionId, whoAmI: bool, buffer: int, f: ResolveFaults): Resolution
    requires !LosesLock(r, now, id, whoAmI, buffer, f)
  {
    if !Passes(r, now, id, f) then Resolution(r, None) else
      var v := r.sessions[id].value;
      if whoAmI || !NearEnd(v, now, buffer) then Resolution(r, Some(v))
      else if f.lock != Done then Resolution(if Applied(f.lock) then Lock(r, now, id) else r, Some(v))
      else RefreshCall(r, now, v, f)
  }

  /** A call is answered with a session exactly if the blacklist could be read and holds no
      live entry, and the session could be read and is live. The answer is the stored session,
      with new tokens exactly if the token was near its end and the refresh went through; the
      store then holds the same. Identity and blacklist never change. */
  lemma ResolveCallMeans(r: Redis, now: int, id: SessionId, whoAmI: bool, buffer: int, f: ResolveFaults)
    requires !LosesLock(r, now, id, whoAmI, buffer, f)
    requires forall i | i in r.sessions :: r.sessions[i].value.sessionId == i && r.sessions[i].expiresAt == r.sessions[i].value.expiresAt
    ensures var o := ResolveCall(r, now, id, whoAmI, buffer, f);
      && (o.session.Some? <==> !f.check && !Blacklisted(r, now, id) && !f.get && Live(r, now, id))
      && o.redis.blacklist == r.blacklist && o.redis.index == r.index
      && (o.session.Some? ==>
            var v, w := r.sessions[id].value, o.session.value;
            var refreshed := !whoAmI && NearEnd(v, now, buffer) && f.lock == Done && f.hydra.Some? && f.write == Done;
            && w == (if refreshed then WithTokens(v, f.hydra.value) else v)
            && (refreshed ==> Get(o.redis, now, id) == Some(w))
            && (refreshed && f.release == Done ==> !Locked(o.redis, now, id))
            && (whoAmI || !NearEnd(v, now, buffer) ==> o.redis == r))
  {
  }

  function ResolveSteps(s: Sys, t: ThreadId, id: SessionId, whoAmI: bool, f: ResolveFaults, buffer: int): (s': Sys)
    requires t !in s.threads
    ensures t in s'.threads && s'.threads[t].Resolve?
  {
    var s1 := Next(s, StartResolve(t, id, whoAmI, f.check), buffer);
    if s1.threads[t].stage.Rejected? then s1 else ReadSteps(s1, t, f, buffer)
  }

  function ReadSteps(s: Sys, t: ThreadId, f: ResolveFaults, buffer: int): (s': Sys)
    requires Resolving(s, t) && s.threads[t].stage.Checked?
    ensures t in s'.threads && s'.threads[t].Resolve?
  {
    var s1 := Next(s, ReadSession(t, f.get), buffer);
    if s1.threads[t].stage.Rejected? then s1
    else if Enabled(s1, ReturnToken(t), buffer) then Next(s1, ReturnToken(t), buffer)
    else LockSteps(s1, t, f, buffer)
  }

  function LockSteps(s: Sys, t: ThreadId, f: ResolveFaults, buffer: int): (s': Sys)
    requires Enabled(s, AskLock(t, f.lock), buffer)
    ensures t in s'.threads && s'.threads[t].Resolve?
  {
    var s1 := Next(s, AskLock(t, f.lock), buffer);
    if s1.threads[t].stage.Holding? then RefreshSteps(s1, t, f, buffer) else s1
  }

  function RefreshSteps(s: Sys, t: ThreadId, f: ResolveFaults, buffer: int): (s': Sys)
    requires Resolving(s, t) && s.threads[t].stage.Holding?
    ensures t in s'.threads && s'.threads[t].Resolve?
  {
    var s1 := Next(s, HydraRefresh(t, f.hydra), buffer);
    var s2 := if s1.threads[t].stage.Refreshed? then Next(s1, WriteBack(t, f.write), buffer) else s1;
    Next(s2, ReleaseLock(t, f.release), buffer)
  }

  lemma RefreshStepsAreCall(s: Sys, t: ThreadId, v: Session, f: ResolveFaults, buffer: int)
    requires Resolving(s, t) && s.threads[t].stage == Holding(v, s.now) && s.threads[t].asked == v.sessionId
    ensures var s' := RefreshSteps(s, t, f, buffer);
      var renewed := if f.hydra.Some? then WithTokens(v, f.hydra.value) else v;
      var r2 := if f.hydra.Some? && Applied(f.write) then Update(s.redis, s.now, renewed) else s.redis;
      && s'.redis == (if Applied(f.release) then Unlock(r2, v.sessionId) else r2)
      && s'.threads[t].stage ==
         Granted(if f.hydra.Some? && f.write == Done && v.expiresAt > s.now then renewed else v)
  {
  }

  lemma ResolveStepsAreCall(s: Sys, t: ThreadId, id: SessionId, whoAmI: bool, f: ResolveFaults, buffer: int)
    requires t !in s.threads && KeyedById(s.redis)
    ensures var s' := ResolveSteps(s, t, id, whoAmI, f, buffer);
      if LosesLock(s.redis, s.now, id, whoAmI, buffer, f)
      then s'.redis == s.redis && s'.threads[t].stage == Waiting(s.redis.sessions[id].value, s.now + MAX_WAIT)
      else
        var o := ResolveCall(s.redis, s.now, id, whoAmI, buffer, f);
        s'.redis == o.redis &&
        s'.threads[t].stage == if o.session.Some? then Granted(o.session.value) else Rejected
  {
    if !f.check && !Blacklisted(s.redis, s.now, id) {
      var s1 := Next(s, StartResolve(t, id, whoAmI, f.check), buffer);
      assert s1.threads[t].stage == Checked;
      ReadStepsAreCall(s1, t, f, buffer);
    }
  }

  lemma ReadStepsAreCall(s: Sys, t: ThreadId, f: ResolveFaults, buffer: int)
    requires Resolving(s, t) && s.threads[t].stage.Checked? && KeyedById(s.redis)
    ensures var s', id, whoAmI := ReadSteps(s, t, f, buffer), s.threads[t].asked, s.threads[t].whoAmI;
      if f.get || !Live(s.redis, s.now, id) then s'.redis == s.redis && s'.threads[t].stage == Rejected
      else
        var v := s.redis.sessions[id].value;
        if whoAmI || !NearEnd(v, s.now, buffer) then s'.redis == s.redis && s'.threads[t].stage == Granted(v)
        else LockResult(s.redis, s.now, v, f, s'.redis, s'.threads[t].stage)
  {
    var s1 := Next(s, ReadSession(t, f.get), buffer);
    if s1.threads[t].stage.Fetched? && !Enabled(s1, ReturnToken(t), buffer) {
      LockStepsAreCall(s1, t, s1.threads[t].stage.sess, f, buffer);
    }
  }

  /** What becomes of a caller that asks for the lock. */
  predicate LockResult(r: Redis, now: int, v: Session, f: ResolveFaults, r': Redis, stage: Stage) {
    if f.lock != Done then
      r' == (if Applied(f.lock) then Lock(r, now, v.sessionId) else r) && stage == Granted(v)
    else if Locked(r, now, v.sessionId) then
      r' == r && stage == Waiting(v, now + MAX_WAIT)
    else
      var o := RefreshCall(r, now, v, f);
      r' == o.redis && o.session.Some? && stage == Granted(o.session.value)
  }

  lemma LockStepsAreCall(s: Sys, t: ThreadId, v: Session, f: ResolveFaults, buffer: int)
    requires Enabled(s, AskLock(t, f.lock), buffer) && s.threads[t].stage == Fetched(v) && s.threads[t].asked == v.sessionId
    ensures var s' := LockSteps(s, t, f, buffer);
      LockResult(s.redis, s.now, v, f, s'.redis, s'.threads[t].stage)
  {
    if f.lock == Done && !Locked(s.redis, s.now, v.sessionId) {
      RefreshStepsAreCall(Next(s, AskLock(t, f.lock), buffer), t, v, f, buffer);
    }
  }

  // ---------------------------------------------------------------- the code

  class Bff {
    const store: RedisStore
    const blacklist: RedisBlacklist
    const buffer: int

    constructor (store: RedisStore, blacklist: RedisBlacklist, buffer: int)
      ensures this.store == store && this.blacklist == blacklist && this.buffer == buffer
    {
      this.store, this.blacklist, this.buffer := store, blacklist, buffer;
    }

    ghost function Abs(): Redis
      reads store, blacklist
    {
      store.Abs(blacklist.entries)
    }

    /** The session lives for 7 days, or 30 if the user asked to be remembered. */
    method Login(now: int, id: SessionId, kratosId: KratosId, deviceId: string, rememberMe: bool,
                 tokens: Option<Tokens>, create: Reply) returns (ok: bool)
      modifies store
      ensures ok == (tokens.Some? && create == Done)
      ensures tokens.None? || create == LostBefore ==> Abs() == old(Abs())
      ensures ok ==>
        var end := now + if rememberMe then REFRESH_TTL_LONG else REFRESH_TTL_SHORT;
        var v := Session(id, kratosId, deviceId, tokens.value.access, tokens.value.refresh, tokens.value.accessExp, end);
        && Abs() == Create(old(Abs()), now, v, 0)
        && (forall s: Sys | s.now == now && s.redis == old(Abs()) :: AfterLogin(s, v).redis == Abs())
    {
      if tokens == None {
        return false;
      }
      var ttl := REFRESH_TTL_SHORT;
      if rememberMe {
        ttl := REFRESH_TTL_LONG;
      }
      var v := Session(id, kratosId, deviceId, tokens.value.access, tokens.value.refresh, tokens.value.accessExp, now + ttl);
      if create != LostBefore {
        store.CreateSession(now, v);
      }
      return create == Done;
    }

    method Logout(now: int, id: SessionId, f: LogoutFaults) returns (ok: bool)
      modifies store, blacklist
      ensures Outcome(Abs(), ok) == LogoutCall(old(Abs()), now, id, f)
    {
      if f.get {
        return false;
      }
      var got := store.GetSession(now, id);
      if got == None {
        return true;
      }
      if f.mark != LostBefore {
        blacklist.Add(now, id, got.value.expiresAt - now);
      }
      if f.mark != Done {
        return false;
      }
      if !f.read && f.del != LostBefore {
        store.DeleteSession(now, id);
      }
      return true;
    }

    method LogoutAll(now: int, id: SessionId, f: LogoutAllFaults) returns (ok: bool, found: seq<Session>)
      requires forall i | i in store.sessions :: store.sessions[i].value.sessionId == i
      modifies store, blacklist
      ensures f.get ==> !ok && Abs() == old(Abs())
      ensures !f.get && !old(Live(Abs(), now, id)) ==> ok && Abs() == old(Abs())
      ensures !f.get && old(Live(Abs(), now, id)) && f.list ==> !ok && Abs() == old(Abs())
      ensures !f.get && old(Live(Abs(), now, id)) && !f.list ==>
        var of := old(Abs()).sessions[id].value;
        && FoundOf(old(Abs()), now, of.kratosId, found)
        && Outcome(Abs(), ok) == LogoutAllCall(old(Abs()), now, of, found, f)
    {
      found := [];
      if f.get {
        return false, found;
      }
      var got := store.GetSession(now, id);
      if got == None {
        return true, found;
      }
      if f.list {
        return false, found;
      }
      found := store.GetAllForUser(now, got.value.kratosId);
      var ids, ttl := CollectForBatch(now, got.value, found);
      IdsOfSeq(found, ids);
      if f.mark != LostBefore {
        blacklist.AddBatch(now, ids, ttl);
      }
      if f.mark != Done || f.subject {
        return false, found;
      }
      if !f.purge && f.del != LostBefore {
        var deleted := store.DeleteAllForUser(now, got.value.kratosId);
      }
      return true, found;
    }

    /** ResolveSession and, with `whoAmI`, WhoAmI. A caller that finds the lock taken waits for
        the winner, as `AwaitWinner` does. */
    method Resolve(now: int, id: SessionId, whoAmI: bool, f: ResolveFaults,
                   clock: nat -> int, answers: nat -> Option<Session>, cancelled: nat -> bool) returns (r: Option<Session>)
      requires forall i: nat {:trigger clock(i + 1)} :: clock(i + 1) >= clock(i) + POLL_INTERVAL
      requires forall i | i in store.sessions :: store.sessions[i].value.sessionId == i
      modifies store
      ensures !old(LosesLock(Abs(), now, id, whoAmI, buffer, f)) ==>
        Resolution(Abs(), r) == old(ResolveCall(Abs(), now, id, whoAmI, buffer, f))
      ensures old(LosesLock(Abs(), now, id, whoAmI, buffer, f)) ==>
        && Abs() == old(Abs()) && r.Some?
        && (r.value == old(Abs()).sessions[id].value || exists i: nat {:trigger answers(i)} | i <= 10 :: answers(i) == r)
    {
      var blacklisted, failed := blacklist.IsBlacklisted(now, id, f.check);
      assert blacklisted == (f.check || Blacklisted(Abs(), now, id));
      if failed || blacklisted || f.get {
        return None;
      }
      r := store.GetSession(now, id);
      if r == None || whoAmI || r.value.accessExp - now >= buffer {
        return r;
      }
      var v := r.value;
      var acquired := true;
      if f.lock != LostBefore {
        acquired := store.AcquireRefreshLock(now, id);
      }
      if f.lock != Done {
        return Some(v);
      }
      if !acquired {
        var awaited, polls := AwaitWinner(v, clock, answers, cancelled);
        return Some(awaited);
      }
      r := Refresh(now, v, f);
    }

    method Refresh(now: int, v: Session, f: ResolveFaults) returns (r: Option<Session>)
      modifies store
      ensures forall before: Redis | Lock(before, now, v.sessionId) == old(Abs()) ::
        Resolution(Abs(), r) == RefreshCall(before, now, v, f)
    {
      r := Some(v);
      if f.hydra.Some? {
        var renewed := WithTokens(v, f.hydra.value);
        var stored := renewed.expiresAt > now;
        if f.write != LostBefore {
          stored := store.UpdateSession(now, renewed);
        }
        if f.write == Done && stored {
          r := Some(renewed);
        }
      }
      if f.release != LostBefore {
        store.ReleaseRefreshLock(v.sessionId);
      }
    }
  }

  lemma IdsOfSeq(found: seq<Session>, ids: seq<SessionId>)
    requires |ids| == |found| && forall i | 0 <= i < |found| :: ids[i] == found[i].sessionId
    ensures (set id | id in ids) == Ids(found)
  {
    forall id
      ensures id in ids <==> id in Ids(found)
    {
      if id in ids {
        var i :| 0 <= i < |ids| && ids[i] == id;
        assert found[i] in found;
      }
      if v :| v in found && v.sessionId == id {
        var i :| 0 <= i < |found| && found[i] == v;
        assert ids[i] == id;
      }
    }
  }
}
