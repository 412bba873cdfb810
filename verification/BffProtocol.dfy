/** Login, ResolveSession, WhoAmI, Logout and LogoutAll of the BFF as threads that interleave
    at every Redis command or transaction. Any call may fail, before or after its effect;
    what Hydra answers is arbitrary.

    `born` and `revoked` are history: which sessions were created and as whose, and which had
    a blacklist write done for them. */
module BffProtocol {
  import opened Options
  import opened Sessions

  type ThreadId = nat

  datatype Identity = Identity(kratosId: KratosId, deviceId: string, expiresAt: int)

  /** A failed call may have taken effect before its answer was lost, or not at all. */
  datatype Reply = Done | LostAfter | LostBefore

  datatype Tokens = Tokens(access: string, refresh: string, accessExp: int)

  /** Where a ResolveSession or WhoAmI stands. */
  datatype Stage =
    | Checked                                             // passed the blacklist check
    | Fetched(sess: Session)                              // read the session
    | Holding(sess: Session, since: int)                  // won the refresh lock
    | Refreshed(sess: Session, renewed: Session, since: int) // has new tokens, not yet stored
    | Releasing(sess: Session, since: int)                // about to release the lock
    | Waiting(sess: Session, deadline: int)               // lost the refresh lock
    | Granted(sess: Session)                              // returned this session's token
    | Rejected

  datatype LogoutStage = Read | Marked | Deleting(kratosId: KratosId)

  datatype AllStage =
    | Started
    | Listing(todo: set<SessionId>, found: seq<Session>)
    | MarkedAll
    | SubjectRevoked
    | Removing(ids: set<SessionId>)

  /** `late`: the session was already revoked when this call made its blacklist check. */
  datatype Thread =
    | Resolve(asked: SessionId, late: bool, whoAmI: bool, stage: Stage)
    | Logout(of: Session, step: LogoutStage)
    | LogoutAll(of: Session, progress: AllStage)
    | Ended(ok: bool)

  datatype Sys = Sys(now: int, redis: Redis, threads: map<ThreadId, Thread>,
                     born: map<SessionId, Identity>, revoked: set<SessionId>)

  datatype Action =
    | Tick(d: nat)
    | Login(sess: Session)
    | StartResolve(t: ThreadId, id: SessionId, whoAmI: bool, fails: bool)
    | ReadSession(t: ThreadId, fails: bool)
    | ReturnToken(t: ThreadId)
    | AskLock(t: ThreadId, reply: Reply)
    | HydraRefresh(t: ThreadId, answer: Option<Tokens>)
    | WriteBack(t: ThreadId, reply: Reply)
    | ReleaseLock(t: ThreadId, reply: Reply)
    | Poll(t: ThreadId, fails: bool, cancelled: bool)
    | StartLogout(t: ThreadId, id: SessionId, fails: bool)
    | MarkRevoked(t: ThreadId, reply: Reply)
    | DeleteRead(t: ThreadId, fails: bool)
    | DeleteWrite(t: ThreadId, reply: Reply)
    | StartLogoutAll(t: ThreadId, id: SessionId, fails: bool)
    | ListUser(t: ThreadId, fails: bool)
    | Collect(t: ThreadId, id: SessionId, fails: bool)
    | MarkAll(t: ThreadId, reply: Reply)
    | RevokeSubject(t: ThreadId, fails: bool)
    | PurgeList(t: ThreadId, fails: bool)
    | PurgeWrite(t: ThreadId, reply: Reply)

  const INIT := Sys(0, Redis(map[], map[], map[], map[]), map[], map[], {})

  function IdentityOf(s: Session): Identity {
    Identity(s.kratosId, s.deviceId, s.expiresAt)
  }

  predicate Applied(r: Reply) { r != LostBefore }

  function Ids(found: seq<Session>): set<SessionId> {
    set s | s in found :: s.sessionId
  }

  function LiveOf(s: Sys, k: KratosId): set<SessionId> {
    set id | id in s.redis.sessions && Live(s.redis, s.now, id) && s.redis.sessions[id].value.kratosId == k
  }

  predicate Resolving(s: Sys, t: ThreadId) { t in s.threads && s.threads[t].Resolve? }

  predicate LoggingOut(s: Sys, t: ThreadId) { t in s.threads && s.threads[t].Logout? }

  predicate LoggingOutAll(s: Sys, t: ThreadId) { t in s.threads && s.threads[t].LogoutAll? }

  /** `buffer` is how long before its end an access token is refreshed. */
  predicate Enabled(s: Sys, a: Action, buffer: int) {
    match a
    case Tick(_) => true
    case Login(sess) => sess.sessionId !in s.born && sess.expiresAt > s.now
    case StartResolve(t, _, _, _) => t !in s.threads
    case ReadSession(t, _) => Resolving(s, t) && s.threads[t].stage.Checked?
    case ReturnToken(t) =>
      && Resolving(s, t) && s.threads[t].stage.Fetched?
      && (s.threads[t].whoAmI || s.threads[t].stage.sess.accessExp - s.now >= buffer)
    case AskLock(t, _) =>
      && Resolving(s, t) && s.threads[t].stage.Fetched?
      && !s.threads[t].whoAmI && s.threads[t].stage.sess.accessExp - s.now < buffer
    case HydraRefresh(t, _) => Resolving(s, t) && s.threads[t].stage.Holding?
    case WriteBack(t, _) => Resolving(s, t) && s.threads[t].stage.Refreshed?
    case ReleaseLock(t, _) => Resolving(s, t) && s.threads[t].stage.Releasing?
    case Poll(t, _, _) => Resolving(s, t) && s.threads[t].stage.Waiting?
    case StartLogout(t, _, _) => t !in s.threads
    case MarkRevoked(t, _) => LoggingOut(s, t) && s.threads[t].step.Read?
    case DeleteRead(t, _) => LoggingOut(s, t) && s.threads[t].step.Marked?
    case DeleteWrite(t, _) => LoggingOut(s, t) && s.threads[t].step.Deleting?
    case StartLogoutAll(t, _, _) => t !in s.threads
    case ListUser(t, _) => LoggingOutAll(s, t) && s.threads[t].progress.Started?
    case Collect(t, id, _) => LoggingOutAll(s, t) && s.threads[t].progress.Listing? && id in s.threads[t].progress.todo
    case MarkAll(t, _) => LoggingOutAll(s, t) && s.threads[t].progress.Listing? && s.threads[t].progress.todo == {}
    case RevokeSubject(t, _) => LoggingOutAll(s, t) && s.threads[t].progress.MarkedAll?
    case PurgeList(t, _) => LoggingOutAll(s, t) && s.threads[t].progress.SubjectRevoked?
    case PurgeWrite(t, _) => LoggingOutAll(s, t) && s.threads[t].progress.Removing?
  }

  function Set(s: Sys, t: ThreadId, th: Thread): Sys {
    s.(threads := s.threads[t := th])
  }

  /** Move a resolving thread to its next stage. */
  function Go(s: Sys, t: ThreadId, g: Stage): Sys
    requires t in s.threads && s.threads[t].Resolve?
  {
    Set(s, t, s.threads[t].(stage := g))
  }

  function Next(s: Sys, a: Action, buffer: int): Sys
    requires Enabled(s, a, buffer)
  {
    match a
    case Tick(d) => s.(now := s.now + d)
    case Login(sess) => AfterLogin(s, sess)
    case StartResolve(t, id, whoAmI, fails) =>
      var stage := if fails || Blacklisted(s.redis, s.now, id) then Rejected else Checked;
      Set(s, t, Resolve(id, id in s.revoked, whoAmI, stage))
    case ReadSession(t, fails) =>
      var got := Get(s.redis, s.now, s.threads[t].asked);
      Go(s, t, if fails || got.None? then Rejected else Fetched(got.value))
    case ReturnToken(t) => Go(s, t, Granted(s.threads[t].stage.sess))
    case AskLock(t, reply) => AfterAskLock(s, t, reply)
    case HydraRefresh(t, answer) =>
      var g := s.threads[t].stage;
      Go(s, t, if answer.None? then Releasing(g.sess, g.since)
               else Refreshed(g.sess, WithTokens(g.sess, answer.value), g.since))
    case WriteBack(t, reply) => AfterWriteBack(s, t, reply)
    case ReleaseLock(t, reply) =>
      var th := s.threads[t];
      var s' := Go(s, t, Granted(th.stage.sess));
      if Applied(reply) then s'.(redis := Unlock(s.redis, th.asked)) else s'
    case Poll(t, fails, cancelled) => AfterPoll(s, t, fails, cancelled)
    case StartLogout(t, id, fails) =>
      var got := Get(s.redis, s.now, id);
      Set(s, t, if fails then Ended(false) else if got.None? then Ended(true) else Logout(got.value, Read))
    case MarkRevoked(t, reply) => AfterMarkRevoked(s, t, reply)
    case DeleteRead(t, fails) =>
      var th := s.threads[t];
      var got := Get(s.redis, s.now, th.of.sessionId);
      Set(s, t, if fails || got.None? then Ended(true) else th.(step := Deleting(got.value.kratosId)))
    case DeleteWrite(t, reply) =>
      var th := s.threads[t];
      var s' := Set(s, t, Ended(true));
      if Applied(reply) then s'.(redis := DeleteOne(s.redis, s.now, th.step.kratosId, th.of.sessionId)) else s'
    case StartLogoutAll(t, id, fails) =>
      var got := Get(s.redis, s.now, id);
      Set(s, t, if fails then Ended(false) else if got.None? then Ended(true) else LogoutAll(got.value, Started))
    case ListUser(t, fails) =>
      var of := s.threads[t].of;
      Set(s, t, if fails then Ended(false)
                else LogoutAll(of, Listing(Members(s.redis, s.now, of.kratosId), [])))
    case Collect(t, id, fails) => AfterCollect(s, t, id, fails)
    case MarkAll(t, reply) => AfterMarkAll(s, t, reply)
    case RevokeSubject(t, fails) =>
      Set(s, t, if fails then Ended(false) else s.threads[t].(progress := SubjectRevoked))
    case PurgeList(t, fails) =>
      var ids := Members(s.redis, s.now, s.threads[t].of.kratosId);
      Set(s, t, if fails || ids == {} then Ended(true) else s.threads[t].(progress := Removing(ids)))
    case PurgeWrite(t, reply) =>
      var th := s.threads[t];
      var s' := Set(s, t, Ended(true));
      if Applied(reply) then s'.(redis := DeleteUser(s.redis, th.of.kratosId, th.progress.ids)) else s'
  }

  function AfterLogin(s: Sys, sess: Session): Sys
    requires sess.expiresAt > s.now
  {
    s.(redis := Create(s.redis, s.now, sess, 0), born := s.born[sess.sessionId := IdentityOf(sess)])
  }

  function WithTokens(s: Session, tokens: Tokens): Session {
    s.(accessToken := tokens.access, refreshToken := tokens.refresh, accessExp := tokens.accessExp)
  }

  function AfterAskLock(s: Sys, t: ThreadId, reply: Reply): Sys
    requires Resolving(s, t) && s.threads[t].stage.Fetched?
  {
    var th := s.threads[t];
    var free := !Locked(s.redis, s.now, th.asked);
    var s' := Go(s, t, if reply != Done then Granted(th.stage.sess)
                       else if free then Holding(th.stage.sess, s.now)
                       else Waiting(th.stage.sess, s.now + MAX_WAIT));
    if Applied(reply) then s'.(redis := Lock(s.redis, s.now, th.asked)) else s'
  }

  /** A failed write, and a session past its end, leave the caller with the old session. */
  function AfterWriteBack(s: Sys, t: ThreadId, reply: Reply): Sys
    requires Resolving(s, t) && s.threads[t].stage.Refreshed?
  {
    var g := s.threads[t].stage;
    var stored := reply == Done && g.renewed.expiresAt > s.now;
    var s' := Go(s, t, Releasing(if stored then g.renewed else g.sess, g.since));
    if Applied(reply) then s'.(redis := Update(s.redis, s.now, g.renewed)) else s'
  }

  function AfterPoll(s: Sys, t: ThreadId, fails: bool, cancelled: bool): Sys
    requires Resolving(s, t) && s.threads[t].stage.Waiting?
  {
    var th := s.threads[t];
    var g := th.stage;
    var got := if fails then None else Get(s.redis, s.now, th.asked);
    if s.now < g.deadline then
      if got.Some? && got.value.accessExp > g.sess.accessExp then Go(s, t, Granted(got.value))
      else if cancelled then Go(s, t, Granted(g.sess)) else s
    else
      Go(s, t, Granted(if got.Some? then got.value else g.sess))
  }

  function AfterMarkRevoked(s: Sys, t: ThreadId, reply: Reply): Sys
    requires LoggingOut(s, t) && s.threads[t].step.Read?
  {
    var of := s.threads[t].of;
    var s' := Set(s, t, if reply == Done then Logout(of, Marked) else Ended(false));
    if !Applied(reply) then s' else
      s'.(redis := Blacklist(s.redis, s.now, of.sessionId, of.expiresAt - s.now),
          revoked := s.revoked + {of.sessionId})
  }

  function AfterCollect(s: Sys, t: ThreadId, id: SessionId, fails: bool): Sys
    requires LoggingOutAll(s, t) && s.threads[t].progress.Listing?
  {
    var th := s.threads[t];
    var got := Get(s.redis, s.now, id);
    Set(s, t, if fails then Ended(false)
              else th.(progress := Listing(th.progress.todo - {id},
                                           if got.Some? then th.progress.found + [got.value] else th.progress.found)))
  }

  function AfterMarkAll(s: Sys, t: ThreadId, reply: Reply): Sys
    requires LoggingOutAll(s, t) && s.threads[t].progress.Listing?
  {
    var th := s.threads[t];
    var found := th.progress.found;
    var s' := Set(s, t, if reply == Done then th.(progress := MarkedAll) else Ended(false));
    if !Applied(reply) then s' else
      s'.(redis := BlacklistAll(s.redis, s.now, Ids(found), MaxTtl(s.now, th.of, found)),
          revoked := s.revoked + Ids(found))
  }

  // ---------------------------------------------------------------- runs

  ghost predicate Runs(trace: seq<Action>, buffer: int)
    decreases |trace|, 0
  {
    trace == [] ||
    (Runs(trace[..|trace| - 1], buffer) && Enabled(Run(trace[..|trace| - 1], buffer), trace[|trace| - 1], buffer))
  }

  function Run(trace: seq<Action>, buffer: int): Sys
    requires Runs(trace, buffer)
    decreases |trace|, 1
  {
    if trace == [] then INIT else Next(Run(trace[..|trace| - 1], buffer), trace[|trace| - 1], buffer)
  }
}
