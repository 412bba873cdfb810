/** Revocation is final: in every interleaving, a call that makes its blacklist check after
    a session's blacklist write is never granted that session, even if a racing refresh
    writes the session back. */
module BffRevocation {
  import opened Options
  import opened Sessions
  import opened BffProtocol

  /** `v` is a copy of session `id` as it was created, up to its tokens. */
  predicate Genuine(s: Sys, id: SessionId, v: Session) {
    v.sessionId == id && id in s.born && IdentityOf(v) == s.born[id]
  }

  predicate StoredGenuine(s: Sys) {
    forall id | id in s.redis.sessions ::
      Genuine(s, id, s.redis.sessions[id].value) &&
      s.redis.sessions[id].expiresAt == s.redis.sessions[id].value.expiresAt
  }

  predicate Expired(s: Sys, id: SessionId) {
    id in s.born && s.now >= s.born[id].expiresAt
  }

  /** The blacklist entry of a revoked session lasts at least as long as the session. */
  predicate EntriesOutlive(s: Sys) {
    forall id | id in s.revoked ::
      id in s.born &&
      (Expired(s, id) || (id in s.redis.blacklist && s.redis.blacklist[id] >= s.born[id].expiresAt))
  }

  predicate StageOk(s: Sys, asked: SessionId, late: bool, g: Stage) {
    match g
    case Checked => late ==> Expired(s, asked)
    case Fetched(v) => !late && Genuine(s, asked, v)
    case Holding(v, _) => !late && Genuine(s, asked, v)
    case Refreshed(v, w, _) => !late && Genuine(s, asked, v) && Genuine(s, asked, w)
    case Releasing(v, _) => !late && Genuine(s, asked, v)
    case Waiting(v, _) => !late && Genuine(s, asked, v)
    case Granted(v) => !late && Genuine(s, asked, v)
    case Rejected => true
  }

  predicate ThreadOk(s: Sys, th: Thread) {
    match th
    case Resolve(asked, late, _, g) => StageOk(s, asked, late, g)
    case Logout(of, step) =>
      Genuine(s, of.sessionId, of) && (step.Deleting? ==> step.kratosId == of.kratosId)
    case LogoutAll(of, progress) =>
      && Genuine(s, of.sessionId, of)
      && (progress.Listing? ==> OwnedBy(s, progress.todo, of.kratosId) && FoundOk(s, progress.found, of.kratosId))
      && (progress.Removing? ==> OwnedBy(s, progress.ids, of.kratosId))
    case Ended(_) => true
  }

  predicate FoundOk(s: Sys, found: seq<Session>, k: KratosId) {
    forall v | v in found :: Genuine(s, v.sessionId, v) && v.kratosId == k
  }

  predicate OwnedBy(s: Sys, ids: set<SessionId>, k: KratosId) {
    forall id | id in ids :: id in s.born && s.born[id].kratosId == k
  }

  predicate IndexOwned(s: Sys) {
    forall k | k in s.redis.index :: OwnedBy(s, s.redis.index[k].value, k)
  }

  predicate StoreOk(s: Sys) {
    StoredGenuine(s) && EntriesOutlive(s) && IndexOwned(s)
  }

  predicate Inv(s: Sys) {
    StoreOk(s) && forall t | t in s.threads :: ThreadOk(s, s.threads[t])
  }

  // ---------------------------------------------------------------- one step keeps it

  /** Time moves on and sessions are only ever added; nothing else matters to a thread. */
  predicate Later(s: Sys, s': Sys) {
    s.now <= s'.now && forall id | id in s.born :: id in s'.born && s'.born[id] == s.born[id]
  }

  lemma ThreadStaysOk(s: Sys, s': Sys, th: Thread)
    requires Later(s, s') && ThreadOk(s, th)
    ensures ThreadOk(s', th)
  {
  }

  lemma KeptByThread(s: Sys, s': Sys, t: ThreadId)
    requires Inv(s) && Later(s, s') && StoreOk(s')
    requires t in s'.threads && ThreadOk(s', s'.threads[t])
    requires forall u | u in s'.threads && u != t :: u in s.threads && s'.threads[u] == s.threads[u]
    ensures Inv(s')
  {
    forall u | u in s'.threads
      ensures ThreadOk(s', s'.threads[u])
    {
      if u != t {
        ThreadStaysOk(s, s', s.threads[u]);
      }
    }
  }

  lemma KeptByTick(s: Sys, d: nat)
    requires Inv(s)
    ensures Inv(s.(now := s.now + d))
  {
    var s' := s.(now := s.now + d);
    forall t | t in s'.threads
      ensures ThreadOk(s', s'.threads[t])
    {
      ThreadStaysOk(s, s', s.threads[t]);
    }
  }

  lemma KeptByLogin(s: Sys, sess: Session)
    requires Inv(s) && sess.sessionId !in s.born && sess.expiresAt > s.now
    ensures Inv(AfterLogin(s, sess))
  {
    var s' := AfterLogin(s, sess);
    forall t | t in s'.threads
      ensures ThreadOk(s', s'.threads[t])
    {
      ThreadStaysOk(s, s', s.threads[t]);
    }
  }

  /** A refresh writes back the session it read: same owner, same end. */
  lemma KeptByWriteBack(s: Sys, t: ThreadId, reply: Reply)
    requires Inv(s) && Resolving(s, t) && s.threads[t].stage.Refreshed?
    ensures Inv(AfterWriteBack(s, t, reply))
  {
    assert ThreadOk(s, s.threads[t]);
    KeptByThread(s, AfterWriteBack(s, t, reply), t);
  }

  lemma KeptByMarkRevoked(s: Sys, t: ThreadId, reply: Reply)
    requires Inv(s) && LoggingOut(s, t) && s.threads[t].step.Read?
    ensures Inv(AfterMarkRevoked(s, t, reply))
  {
    assert ThreadOk(s, s.threads[t]);
    KeptByThread(s, AfterMarkRevoked(s, t, reply), t);
  }

  /** One batch lifetime covers every session in the batch. */
  lemma KeptByMarkAll(s: Sys, t: ThreadId, reply: Reply)
    requires Inv(s) && LoggingOutAll(s, t) && s.threads[t].progress.Listing?
    ensures Inv(AfterMarkAll(s, t, reply))
  {
    var s' := AfterMarkAll(s, t, reply);
    var th := s.threads[t];
    assert ThreadOk(s, th);
    var found := th.progress.found;
    var ttl := MaxTtl(s.now, th.of, found);
    forall id | id in s'.revoked
      ensures id in s'.born
      ensures Expired(s', id) || (id in s'.redis.blacklist && s'.redis.blacklist[id] >= s'.born[id].expiresAt)
    {
      if Applied(reply) && id in Ids(found) {
        var v :| v in found && v.sessionId == id;
        assert ttl >= v.expiresAt - s.now;
      }
    }
    KeptByThread(s, s', t);
  }

  lemma KeptByDelete(s: Sys, a: Action, buffer: int)
    requires Inv(s) && Enabled(s, a, buffer) && (a.DeleteWrite? || a.PurgeWrite?)
    ensures Inv(Next(s, a, buffer))
  {
    KeptByThread(s, Next(s, a, buffer), a.t);
  }

  /** Steps that change no session, index or blacklist key. */
  predicate OnlyThread(a: Action) {
    !(a.Tick? || a.Login? || a.WriteBack? || a.MarkRevoked? || a.MarkAll? || a.DeleteWrite? || a.PurgeWrite?)
  }

  lemma OwnStepFrame(s: Sys, a: Action, buffer: int)
    requires Enabled(s, a, buffer) && OnlyThread(a)
    ensures var s' := Next(s, a, buffer);
      && s'.redis.(locks := s.redis.locks) == s.redis
      && s'.(redis := s.redis, threads := s.threads) == s
      && a.t in s'.threads && s'.threads == s.threads[a.t := s'.threads[a.t]]
  {
  }

  predicate ResolveAction(a: Action) {
    a.StartResolve? || a.ReadSession? || a.ReturnToken? || a.AskLock? || a.HydraRefresh? ||
    a.ReleaseLock? || a.Poll?
  }

  lemma ResolveThreadOk(s: Sys, a: Action, buffer: int)
    requires Inv(s) && Enabled(s, a, buffer) && ResolveAction(a)
    ensures a.t in Next(s, a, buffer).threads && ThreadOk(s, Next(s, a, buffer).threads[a.t])
  {
    if a.StartResolve? {
    } else if a.Poll? {
      PollThreadOk(s, a.t, a.fails, a.cancelled);
    } else {
      assert ThreadOk(s, s.threads[a.t]);
    }
  }

  lemma PollThreadOk(s: Sys, t: ThreadId, fails: bool, cancelled: bool)
    requires Inv(s) && Resolving(s, t) && s.threads[t].stage.Waiting?
    ensures ThreadOk(s, AfterPoll(s, t, fails, cancelled).threads[t])
  {
    assert ThreadOk(s, s.threads[t]);
  }

  lemma LogoutThreadOk(s: Sys, a: Action, buffer: int)
    requires Inv(s) && Enabled(s, a, buffer) && OnlyThread(a) && !ResolveAction(a)
    ensures a.t in Next(s, a, buffer).threads && ThreadOk(s, Next(s, a, buffer).threads[a.t])
  {
    if a.t in s.threads {
      assert ThreadOk(s, s.threads[a.t]);
    }
  }

  lemma KeptByOwnStep(s: Sys, a: Action, buffer: int)
    requires Inv(s) && Enabled(s, a, buffer) && OnlyThread(a)
    ensures Inv(Next(s, a, buffer))
  {
    OwnStepFrame(s, a, buffer);
    if ResolveAction(a) {
      ResolveThreadOk(s, a, buffer);
    } else {
      LogoutThreadOk(s, a, buffer);
    }
    KeptByFramedStep(s, Next(s, a, buffer), a.t);
  }

  lemma KeptByFramedStep(s: Sys, s': Sys, t: ThreadId)
    requires Inv(s) && s'.redis.(locks := s.redis.locks) == s.redis
    requires s'.(redis := s.redis, threads := s.threads) == s
    requires t in s'.threads && s'.threads == s.threads[t := s'.threads[t]] && ThreadOk(s, s'.threads[t])
    ensures Inv(s')
  {
    ThreadStaysOk(s, s', s'.threads[t]);
    KeptByThread(s, s', t);
  }

  lemma KeptByStep(s: Sys, a: Action, buffer: int)
    requires Inv(s) && Enabled(s, a, buffer)
    ensures Inv(Next(s, a, buffer))
  {
    if a.Tick? {
      KeptByTick(s, a.d);
    } else if a.Login? {
      KeptByLogin(s, a.sess);
    } else if a.WriteBack? {
      KeptByWriteBack(s, a.t, a.reply);
    } else if a.MarkRevoked? {
      KeptByMarkRevoked(s, a.t, a.reply);
    } else if a.MarkAll? {
      KeptByMarkAll(s, a.t, a.reply);
    } else if a.DeleteWrite? || a.PurgeWrite? {
      KeptByDelete(s, a, buffer);
    } else {
      KeptByOwnStep(s, a, buffer);
    }
  }

  lemma {:induction false} AlwaysInv(trace: seq<Action>, buffer: int)
    requires Runs(trace, buffer)
    ensures Inv(Run(trace, buffer))
  {
    if trace != [] {
      AlwaysInv(trace[..|trace| - 1], buffer);
      KeptByStep(Run(trace[..|trace| - 1], buffer), trace[|trace| - 1], buffer);
    }
  }

  /** No ResolveSession or WhoAmI whose check came after the session's blacklist write is
      ever granted. */
  lemma RevocationIsFinal(trace: seq<Action>, buffer: int, t: ThreadId)
    requires Runs(trace, buffer) && t in Run(trace, buffer).threads
    requires Run(trace, buffer).threads[t].Resolve? && Run(trace, buffer).threads[t].late
    ensures !Run(trace, buffer).threads[t].stage.Granted?
  {
    AlwaysInv(trace, buffer);
  }

  /** Whatever a ResolveSession returns, refreshed by itself or read after another caller's
      refresh, is the session it asked for, with the owner, device and end it was created
      with. */
  lemma GrantKeepsIdentity(trace: seq<Action>, buffer: int, t: ThreadId)
    requires Runs(trace, buffer) && t in Run(trace, buffer).threads
    requires Run(trace, buffer).threads[t].Resolve? && Run(trace, buffer).threads[t].stage.Granted?
    ensures var s := Run(trace, buffer);
      var v := s.threads[t].stage.sess;
      v.sessionId == s.threads[t].asked && v.sessionId in s.born && IdentityOf(v) == s.born[v.sessionId]
  {
    AlwaysInv(trace, buffer);
  }
}
