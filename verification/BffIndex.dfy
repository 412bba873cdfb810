/** The per-user session index, which LogoutAll relies on. In general it can lose a live
    session, in three ways; this module states, user by user, exactly when it does. */
module BffIndex {
  import opened Options
  import opened Sessions
  import opened BffProtocol
  import opened BffRevocation

  predicate LiveIn(s: Sys, id: SessionId) { Live(s.redis, s.now, id) }

  /** The index lists the session and will not expire before it. */
  predicate Indexed(s: Sys, id: SessionId)
    requires id in s.redis.sessions
  {
    var k := s.redis.sessions[id].value.kratosId;
    k in s.redis.index && id in s.redis.index[k].value && s.redis.index[k].expiresAt >= s.redis.sessions[id].expiresAt
  }

  /** Every live session of the user is indexed. */
  predicate Covered(s: Sys, k: KratosId) {
    forall id | id in LiveOf(s, k) :: Indexed(s, id)
  }

  /** A session listed in a live index, and not past its end, is in the store. */
  ghost predicate NoGhosts(s: Sys) {
    forall k, id | Listed(s, k, id) :: Expired(s, id) || LiveIn(s, id)
  }

  predicate Listed(s: Sys, k: KratosId, id: SessionId) {
    k in s.redis.index && s.now < s.redis.index[k].expiresAt && id in s.redis.index[k].value
  }

  /** When a step keeps the index of user k complete. Only three kinds of steps for that user
      matter: a login must not end before another live session (it would shorten the life of
      the whole index); a refresh must not write back a session that was deleted meanwhile;
      and the deletion of the index must not meet a session that was created after the ids
      were listed. */
  predicate Guard(s: Sys, a: Action, buffer: int, k: KratosId)
    requires Enabled(s, a, buffer)
  {
    match a
    case Login(sess) =>
      sess.kratosId == k ==> forall id | id in LiveOf(s, k) :: s.redis.sessions[id].expiresAt <= sess.expiresAt
    case WriteBack(t, reply) =>
      var v := s.threads[t].stage.renewed;
      v.kratosId == k && Applied(reply) && v.expiresAt > s.now ==> LiveIn(s, s.threads[t].asked)
    case PurgeWrite(t, reply) =>
      s.threads[t].of.kratosId == k && Applied(reply) ==> LiveOf(s, k) <= s.threads[t].progress.ids
    case _ => true
  }

  // ---------------------------------------------------------------- no ghosts, ever

  /** The other steps leave sessions and index alone. */
  lemma SameKeys(s: Sys, a: Action, buffer: int)
    requires Enabled(s, a, buffer)
    requires !(a.Tick? || a.Login? || a.WriteBack? || a.DeleteWrite? || a.PurgeWrite?)
    ensures var s' := Next(s, a, buffer);
      && s'.now == s.now && s'.born == s.born
      && s'.redis.sessions == s.redis.sessions && s'.redis.index == s.redis.index
  {
    if !a.MarkRevoked? && !a.MarkAll? {
      OwnStepFrame(s, a, buffer);
    }
  }

  lemma NoGhostsAfterLogin(s: Sys, sess: Session)
    requires Inv(s) && NoGhosts(s) && sess.sessionId !in s.born && sess.expiresAt > s.now
    ensures NoGhosts(AfterLogin(s, sess))
  {
    var s' := AfterLogin(s, sess);
    forall k, id | Listed(s', k, id)
      ensures Expired(s', id) || LiveIn(s', id)
    {
      if id != sess.sessionId {
        assert Listed(s, k, id);
      }
    }
  }

  lemma NoGhostsAfterDelete(s: Sys, a: Action, buffer: int)
    requires Inv(s) && NoGhosts(s) && Enabled(s, a, buffer) && (a.DeleteWrite? || a.PurgeWrite?)
    ensures NoGhosts(Next(s, a, buffer))
  {
    var s' := Next(s, a, buffer);
    assert ThreadOk(s, s.threads[a.t]);
    forall k, id | Listed(s', k, id)
      ensures Expired(s', id) || LiveIn(s', id)
    {
      assert Listed(s, k, id);
    }
  }

  lemma NoGhostsAfterWriteBack(s: Sys, t: ThreadId, reply: Reply)
    requires Inv(s) && NoGhosts(s) && Resolving(s, t) && s.threads[t].stage.Refreshed?
    ensures NoGhosts(AfterWriteBack(s, t, reply))
  {
    var s' := AfterWriteBack(s, t, reply);
    assert ThreadOk(s, s.threads[t]);
    forall k, id | Listed(s', k, id)
      ensures Expired(s', id) || LiveIn(s', id)
    {
      assert Listed(s, k, id);
    }
  }

  lemma NoGhostsAfterTick(s: Sys, d: nat)
    requires Inv(s) && NoGhosts(s)
    ensures NoGhosts(s.(now := s.now + d))
  {
    var s' := s.(now := s.now + d);
    forall k, id | Listed(s', k, id)
      ensures Expired(s', id) || LiveIn(s', id)
    {
      assert Listed(s, k, id);
    }
  }

  lemma SameKeysNoGhosts(s: Sys, s': Sys)
    requires NoGhosts(s) && s'.now == s.now && s'.born == s.born
    requires s'.redis.sessions == s.redis.sessions && s'.redis.index == s.redis.index
    ensures NoGhosts(s')
  {
    forall k, id | Listed(s', k, id)
      ensures Expired(s', id) || LiveIn(s', id)
    {
      assert Listed(s, k, id);
    }
  }

  lemma NoGhostsKept(s: Sys, a: Action, buffer: int)
    requires Inv(s) && NoGhosts(s) && Enabled(s, a, buffer)
    ensures NoGhosts(Next(s, a, buffer))
  {
    if a.Login? {
      NoGhostsAfterLogin(s, a.sess);
    } else if a.DeleteWrite? || a.PurgeWrite? {
      NoGhostsAfterDelete(s, a, buffer);
    } else if a.WriteBack? {
      NoGhostsAfterWriteBack(s, a.t, a.reply);
    } else if a.Tick? {
      NoGhostsAfterTick(s, a.d);
    } else {
      SameKeys(s, a, buffer);
      SameKeysNoGhosts(s, Next(s, a, buffer));
    }
  }

  // ---------------------------------------------------------------- the index, exactly

  lemma CoverAfterLogin(s: Sys, sess: Session, buffer: int, k: KratosId)
    requires Inv(s) && Covered(s, k) && Enabled(s, Login(sess), buffer)
    ensures Covered(AfterLogin(s, sess), k) <==> Guard(s, Login(sess), buffer, k)
  {
    var s' := AfterLogin(s, sess);
    forall id | id in LiveOf(s, k)
      ensures id != sess.sessionId && id in LiveOf(s', k)
      ensures Indexed(s', id) <==> (sess.kratosId == k ==> s.redis.sessions[id].expiresAt <= sess.expiresAt)
    {
      assert Indexed(s, id);
    }
  }

  lemma CoverAfterWriteBack(s: Sys, a: Action, buffer: int, k: KratosId)
    requires Inv(s) && NoGhosts(s) && Covered(s, k) && Enabled(s, a, buffer) && a.WriteBack?
    ensures Covered(Next(s, a, buffer), k) <==> Guard(s, a, buffer, k)
  {
    var s' := Next(s, a, buffer);
    var id, v := s.threads[a.t].asked, s.threads[a.t].stage.renewed;
    assert ThreadOk(s, s.threads[a.t]);
    var effective := Applied(a.reply) && v.expiresAt > s.now && v.kratosId == k;
    forall other | other in LiveOf(s', k) && (effective ==> other != id)
      ensures Indexed(s', other)
    {
      assert other in LiveOf(s, k) && Indexed(s, other);
    }
    if effective {
      assert id in LiveOf(s', k);
      if LiveIn(s, id) {
        assert id in LiveOf(s, k) && Indexed(s, id);
      } else {
        assert !Listed(s, k, id);
        assert !Indexed(s', id);
      }
    }
  }

  lemma CoverAfterPurge(s: Sys, a: Action, buffer: int, k: KratosId)
    requires Inv(s) && Covered(s, k) && Enabled(s, a, buffer) && a.PurgeWrite?
    ensures Covered(Next(s, a, buffer), k) <==> Guard(s, a, buffer, k)
  {
    var s' := Next(s, a, buffer);
    var th := s.threads[a.t];
    if !Applied(a.reply) {
      SameKeysCovered(s, s', k);
    } else {
      forall id | id in LiveOf(s', k)
        ensures id in LiveOf(s, k) && id !in th.progress.ids
        ensures Indexed(s', id) <==> th.of.kratosId != k
      {
        assert id in LiveOf(s, k) && Indexed(s, id);
      }
      forall id | id in LiveOf(s, k) && id !in th.progress.ids
        ensures id in LiveOf(s', k)
      {
      }
    }
  }

  lemma CoverAfterDelete(s: Sys, a: Action, buffer: int, k: KratosId)
    requires Inv(s) && Covered(s, k) && Enabled(s, a, buffer) && a.DeleteWrite?
    ensures Covered(Next(s, a, buffer), k)
  {
    var s' := Next(s, a, buffer);
    assert ThreadOk(s, s.threads[a.t]);
    forall id | id in LiveOf(s', k)
      ensures Indexed(s', id)
    {
      assert id in LiveOf(s, k) && Indexed(s, id);
    }
  }

  lemma CoverAfterTick(s: Sys, d: nat, k: KratosId)
    requires Covered(s, k)
    ensures Covered(s.(now := s.now + d), k)
  {
    var s' := s.(now := s.now + d);
    forall id | id in LiveOf(s', k)
      ensures Indexed(s', id)
    {
      assert id in LiveOf(s, k) && Indexed(s, id);
    }
  }

  lemma SameKeysCovered(s: Sys, s': Sys, k: KratosId)
    requires s'.now == s.now && s'.redis.sessions == s.redis.sessions && s'.redis.index == s.redis.index
    ensures Covered(s, k) <==> Covered(s', k)
  {
    assert LiveOf(s, k) == LiveOf(s', k);
  }

  /** A user's complete index stays complete exactly when the step's guard holds. */
  lemma IndexCompleteIff(s: Sys, a: Action, buffer: int, k: KratosId)
    requires Inv(s) && NoGhosts(s) && Covered(s, k) && Enabled(s, a, buffer)
    ensures Covered(Next(s, a, buffer), k) <==> Guard(s, a, buffer, k)
  {
    if a.Login? {
      CoverAfterLogin(s, a.sess, buffer, k);
    } else if a.WriteBack? {
      CoverAfterWriteBack(s, a, buffer, k);
    } else if a.PurgeWrite? {
      CoverAfterPurge(s, a, buffer, k);
    } else if a.DeleteWrite? {
      CoverAfterDelete(s, a, buffer, k);
    } else if a.Tick? {
      CoverAfterTick(s, a.d, k);
    } else {
      SameKeys(s, a, buffer);
      SameKeysCovered(s, Next(s, a, buffer), k);
    }
  }

  /** The last step of LogoutAll leaves the user without live session and without index
      exactly when it met no session created after the ids were listed. */
  lemma PurgeEmptiesUserIff(s: Sys, a: Action, buffer: int)
    requires Inv(s) && Enabled(s, a, buffer) && a.PurgeWrite? && Applied(a.reply)
    ensures var s', th := Next(s, a, buffer), s.threads[a.t];
      var k := th.of.kratosId;
      Members(s'.redis, s'.now, k) == {} && (LiveOf(s', k) == {} <==> LiveOf(s, k) <= th.progress.ids)
  {
    var s', th := Next(s, a, buffer), s.threads[a.t];
    forall id | id in LiveOf(s, th.of.kratosId) && id !in th.progress.ids
      ensures id in LiveOf(s', th.of.kratosId)
    {
    }
  }

  /** Logout's deletion takes the session out of the store and out of the index. */
  lemma DeleteRemovesSession(s: Sys, a: Action, buffer: int)
    requires Inv(s) && Enabled(s, a, buffer) && a.DeleteWrite? && Applied(a.reply)
    ensures var s', of := Next(s, a, buffer), s.threads[a.t].of;
      && !LiveIn(s', of.sessionId)
      && forall k :: of.sessionId !in Members(s'.redis, s'.now, k)
  {
    var s', of := Next(s, a, buffer), s.threads[a.t].of;
    assert ThreadOk(s, s.threads[a.t]);
    forall k
      ensures of.sessionId !in Members(s'.redis, s'.now, k)
    {
      if k in s.redis.index && of.sessionId in s.redis.index[k].value {
        assert OwnedBy(s, s.redis.index[k].value, k);
      }
    }
  }

  // ---------------------------------------------------------------- guarded runs

  /** Every step of the run satisfies its guard for user k. */
  ghost predicate Disciplined(trace: seq<Action>, buffer: int, k: KratosId)
    requires Runs(trace, buffer)
    decreases |trace|
  {
    trace == [] ||
    (Disciplined(trace[..|trace| - 1], buffer, k) &&
     Guard(Run(trace[..|trace| - 1], buffer), trace[|trace| - 1], buffer, k))
  }

  /** Every live session of a user is in the user's index, in every state of every run whose
      steps for that user are guarded. */
  lemma {:induction false} IndexAlwaysComplete(trace: seq<Action>, buffer: int, k: KratosId)
    requires Runs(trace, buffer) && Disciplined(trace, buffer, k)
    ensures Inv(Run(trace, buffer)) && NoGhosts(Run(trace, buffer)) && Covered(Run(trace, buffer), k)
  {
    AlwaysInv(trace, buffer);
    if trace != [] {
      var s := Run(trace[..|trace| - 1], buffer);
      IndexAlwaysComplete(trace[..|trace| - 1], buffer, k);
      NoGhostsKept(s, trace[|trace| - 1], buffer);
      IndexCompleteIff(s, trace[|trace| - 1], buffer, k);
    }
  }

  /** A complete index tells a LogoutAll about every live session. */
  lemma CoveredIsListed(s: Sys, k: KratosId, id: SessionId)
    requires Covered(s, k) && id in LiveOf(s, k)
    ensures id in Members(s.redis, s.now, k)
  {
    assert Indexed(s, id);
  }

  // ---------------------------------------------------------------- one lifetime for all

  /** Every login of the user in the run lasts `ttl`, and the user's refreshes and index
      deletions are guarded. */
  ghost predicate OneTtl(trace: seq<Action>, buffer: int, k: KratosId, ttl: int)
    requires Runs(trace, buffer)
    decreases |trace|
  {
    trace == [] ||
    (var s, a := Run(trace[..|trace| - 1], buffer), trace[|trace| - 1];
     && OneTtl(trace[..|trace| - 1], buffer, k, ttl)
     && (if a.Login? then a.sess.kratosId == k ==> a.sess.expiresAt == s.now + ttl else Guard(s, a, buffer, k)))
  }

  predicate EndWithin(s: Sys, k: KratosId, ttl: int) {
    forall id | id in s.born && s.born[id].kratosId == k :: s.born[id].expiresAt <= s.now + ttl
  }

  lemma StepEndsWithin(s: Sys, a: Action, buffer: int, k: KratosId, ttl: int)
    requires EndWithin(s, k, ttl) && Enabled(s, a, buffer)
    requires a.Login? && a.sess.kratosId == k ==> a.sess.expiresAt == s.now + ttl
    ensures EndWithin(Next(s, a, buffer), k, ttl)
  {
    if OnlyThread(a) {
      OwnStepFrame(s, a, buffer);
      assert Next(s, a, buffer).born == s.born && Next(s, a, buffer).now == s.now;
    }
  }

  /** When all sessions of a user share one lifetime, no login shortens the index. */
  lemma OneTtlMakesLoginSafe(s: Sys, a: Action, buffer: int, k: KratosId, ttl: int)
    requires Inv(s) && EndWithin(s, k, ttl) && Enabled(s, a, buffer)
    requires if a.Login? then a.sess.kratosId == k ==> a.sess.expiresAt == s.now + ttl else Guard(s, a, buffer, k)
    ensures Guard(s, a, buffer, k)
  {
  }

  lemma {:induction false} OneTtlIsDisciplined(trace: seq<Action>, buffer: int, k: KratosId, ttl: int)
    requires Runs(trace, buffer) && OneTtl(trace, buffer, k, ttl)
    ensures EndWithin(Run(trace, buffer), k, ttl) && Disciplined(trace, buffer, k)
  {
    if trace != [] {
      var before, a := trace[..|trace| - 1], trace[|trace| - 1];
      OneTtlIsDisciplined(before, buffer, k, ttl);
      AlwaysInv(before, buffer);
      StepEndsWithin(Run(before, buffer), a, buffer, k, ttl);
      OneTtlMakesLoginSafe(Run(before, buffer), a, buffer, k, ttl);
    }
  }

  /** So when all sessions of a user share one lifetime, and the user's refreshes write back
      only sessions that are still there, and index deletions meet no new session, the index
      lists every live session of the user in every state of the run. */
  lemma OneTtlKeepsIndexComplete(trace: seq<Action>, buffer: int, k: KratosId, ttl: int)
    requires Runs(trace, buffer) && OneTtl(trace, buffer, k, ttl)
    ensures var s := Run(trace, buffer);
      Covered(s, k) && forall id | id in LiveOf(s, k) :: id in Members(s.redis, s.now, k)
  {
    OneTtlIsDisciplined(trace, buffer, k, ttl);
    IndexAlwaysComplete(trace, buffer, k);
    var s := Run(trace, buffer);
    forall id | id in LiveOf(s, k)
      ensures id in Members(s.redis, s.now, k)
    {
      CoveredIsListed(s, k, id);
    }
  }
}
