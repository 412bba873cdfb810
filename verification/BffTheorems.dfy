/** The two revocation guarantees of the BFF, stated over a run cut in two: what happened up
    to the blacklist write, and anything that may follow it. */
module BffTheorems {
  import opened Options
  import opened Sessions
  import opened BffProtocol
  import opened BffRevocation
  import opened BffIndex
  import opened BffLogoutAll

  lemma StepKeepsSets(s: Sys, a: Action, buffer: int)
    requires Enabled(s, a, buffer)
    ensures s.revoked <= Next(s, a, buffer).revoked
  {
    if OnlyThread(a) {
      OwnStepFrame(s, a, buffer);
    }
  }

  /** A thread's question and what was known when it made its check never change. */
  lemma StepKeepsFlags(s: Sys, a: Action, buffer: int, t: ThreadId)
    requires Enabled(s, a, buffer) && Resolving(Next(s, a, buffer), t)
    ensures var th := Next(s, a, buffer).threads[t];
      && (t in s.threads ==> s.threads[t].Resolve? && th.(stage := s.threads[t].stage) == s.threads[t])
      && (t !in s.threads ==> th.late == (th.asked in s.revoked))
  {
    if a.Tick? || a.Login? || a.t != t {
      OthersKeepThreads(s, a, buffer, t);
    }
  }

  lemma {:induction false} CutRun(before: seq<Action>, after: seq<Action>, buffer: int)
    requires Runs(before + after, buffer)
    ensures Runs(before, buffer)
    decreases |after|
  {
    if after == [] {
      assert before + after == before;
    } else {
      assert (before + after)[..|before + after| - 1] == before + after[..|after| - 1];
      CutRun(before, after[..|after| - 1], buffer);
    }
  }

  /** A call that starts after a point knows everything revoked by then. */
  lemma {:induction false} LaterCallsKnow(before: seq<Action>, after: seq<Action>, buffer: int, t: ThreadId)
    requires Runs(before + after, buffer) && Runs(before, buffer)
    requires t !in Run(before, buffer).threads
    ensures var s, s' := Run(before, buffer), Run(before + after, buffer);
      && s.revoked <= s'.revoked
      && (Resolving(s', t) && s'.threads[t].asked in s.revoked ==> s'.threads[t].late)
    decreases |after|
  {
    if after == [] {
      assert before + after == before;
    } else {
      var shorter := before + after[..|after| - 1];
      assert (before + after)[..|before + after| - 1] == shorter;
      LaterCallsKnow(before, after[..|after| - 1], buffer, t);
      StepKeepsSets(Run(shorter, buffer), after[|after| - 1], buffer);
      if Resolving(Run(before + after, buffer), t) {
        StepKeepsFlags(Run(shorter, buffer), after[|after| - 1], buffer, t);
      }
    }
  }

  /** Let a Logout write the blacklist entry of a session at the end of `before`. Whatever
      follows, in whatever interleaving, failing or not, a ResolveSession or WhoAmI for that
      session that starts afterwards is never granted. */
  lemma NoGrantAfterLogout(before: seq<Action>, logout: ThreadId, reply: Reply, after: seq<Action>, buffer: int, t: ThreadId)
    requires Runs(before, buffer) && LoggingOut(Run(before, buffer), logout)
    requires Run(before, buffer).threads[logout].step.Read? && Applied(reply)
    requires Runs(before + [MarkRevoked(logout, reply)] + after, buffer)
    requires t !in Run(before, buffer).threads
    ensures var s' := Run(before + [MarkRevoked(logout, reply)] + after, buffer);
      Resolving(s', t) && s'.threads[t].asked == Run(before, buffer).threads[logout].of.sessionId ==>
      !s'.threads[t].stage.Granted?
  {
    var marked := before + [MarkRevoked(logout, reply)];
    CutRun(marked, after, buffer);
    assert marked[..|marked| - 1] == before;
    LaterCallsKnow(marked, after, buffer, t);
    AlwaysInv(marked + after, buffer);
  }

  /** Let a LogoutAll read the index at the end of `before`, and write its batch after `mid`.
      Whatever follows, a call for a session in the index it read that starts after the batch
      write is never granted, if the LogoutAll found the session, or if no refresh brings it
      back after somebody else deleted it, unmarked or while a call waits that was past its
      check before it was marked. What happens to any other session does not matter. */
  lemma NoGrantAfterLogoutAll(before: seq<Action>, logout: ThreadId, mid: seq<Action>, reply: Reply, after: seq<Action>,
                              buffer: int, id: SessionId, t: ThreadId)
    requires Runs(before, buffer) && Enabled(Run(before, buffer), ListUser(logout, false), buffer)
    requires var s := Run(before, buffer); id in Members(s.redis, s.now, s.threads[logout].of.kratosId)
    requires Runs(before + [ListUser(logout, false)] + mid, buffer)
    requires Enabled(Run(before + [ListUser(logout, false)] + mid, buffer), MarkAll(logout, reply), buffer) && Applied(reply)
    requires Runs(before + [ListUser(logout, false)] + mid + [MarkAll(logout, reply)] + after, buffer)
    requires
      || id in Ids(Run(before + [ListUser(logout, false)] + mid, buffer).threads[logout].progress.found)
      || (NeverLost(before + [ListUser(logout, false)], mid, buffer, logout, id) &&
          NeverHarmed(before + [ListUser(logout, false)] + mid + [MarkAll(logout, reply)], after, buffer,
                      Run(before + [ListUser(logout, false)] + mid, buffer).threads.Keys, id))
    requires t !in Run(before + [ListUser(logout, false)] + mid, buffer).threads
    ensures var s' := Run(before + [ListUser(logout, false)] + mid + [MarkAll(logout, reply)] + after, buffer);
      Resolving(s', t) && s'.threads[t].asked == id ==> !s'.threads[t].stage.Granted?
  {
    var listed := before + [ListUser(logout, false)];
    var marked := listed + mid + [MarkAll(logout, reply)];
    CutRun(marked, after, buffer);
    assert marked[..|marked| - 1] == listed + mid;
    if id in Ids(Run(listed + mid, buffer).threads[logout].progress.found) {
      LaterCallsKnow(marked, after, buffer, t);
      AlwaysInv(marked + after, buffer);
    } else {
      SettledByLogoutAll(before, logout, mid, reply, buffer, id);
      var earlier := Run(listed + mid, buffer).threads.Keys;
      assert Run(marked, buffer).threads.Keys == earlier;
      EarlierThreads(Run(marked, buffer), id);
      StaysBarred(marked, after, buffer, earlier, id);
    }
  }

  lemma EarlierThreads(s: Sys, id: SessionId)
    requires Settled(s, id)
    ensures Barred(s, s.threads.Keys, id)
  {
  }

  lemma SettledByLogoutAll(before: seq<Action>, logout: ThreadId, mid: seq<Action>, reply: Reply, buffer: int, id: SessionId)
    requires Runs(before, buffer) && Enabled(Run(before, buffer), ListUser(logout, false), buffer)
    requires var s := Run(before, buffer); id in Members(s.redis, s.now, s.threads[logout].of.kratosId)
    requires Runs(before + [ListUser(logout, false)] + mid, buffer)
    requires Enabled(Run(before + [ListUser(logout, false)] + mid, buffer), MarkAll(logout, reply), buffer) && Applied(reply)
    requires NeverLost(before + [ListUser(logout, false)], mid, buffer, logout, id)
    ensures var marked := before + [ListUser(logout, false)] + mid + [MarkAll(logout, reply)];
      Runs(marked, buffer) && Settled(Run(marked, buffer), id)
  {
    var listed := before + [ListUser(logout, false)];
    var marked := listed + mid + [MarkAll(logout, reply)];
    CutRun(listed, mid, buffer);
    assert listed[..|listed| - 1] == before;
    AlwaysInv(before, buffer);
    ListUserTracks(Run(before, buffer), logout, buffer, id);
    StaysTracked(listed, mid, buffer, logout, id);
    assert marked[..|marked| - 1] == listed + mid;
    MarkAllSettles(Run(listed + mid, buffer), logout, reply, buffer, id);
  }

  /** The condition is exact. If the session is not settled by the batch write, the next call
      is granted; if it is, and `after` does no harm, the next step lets a call that started
      after the batch write be granted exactly if it harms. */
  lemma GrantAfterLogoutAllIff(marked: seq<Action>, after: seq<Action>, a: Action, buffer: int, id: SessionId, t: ThreadId)
    requires Runs(marked, buffer) && Runs(marked + after, buffer) && id in Run(marked, buffer).born
    requires Enabled(Run(marked + after, buffer), a, buffer) && t !in Next(Run(marked + after, buffer), a, buffer).threads
    requires NeverHarmed(marked, after, buffer, Run(marked, buffer).threads.Keys, id)
    ensures !Settled(Run(marked, buffer), id) && t !in Run(marked, buffer).threads ==>
      AfterCall(Run(marked, buffer), t, id, buffer).Granted?
    ensures Settled(Run(marked, buffer), id) ==>
      var earlier, s' := Run(marked, buffer).threads.Keys, Next(Run(marked + after, buffer), a, buffer);
      Harms(Run(marked + after, buffer), a, buffer, earlier, id) <==> GrantPossible(s', earlier, id, t, buffer)
  {
    AlwaysInv(marked, buffer);
    AlwaysEntriesMarked(marked, buffer);
    if !Settled(Run(marked, buffer), id) {
      if t !in Run(marked, buffer).threads {
        NextCallGrantedIff(Run(marked, buffer), t, id, buffer);
      }
    } else {
      var earlier, s := Run(marked, buffer).threads.Keys, Run(marked + after, buffer);
      EarlierThreads(Run(marked, buffer), id);
      StaysBarred(marked, after, buffer, earlier, id);
      AlwaysInv(marked + after, buffer);
      AlwaysEntriesMarked(marked + after, buffer);
      HarmsIffGrantPossible(s, a, buffer, earlier, id, t);
    }
  }

  /** A call outside `earlier` can be granted the session: the new call t, or one that is past
      its check, or one that already was. */
  predicate GrantPossible(s: Sys, earlier: set<ThreadId>, id: SessionId, t: ThreadId, buffer: int)
    requires t !in s.threads
  {
    || AfterCall(s, t, id, buffer).Granted?
    || exists u | u in s.threads && u !in earlier && Resolving(s, u) && s.threads[u].asked == id ::
         s.threads[u].stage.Granted? || (s.threads[u].stage.Checked? && CanBeGranted(s, u, buffer))
  }

  lemma HarmsIffGrantPossible(s: Sys, a: Action, buffer: int, earlier: set<ThreadId>, id: SessionId, t: ThreadId)
    requires Inv(s) && EntriesMarked(s) && Barred(s, earlier, id) && Enabled(s, a, buffer)
    requires t !in Next(s, a, buffer).threads
    ensures Harms(s, a, buffer, earlier, id) <==> GrantPossible(Next(s, a, buffer), earlier, id, t, buffer)
  {
    var s' := Next(s, a, buffer);
    if Harms(s, a, buffer, earlier, id) {
      HarmIsGranted(s, a, buffer, earlier, id, t);
    } else {
      BarredIff(s, a, buffer, earlier, id);
      KeptByStep(s, a, buffer);
      EntriesMarkedKept(s, a, buffer);
      BarredIsNotGranted(s', earlier, id, t, buffer);
    }
  }

  lemma BarredIsNotGranted(s: Sys, earlier: set<ThreadId>, id: SessionId, t: ThreadId, buffer: int)
    requires Inv(s) && EntriesMarked(s) && Barred(s, earlier, id) && t !in s.threads
    ensures !GrantPossible(s, earlier, id, t, buffer)
  {
    NextCallGrantedIff(s, t, id, buffer);
    forall u | u in s.threads && u !in earlier && Resolving(s, u) && s.threads[u].asked == id && s.threads[u].stage.Checked?
      ensures !CanBeGranted(s, u, buffer)
    {
      assert BarredThread(s, s.threads[u], id) && ThreadOk(s, s.threads[u]);
    }
  }

  /** When all sessions of a user share one lifetime, and the user's refreshes and index
      deletions are guarded, a LogoutAll bars every session its user had when it read the
      index. */
  lemma LogoutAllEndsEverySession(before: seq<Action>, logout: ThreadId, mid: seq<Action>, reply: Reply, after: seq<Action>,
                                  buffer: int, ttl: int, id: SessionId, t: ThreadId)
    requires Runs(before, buffer) && Enabled(Run(before, buffer), ListUser(logout, false), buffer)
    requires OneTtl(before, buffer, Run(before, buffer).threads[logout].of.kratosId, ttl)
    requires id in LiveOf(Run(before, buffer), Run(before, buffer).threads[logout].of.kratosId)
    requires Runs(before + [ListUser(logout, false)] + mid, buffer)
    requires Enabled(Run(before + [ListUser(logout, false)] + mid, buffer), MarkAll(logout, reply), buffer) && Applied(reply)
    requires Runs(before + [ListUser(logout, false)] + mid + [MarkAll(logout, reply)] + after, buffer)
    requires
      || id in Ids(Run(before + [ListUser(logout, false)] + mid, buffer).threads[logout].progress.found)
      || (NeverLost(before + [ListUser(logout, false)], mid, buffer, logout, id) &&
          NeverHarmed(before + [ListUser(logout, false)] + mid + [MarkAll(logout, reply)], after, buffer,
                      Run(before + [ListUser(logout, false)] + mid, buffer).threads.Keys, id))
    requires t !in Run(before + [ListUser(logout, false)] + mid, buffer).threads
    ensures var s' := Run(before + [ListUser(logout, false)] + mid + [MarkAll(logout, reply)] + after, buffer);
      Resolving(s', t) && s'.threads[t].asked == id ==> !s'.threads[t].stage.Granted?
  {
    OneTtlKeepsIndexComplete(before, buffer, Run(before, buffer).threads[logout].of.kratosId, ttl);
    NoGrantAfterLogoutAll(before, logout, mid, reply, after, buffer, id, t);
  }

  /** A session that is neither blacklisted nor near the end of its token is granted as it is
      stored: a call that starts now and is not disturbed returns exactly it. */
  lemma LiveSessionIsGranted(s: Sys, t: ThreadId, v: Session, buffer: int)
    requires t !in s.threads && Get(s.redis, s.now, v.sessionId) == Some(v)
    requires !Blacklisted(s.redis, s.now, v.sessionId) && v.accessExp - s.now >= buffer
    ensures var s1 := Next(s, StartResolve(t, v.sessionId, false, false), buffer);
      && Enabled(s1, ReadSession(t, false), buffer)
      && var s2 := Next(s1, ReadSession(t, false), buffer);
      && Enabled(s2, ReturnToken(t), buffer)
      && Next(s2, ReturnToken(t), buffer).threads[t].stage == Granted(v)
  {
  }

  /** A refresh that goes through delivers the new tokens to its caller, stores the same
      session for everyone else, and gives the lock back. */
  lemma RefreshDelivers(s: Sys, t: ThreadId, tokens: Tokens, buffer: int)
    requires Inv(s) && Resolving(s, t) && s.threads[t].stage.Holding? && s.threads[t].stage.sess.expiresAt > s.now
    ensures var s1 := Next(s, HydraRefresh(t, Some(tokens)), buffer);
      && Enabled(s1, WriteBack(t, Done), buffer)
      && var s2 := Next(s1, WriteBack(t, Done), buffer);
      && Enabled(s2, ReleaseLock(t, Done), buffer)
      && var s3 := Next(s2, ReleaseLock(t, Done), buffer);
      && s3.threads[t].stage.Granted?
      && var v := s3.threads[t].stage.sess;
      && v.accessToken == tokens.access && v.refreshToken == tokens.refresh && v.accessExp == tokens.accessExp
      && IdentityOf(v) == IdentityOf(s.threads[t].stage.sess)
      && Get(s3.redis, s3.now, s.threads[t].asked) == Some(v)
      && !Locked(s3.redis, s3.now, s.threads[t].asked)
  {
    assert ThreadOk(s, s.threads[t]);
  }
}
