/** What the answers of whole calls promise: a Logout or LogoutAll that ends without an error
    has revoked what it was asked to revoke, and a ResolveSession or WhoAmI that could not
    read the blacklist or the session is never granted. */
module BffCompletion {
  import opened Options
  import opened Sessions
  import opened BffProtocol
  import opened BffRevocation
  import opened BffIndex
  import opened BffLogoutAll
  import opened BffTheorems

  // ---------------------------------------------------------------- Logout

  /** Thread t is a Logout of the session: before its blacklist write, or after it with the
      session revoked; it ends without an error only with the session revoked. */
  predicate Revoking(s: Sys, t: ThreadId, id: SessionId) {
    && t in s.threads
    && match s.threads[t]
       case Logout(of, step) => of.sessionId == id && (step.Read? || id in s.revoked)
       case Ended(ok) => ok ==> id in s.revoked
       case _ => false
  }

  lemma RevokingKept(s: Sys, a: Action, buffer: int, t: ThreadId, id: SessionId)
    requires Enabled(s, a, buffer) && Revoking(s, t, id)
    ensures Revoking(Next(s, a, buffer), t, id)
  {
    StepKeepsSets(s, a, buffer);
    if a.Tick? || a.Login? || a.t != t {
      OthersKeepThreads(s, a, buffer, t);
    }
  }

  lemma {:induction false} StaysRevoking(base: seq<Action>, more: seq<Action>, buffer: int, t: ThreadId, id: SessionId)
    requires Runs(base, buffer) && Runs(base + more, buffer) && Revoking(Run(base, buffer), t, id)
    ensures Revoking(Run(base + more, buffer), t, id)
    decreases |more|
  {
    if more == [] {
      assert base + more == base;
    } else {
      var shorter := base + more[..|more| - 1];
      assert (base + more)[..|base + more| - 1] == shorter;
      StaysRevoking(base, more[..|more| - 1], buffer, t, id);
      RevokingKept(Run(shorter, buffer), more[|more| - 1], buffer, t, id);
    }
  }

  /** In every run: a Logout that found its session and has ended without an error has written
      the blacklist entry. */
  lemma CompletedLogoutRevoked(before: seq<Action>, logout: ThreadId, id: SessionId, mid: seq<Action>, buffer: int)
    requires Runs(before, buffer) && logout !in Run(before, buffer).threads && LiveIn(Run(before, buffer), id)
    requires Runs(before + [StartLogout(logout, id, false)] + mid, buffer)
    ensures var s := Run(before + [StartLogout(logout, id, false)] + mid, buffer);
      && logout in s.threads
      && (s.threads[logout] == Ended(true) ==> id in s.revoked)
      && (s.threads[logout].Logout? && !s.threads[logout].step.Read? ==> id in s.revoked)
  {
    var started := before + [StartLogout(logout, id, false)];
    CutRun(started, mid, buffer);
    assert started[..|started| - 1] == before;
    AlwaysInv(before, buffer);
    StaysRevoking(started, mid, buffer, logout, id);
  }

  /** So whatever follows, no ResolveSession or WhoAmI for the session that starts after the
      Logout has ended without an error is granted. */
  lemma NoGrantAfterCompletedLogout(before: seq<Action>, logout: ThreadId, id: SessionId, mid: seq<Action>,
                                    after: seq<Action>, buffer: int, t: ThreadId)
    requires Runs(before, buffer) && logout !in Run(before, buffer).threads && LiveIn(Run(before, buffer), id)
    requires Runs(before + [StartLogout(logout, id, false)] + mid, buffer)
    requires var s := Run(before + [StartLogout(logout, id, false)] + mid, buffer);
      logout in s.threads && s.threads[logout] == Ended(true) && t !in s.threads
    requires Runs(before + [StartLogout(logout, id, false)] + mid + after, buffer)
    ensures var s' := Run(before + [StartLogout(logout, id, false)] + mid + after, buffer);
      Resolving(s', t) && s'.threads[t].asked == id ==> !s'.threads[t].stage.Granted?
  {
    CompletedLogoutRevoked(before, logout, id, mid, buffer);
    var ended := before + [StartLogout(logout, id, false)] + mid;
    LaterCallsKnow(ended, after, buffer, t);
    AlwaysInv(ended + after, buffer);
  }

  // ---------------------------------------------------------------- LogoutAll

  /** Thread t is a LogoutAll that has not read the index yet, or failed. */
  predicate Unlisted(s: Sys, t: ThreadId) {
    t in s.threads && ((s.threads[t].LogoutAll? && s.threads[t].progress.Started?) || s.threads[t] == Ended(false))
  }

  lemma UnlistedKept(s: Sys, a: Action, buffer: int, t: ThreadId)
    requires Enabled(s, a, buffer) && Unlisted(s, t) && a != ListUser(t, false)
    ensures Unlisted(Next(s, a, buffer), t)
  {
    if a.Tick? || a.Login? || a.t != t {
      OthersKeepThreads(s, a, buffer, t);
    }
  }

  lemma {:induction false} StaysUnlisted(base: seq<Action>, more: seq<Action>, buffer: int, t: ThreadId)
    requires Runs(base, buffer) && Runs(base + more, buffer) && Unlisted(Run(base, buffer), t)
    requires ListUser(t, false) !in more
    ensures Unlisted(Run(base + more, buffer), t)
    decreases |more|
  {
    if more == [] {
      assert base + more == base;
    } else {
      var shorter, last := base + more[..|more| - 1], more[|more| - 1];
      assert (base + more)[..|base + more| - 1] == shorter;
      assert last in more && forall a | a in more[..|more| - 1] :: a in more;
      StaysUnlisted(base, more[..|more| - 1], buffer, t);
      UnlistedKept(Run(shorter, buffer), last, buffer, t);
    }
  }

  /** A LogoutAll that found its session and has ended without an error has read the index. */
  lemma CompletedLogoutAllListed(before: seq<Action>, logout: ThreadId, id: SessionId, mid: seq<Action>, buffer: int)
    requires Runs(before, buffer) && logout !in Run(before, buffer).threads && LiveIn(Run(before, buffer), id)
    requires Runs(before + [StartLogoutAll(logout, id, false)] + mid, buffer)
    requires var s := Run(before + [StartLogoutAll(logout, id, false)] + mid, buffer);
      logout in s.threads && s.threads[logout] == Ended(true)
    ensures ListUser(logout, false) in mid
  {
    var started := before + [StartLogoutAll(logout, id, false)];
    CutRun(started, mid, buffer);
    assert started[..|started| - 1] == before;
    if ListUser(logout, false) !in mid {
      StaysUnlisted(started, mid, buffer, logout);
    }
  }

  /** And whatever follows, no ResolveSession or WhoAmI that starts after it has ended without
      an error is granted a session that was in the index it read, if the session is revoked or
      under the condition of `NoGrantAfterLogoutAll`: a LogoutAll cannot end without an error unless its batch is
      written. */
  lemma NoGrantAfterCompletedLogoutAll(before: seq<Action>, logout: ThreadId, mid: seq<Action>, after: seq<Action>,
                                       buffer: int, id: SessionId, t: ThreadId)
    requires Runs(before, buffer) && Enabled(Run(before, buffer), ListUser(logout, false), buffer)
    requires var s := Run(before, buffer); id in Members(s.redis, s.now, s.threads[logout].of.kratosId)
    requires Runs(before + [ListUser(logout, false)] + mid, buffer)
    requires var s := Run(before + [ListUser(logout, false)] + mid, buffer);
      logout in s.threads && s.threads[logout] == Ended(true) && t !in s.threads
    requires Runs(before + [ListUser(logout, false)] + mid + after, buffer)
    requires
      || id in Run(before + [ListUser(logout, false)] + mid, buffer).revoked
      || (NeverLost(before + [ListUser(logout, false)], mid, buffer, logout, id) &&
          NeverHarmed(before + [ListUser(logout, false)] + mid, after, buffer,
                      Run(before + [ListUser(logout, false)] + mid, buffer).threads.Keys, id))
    ensures var s' := Run(before + [ListUser(logout, false)] + mid + after, buffer);
      Resolving(s', t) && s'.threads[t].asked == id ==> !s'.threads[t].stage.Granted?
  {
    var listed := before + [ListUser(logout, false)];
    var ended := listed + mid;
    if id in Run(ended, buffer).revoked {
      LaterCallsKnow(ended, after, buffer, t);
      AlwaysInv(ended + after, buffer);
    } else {
      CutRun(listed, mid, buffer);
      assert listed[..|listed| - 1] == before;
      AlwaysInv(before, buffer);
      ListUserTracks(Run(before, buffer), logout, buffer, id);
      StaysTracked(listed, mid, buffer, logout, id);
      EarlierThreads(Run(ended, buffer), id);
      StaysBarred(ended, after, buffer, Run(ended, buffer).threads.Keys, id);
    }
  }

  // ---------------------------------------------------------------- fail-closed

  /** A call passes its check exactly if the blacklist could be read and holds no live entry,
      and gets a session exactly if that could be read and is live. */
  lemma PassesIff(s: Sys, t: ThreadId, id: SessionId, whoAmI: bool, fails: bool, buffer: int)
    ensures t !in s.threads ==>
      var s' := Next(s, StartResolve(t, id, whoAmI, fails), buffer);
      && Resolving(s', t) && s'.threads[t].asked == id && s'.threads[t].whoAmI == whoAmI
      && (s'.threads[t].stage == if !fails && !Blacklisted(s.redis, s.now, id) then Checked else Rejected)
    ensures Resolving(s, t) && s.threads[t].stage.Checked? && s.threads[t].asked == id ==>
      var s', got := Next(s, ReadSession(t, fails), buffer), Get(s.redis, s.now, id);
      s'.threads[t].stage == if !fails && got.Some? then Fetched(got.value) else Rejected
  {
  }

  predicate IsRejected(s: Sys, t: ThreadId) { Resolving(s, t) && s.threads[t].stage.Rejected? }

  lemma RejectedKept(s: Sys, a: Action, buffer: int, t: ThreadId)
    requires Enabled(s, a, buffer) && IsRejected(s, t)
    ensures IsRejected(Next(s, a, buffer), t)
  {
    if a.Tick? || a.Login? || a.t != t {
      OthersKeepThreads(s, a, buffer, t);
    }
  }

  lemma {:induction false} StaysRejected(base: seq<Action>, more: seq<Action>, buffer: int, t: ThreadId)
    requires Runs(base, buffer) && Runs(base + more, buffer) && IsRejected(Run(base, buffer), t)
    ensures IsRejected(Run(base + more, buffer), t)
    decreases |more|
  {
    if more == [] {
      assert base + more == base;
    } else {
      var shorter := base + more[..|more| - 1];
      assert (base + more)[..|base + more| - 1] == shorter;
      StaysRejected(base, more[..|more| - 1], buffer, t);
      RejectedKept(Run(shorter, buffer), more[|more| - 1], buffer, t);
    }
  }

  /** A call whose read of the blacklist or of the session failed is never granted, whatever
      follows. */
  lemma FailedReadIsNeverGranted(before: seq<Action>, a: Action, after: seq<Action>, buffer: int)
    requires Runs(before, buffer) && Runs(before + [a] + after, buffer)
    requires (a.StartResolve? || a.ReadSession?) && a.fails
    ensures var s := Run(before + [a] + after, buffer); IsRejected(s, a.t)
  {
    var failed := before + [a];
    CutRun(failed, after, buffer);
    assert failed[..|failed| - 1] == before;
    if a.StartResolve? {
      PassesIff(Run(before, buffer), a.t, a.id, a.whoAmI, true, buffer);
    } else {
      PassesIff(Run(before, buffer), a.t, Run(before, buffer).threads[a.t].asked, false, true, buffer);
    }
    StaysRejected(failed, after, buffer, a.t);
  }

  /** A call with a session in hand returns it exactly if it is a WhoAmI or the token is not
      near its end, and asks for the refresh lock exactly otherwise. */
  lemma NearEndIsRefreshed(s: Sys, t: ThreadId, reply: Reply, buffer: int)
    requires Resolving(s, t) && s.threads[t].stage.Fetched?
    ensures Enabled(s, ReturnToken(t), buffer) <==>
      s.threads[t].whoAmI || s.threads[t].stage.sess.accessExp >= s.now + buffer
    ensures Enabled(s, AskLock(t, reply), buffer) <==> !Enabled(s, ReturnToken(t), buffer)
  {
  }

  /** A caller that lost the lock gets the first stored session whose token is newer; it gives
      up with its own when cancelled; and when the wait is over it takes what is stored. */
  lemma LoserGetsNewerToken(s: Sys, t: ThreadId, fails: bool, cancelled: bool, buffer: int)
    requires Resolving(s, t) && s.threads[t].stage.Waiting?
    ensures var g, got := s.threads[t].stage, if fails then None else Get(s.redis, s.now, s.threads[t].asked);
      var s' := Next(s, Poll(t, fails, cancelled), buffer);
      && (Newer(got, g.sess) ==> s'.threads[t].stage == Granted(got.value))
      && (!Newer(got, g.sess) && s.now < g.deadline ==>
            s'.threads[t].stage == if cancelled then Granted(g.sess) else g)
      && (s.now >= g.deadline ==> s'.threads[t].stage == Granted(if got.Some? then got.value else g.sess))
      && s'.redis == s.redis
  {
  }
}
