/** The refresh lock, session by session: while every winner of a session's lock releases it
    before it expires, no two callers are between acquire and release for that session. */
module BffLock {
  import opened Options
  import opened Sessions
  import opened BffProtocol
  import opened BffRevocation

  predicate InSection(th: Thread) {
    th.Resolve? && (th.stage.Holding? || th.stage.Refreshed? || th.stage.Releasing?)
  }

  /** Thread t is between acquire and release for this session. */
  predicate Inside(s: Sys, t: ThreadId, id: SessionId) {
    t in s.threads && InSection(s.threads[t]) && s.threads[t].asked == id
  }

  predicate InTime(s: Sys, t: ThreadId)
    requires t in s.threads && InSection(s.threads[t])
  {
    s.now < s.threads[t].stage.since + LOCK_TTL
  }

  /** Every winner of the session's lock is still within the lifetime of its lock. */
  predicate Timely(s: Sys, id: SessionId) {
    forall t | t in s.threads && Inside(s, t, id) :: InTime(s, t)
  }

  predicate HoldsLock(s: Sys, t: ThreadId)
    requires t in s.threads && InSection(s.threads[t])
  {
    var th := s.threads[t];
    th.asked in s.redis.locks && s.redis.locks[th.asked] == th.stage.since + LOCK_TTL
  }

  predicate Exclusive(s: Sys, id: SessionId) {
    forall t, u | t in s.threads && u in s.threads && Inside(s, t, id) && Inside(s, u, id) :: t == u
  }

  predicate LockInv(s: Sys, id: SessionId) {
    Exclusive(s, id) && forall t | t in s.threads && Inside(s, t, id) :: HoldsLock(s, t)
  }

  ghost predicate TimelyRun(trace: seq<Action>, buffer: int, id: SessionId)
    requires Runs(trace, buffer)
    decreases |trace|
  {
    Timely(Run(trace, buffer), id) && (trace == [] || TimelyRun(trace[..|trace| - 1], buffer, id))
  }

  /** Only asking for and releasing the lock touch it or change who is in the section. */
  lemma LockFrame(s: Sys, a: Action, buffer: int)
    requires Enabled(s, a, buffer) && !a.AskLock? && !a.ReleaseLock?
    ensures var s' := Next(s, a, buffer);
      && s'.redis.locks == s.redis.locks
      && (forall t | t in s'.threads && InSection(s'.threads[t]) ::
            t in s.threads && InSection(s.threads[t]) && s'.threads[t].asked == s.threads[t].asked &&
            s'.threads[t].stage.since == s.threads[t].stage.since)
  {
    if OnlyThread(a) {
      OwnStepFrame(s, a, buffer);
      OwnSection(s, a, buffer);
    }
  }

  lemma OwnSection(s: Sys, a: Action, buffer: int)
    requires Enabled(s, a, buffer) && OnlyThread(a) && !a.AskLock? && !a.ReleaseLock?
    ensures var s' := Next(s, a, buffer);
      && s'.redis.locks == s.redis.locks && a.t in s'.threads
      && (InSection(s'.threads[a.t]) ==>
            a.t in s.threads && InSection(s.threads[a.t]) && s'.threads[a.t].asked == s.threads[a.t].asked &&
            s'.threads[a.t].stage.since == s.threads[a.t].stage.since)
  {
  }

  /** A live lock is not given to a second caller. */
  lemma AskKeepsLockInv(s: Sys, t: ThreadId, reply: Reply, id: SessionId)
    requires Resolving(s, t) && s.threads[t].stage.Fetched? && LockInv(s, id) && Timely(s, id)
    ensures LockInv(AfterAskLock(s, t, reply), id)
  {
    forall u | u in s.threads && Inside(s, u, id) && s.threads[t].asked == id
      ensures Locked(s.redis, s.now, id)
    {
      assert HoldsLock(s, u) && InTime(s, u);
    }
  }

  /** The lock a caller releases is its own. */
  lemma ReleaseKeepsLockInv(s: Sys, a: Action, buffer: int, id: SessionId)
    requires a.ReleaseLock? && Enabled(s, a, buffer) && LockInv(s, id)
    ensures LockInv(Next(s, a, buffer), id)
  {
    var s' := Next(s, a, buffer);
    forall t | t in s'.threads && Inside(s', t, id)
      ensures Inside(s, t, id) && t != a.t && HoldsLock(s', t)
    {
      assert Inside(s, t, id) && HoldsLock(s, t);
      if s.threads[a.t].asked == id {
        assert Inside(s, a.t, id);
      }
    }
  }

  lemma LockInvKept(s: Sys, a: Action, buffer: int, id: SessionId)
    requires Enabled(s, a, buffer) && LockInv(s, id) && Timely(s, id)
    ensures LockInv(Next(s, a, buffer), id)
  {
    if a.AskLock? {
      AskKeepsLockInv(s, a.t, a.reply, id);
    } else if a.ReleaseLock? {
      ReleaseKeepsLockInv(s, a, buffer, id);
    } else {
      LockFrame(s, a, buffer);
    }
  }

  lemma {:induction false} AlwaysLockInv(trace: seq<Action>, buffer: int, id: SessionId)
    requires Runs(trace, buffer) && TimelyRun(trace, buffer, id)
    ensures LockInv(Run(trace, buffer), id)
  {
    if trace != [] {
      AlwaysLockInv(trace[..|trace| - 1], buffer, id);
      LockInvKept(Run(trace[..|trace| - 1], buffer), trace[|trace| - 1], buffer, id);
    }
  }

  /** Mutual exclusion of refreshes of one session, whatever winners of other sessions do. */
  lemma OneRefreshAtATime(trace: seq<Action>, buffer: int, id: SessionId, t: ThreadId, u: ThreadId)
    requires Runs(trace, buffer) && TimelyRun(trace, buffer, id)
    requires Inside(Run(trace, buffer), t, id) && Inside(Run(trace, buffer), u, id)
    ensures t == u
  {
    AlwaysLockInv(trace, buffer, id);
  }

  // ---------------------------------------------------------------- when exclusion is lost

  /** The step gives the session's lock to a caller while another is between acquire and
      release: the lock of that one has expired or was released by somebody else. */
  predicate LetsInSecond(s: Sys, a: Action, buffer: int, id: SessionId)
    requires Enabled(s, a, buffer)
  {
    && a.AskLock? && s.threads[a.t].asked == id && a.reply == Done && !Locked(s.redis, s.now, id)
    && exists u | u in s.threads :: Inside(s, u, id)
  }

  /** Exclusion is lost exactly in such a step. */
  lemma ExclusionLostIff(s: Sys, a: Action, buffer: int, id: SessionId)
    requires Enabled(s, a, buffer) && Exclusive(s, id)
    ensures Exclusive(Next(s, a, buffer), id) <==> !LetsInSecond(s, a, buffer, id)
  {
    if a.AskLock? {
      AskLosesExclusionIff(s, a.t, a.reply, id);
    } else if a.ReleaseLock? {
      ReleaseKeepsExclusion(s, a, buffer, id);
    } else {
      LockFrame(s, a, buffer);
      FrameKeepsExclusion(s, Next(s, a, buffer), id);
    }
  }

  lemma FrameKeepsExclusion(s: Sys, s': Sys, id: SessionId)
    requires Exclusive(s, id)
    requires forall t | t in s'.threads && InSection(s'.threads[t]) ::
      t in s.threads && InSection(s.threads[t]) && s'.threads[t].asked == s.threads[t].asked
    ensures Exclusive(s', id)
  {
    forall t, u | t in s'.threads && u in s'.threads && Inside(s', t, id) && Inside(s', u, id)
      ensures t == u
    {
      assert Inside(s, t, id) && Inside(s, u, id);
    }
  }

  lemma AskLosesExclusionIff(s: Sys, t: ThreadId, reply: Reply, id: SessionId)
    requires Resolving(s, t) && s.threads[t].stage.Fetched? && Exclusive(s, id)
    ensures Exclusive(AfterAskLock(s, t, reply), id) <==>
      !(s.threads[t].asked == id && reply == Done && !Locked(s.redis, s.now, id) &&
        exists u | u in s.threads :: Inside(s, u, id))
  {
    var s' := AfterAskLock(s, t, reply);
    forall u | u in s.threads && u != t
      ensures u in s'.threads && (Inside(s', u, id) <==> Inside(s, u, id))
    {
    }
    assert !Inside(s, t, id);
    assert Inside(s', t, id) <==> s.threads[t].asked == id && reply == Done && !Locked(s.redis, s.now, id);
  }

  lemma ReleaseKeepsExclusion(s: Sys, a: Action, buffer: int, id: SessionId)
    requires a.ReleaseLock? && Enabled(s, a, buffer) && Exclusive(s, id)
    ensures Exclusive(Next(s, a, buffer), id)
  {
    var s' := Next(s, a, buffer);
    forall u | u in s'.threads && Inside(s', u, id)
      ensures u in s.threads && Inside(s, u, id)
    {
    }
  }
}
