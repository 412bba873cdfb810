/** What LogoutAll achieves while everything else keeps running: once its batch blacklist
    write is done, no call that makes its check afterwards is granted a session that was in
    the index when the LogoutAll read it. */
module BffLogoutAll {
  import opened Options
  import opened Sessions
  import opened BffProtocol
  import opened BffRevocation
  import opened BffIndex

  /** The session can no longer be granted to a call that starts now. */
  predicate Settled(s: Sys, id: SessionId) {
    id in s.born && (id in s.revoked || !LiveIn(s, id))
  }

  /** The step is a refresh that writes back the session after it was deleted. */
  predicate BringsBack(s: Sys, a: Action, buffer: int, id: SessionId)
    requires Enabled(s, a, buffer)
  {
    && a.WriteBack? && s.threads[a.t].asked == id
    && Applied(a.reply) && s.threads[a.t].stage.renewed.expiresAt > s.now
    && !LiveIn(s, id)
  }

  /** The LogoutAll of thread t, which has read the index, will look for the session, has
      found it, or need not; once it has written its batch, or has ended without an error, the
      session is settled. */
  predicate Tracked(s: Sys, t: ThreadId, id: SessionId) {
    && id in s.born && t in s.threads
    && match s.threads[t]
       case LogoutAll(_, progress) => TrackedBy(s, progress, id)
       case Ended(ok) => ok ==> Settled(s, id)
       case _ => false
  }

  predicate TrackedBy(s: Sys, progress: AllStage, id: SessionId) {
    match progress
    case Started => false
    case Listing(todo, found) => id in todo || id in Ids(found) || Settled(s, id)
    case _ => Settled(s, id)
  }

  /** A call for the session that can no longer be granted. */
  predicate BarredThread(s: Sys, th: Thread, id: SessionId) {
    th.Resolve? && th.asked == id ==>
      th.stage.Rejected? || (th.stage.Checked? && (th.late || !LiveIn(s, id)))
  }

  /** The session is settled, and every call for it outside `earlier` is barred. */
  predicate Barred(s: Sys, earlier: set<ThreadId>, id: SessionId) {
    && Settled(s, id)
    && forall t | t in s.threads && t !in earlier :: BarredThread(s, s.threads[t], id)
  }

  /** Nothing but a late write-back makes a session live again: ids are never reused. */
  predicate Settles(s: Sys, s': Sys, id: SessionId) {
    && s.revoked <= s'.revoked
    && (id in s.born ==> id in s'.born && (LiveIn(s', id) ==> LiveIn(s, id)))
  }

  lemma StepSettles(s: Sys, a: Action, buffer: int, id: SessionId)
    requires Inv(s) && Enabled(s, a, buffer) && !BringsBack(s, a, buffer, id)
    ensures Settles(s, Next(s, a, buffer), id)
  {
    if a.WriteBack? {
      assert ThreadOk(s, s.threads[a.t]);
    } else if OnlyThread(a) {
      OwnStepFrame(s, a, buffer);
    }
  }

  /** A session that is settled becomes unsettled exactly when a refresh brings it back and it
      was never blacklisted. */
  lemma SettledIff(s: Sys, a: Action, buffer: int, id: SessionId)
    requires Inv(s) && Enabled(s, a, buffer) && Settled(s, id)
    ensures Settled(Next(s, a, buffer), id) <==> !(BringsBack(s, a, buffer, id) && id !in s.revoked)
  {
    if BringsBack(s, a, buffer, id) {
      assert ThreadOk(s, s.threads[a.t]);
    } else {
      StepSettles(s, a, buffer, id);
    }
  }

  // ---------------------------------------------------------------- what "settled" means

  /** Blacklist entries are only ever written by a Logout or LogoutAll. */
  predicate EntriesMarked(s: Sys) { s.redis.blacklist.Keys <= s.revoked }

  lemma EntriesMarkedKept(s: Sys, a: Action, buffer: int)
    requires Enabled(s, a, buffer) && EntriesMarked(s)
    ensures EntriesMarked(Next(s, a, buffer))
  {
    if OnlyThread(a) {
      OwnStepFrame(s, a, buffer);
    }
  }

  lemma {:induction false} AlwaysEntriesMarked(trace: seq<Action>, buffer: int)
    requires Runs(trace, buffer)
    ensures EntriesMarked(Run(trace, buffer))
  {
    if trace != [] {
      AlwaysEntriesMarked(trace[..|trace| - 1], buffer);
      EntriesMarkedKept(Run(trace[..|trace| - 1], buffer), trace[|trace| - 1], buffer);
    }
  }

  /** A call that starts now and is not disturbed: a WhoAmI, check by check. */
  function AfterCall(s: Sys, t: ThreadId, id: SessionId, buffer: int): Stage
    requires t !in s.threads
  {
    var s1 := Next(s, StartResolve(t, id, true, false), buffer);
    if s1.threads[t].stage.Rejected? then Rejected else
      var s2 := Next(s1, ReadSession(t, false), buffer);
      if s2.threads[t].stage.Rejected? then Rejected else Next(s2, ReturnToken(t), buffer).threads[t].stage
  }

  /** A session is settled exactly when such a call is not granted. */
  lemma NextCallGrantedIff(s: Sys, t: ThreadId, id: SessionId, buffer: int)
    requires Inv(s) && EntriesMarked(s) && id in s.born && t !in s.threads
    ensures AfterCall(s, t, id, buffer).Granted? <==> !Settled(s, id)
  {
  }

  lemma OthersKeepThreads(s: Sys, a: Action, buffer: int, u: ThreadId)
    requires Enabled(s, a, buffer)
    requires a.Tick? || a.Login? || u != a.t
    ensures u in Next(s, a, buffer).threads <==> u in s.threads
    ensures u in s.threads ==> Next(s, a, buffer).threads[u] == s.threads[u]
  {
    if OnlyThread(a) {
      OwnStepFrame(s, a, buffer);
    }
  }

  // ---------------------------------------------------------------- while it lists

  lemma FoundGrows(found: seq<Session>, found': seq<Session>)
    requires found <= found'
    ensures Ids(found) <= Ids(found')
  {
    assert forall v | v in found :: v in found';
  }

  lemma CollectTracks(s: Sys, t: ThreadId, a: Action, buffer: int, id: SessionId)
    requires Inv(s) && Enabled(s, a, buffer) && a.Collect? && a.t == t && Tracked(s, t, id)
    ensures Tracked(Next(s, a, buffer), t, id)
  {
    var th, s' := s.threads[t], Next(s, a, buffer);
    assert ThreadOk(s, th);
    if s'.threads[t].LogoutAll? {
      var progress := s'.threads[t].progress;
      FoundGrows(th.progress.found, progress.found);
      if id == a.id && LiveIn(s, id) {
        assert progress.found[|progress.found| - 1].sessionId == id;
      }
    }
  }

  lemma TrackedKept(s: Sys, a: Action, buffer: int, t: ThreadId, id: SessionId)
    requires Inv(s) && Enabled(s, a, buffer) && Tracked(s, t, id) && !BringsBack(s, a, buffer, id)
    ensures Tracked(Next(s, a, buffer), t, id)
  {
    StepSettles(s, a, buffer, id);
    if a.Tick? || a.Login? || a.t != t {
      OthersKeepThreads(s, a, buffer, t);
    } else if a.Collect? {
      CollectTracks(s, t, a, buffer, id);
    }
  }

  /** A LogoutAll that reads the index tracks every session in it. */
  lemma ListUserTracks(s: Sys, t: ThreadId, buffer: int, id: SessionId)
    requires Inv(s) && Enabled(s, ListUser(t, false), buffer)
    requires id in Members(s.redis, s.now, s.threads[t].of.kratosId)
    ensures Tracked(Next(s, ListUser(t, false), buffer), t, id)
  {
    assert OwnedBy(s, s.redis.index[s.threads[t].of.kratosId].value, s.threads[t].of.kratosId);
  }

  /** Its batch write settles whatever it tracks. */
  lemma MarkAllSettles(s: Sys, t: ThreadId, reply: Reply, buffer: int, id: SessionId)
    requires Enabled(s, MarkAll(t, reply), buffer) && Applied(reply) && Tracked(s, t, id)
    ensures Settled(Next(s, MarkAll(t, reply), buffer), id)
  {
  }

  /** The LogoutAll of thread t, still under way or ended without an error, has looked for the
      session and not found it, and now a refresh brings it back unmarked. */
  predicate Loses(s: Sys, a: Action, buffer: int, t: ThreadId, id: SessionId)
    requires Enabled(s, a, buffer)
  {
    && BringsBack(s, a, buffer, id) && id !in s.revoked && t in s.threads
    && match s.threads[t]
       case LogoutAll(_, progress) => progress.Listing? ==> id !in progress.todo && id !in Ids(progress.found)
       case Ended(ok) => ok
       case _ => false
  }

  /** A LogoutAll keeps track of the session exactly until then. */
  lemma TrackedIff(s: Sys, a: Action, buffer: int, t: ThreadId, id: SessionId)
    requires Inv(s) && Enabled(s, a, buffer) && Tracked(s, t, id)
    ensures Tracked(Next(s, a, buffer), t, id) <==> !Loses(s, a, buffer, t, id)
  {
    if BringsBack(s, a, buffer, id) {
      assert ThreadOk(s, s.threads[a.t]);
      OthersKeepThreads(s, a, buffer, t);
    } else {
      TrackedKept(s, a, buffer, t, id);
    }
  }

  // ---------------------------------------------------------------- afterwards

  lemma ThreadStaysBarred(s: Sys, s': Sys, th: Thread, id: SessionId)
    requires id in s.born && Settles(s, s', id) && BarredThread(s, th, id)
    ensures BarredThread(s', th, id)
  {
  }

  lemma OwnThreadBarred(s: Sys, a: Action, buffer: int, earlier: set<ThreadId>, id: SessionId)
    requires Inv(s) && Barred(s, earlier, id) && Enabled(s, a, buffer) && !a.Tick? && !a.Login?
    requires a.t !in earlier && Settles(s, Next(s, a, buffer), id)
    ensures var s' := Next(s, a, buffer); a.t in s'.threads && BarredThread(s', s'.threads[a.t], id)
  {
    if ResolveAction(a) || a.WriteBack? {
      CallStaysBarred(s, a, buffer, earlier, id);
    }
  }

  lemma CallStaysBarred(s: Sys, a: Action, buffer: int, earlier: set<ThreadId>, id: SessionId)
    requires Inv(s) && Barred(s, earlier, id) && Enabled(s, a, buffer) && (ResolveAction(a) || a.WriteBack?)
    requires a.t !in earlier && Settles(s, Next(s, a, buffer), id)
    ensures var s' := Next(s, a, buffer); a.t in s'.threads && BarredThread(s', s'.threads[a.t], id)
  {
    if a.t in s.threads {
      assert BarredThread(s, s.threads[a.t], id) && ThreadOk(s, s.threads[a.t]);
    }
  }

  lemma BarredKept(s: Sys, a: Action, buffer: int, earlier: set<ThreadId>, id: SessionId)
    requires Inv(s) && Barred(s, earlier, id) && Enabled(s, a, buffer) && !BringsBack(s, a, buffer, id)
    ensures Barred(Next(s, a, buffer), earlier, id)
  {
    var s' := Next(s, a, buffer);
    StepSettles(s, a, buffer, id);
    forall u | u in s'.threads && u !in earlier
      ensures BarredThread(s', s'.threads[u], id)
    {
      if a.Tick? || a.Login? || u != a.t {
        OthersKeepThreads(s, a, buffer, u);
        ThreadStaysBarred(s, s', s.threads[u], id);
      } else {
        OwnThreadBarred(s, a, buffer, earlier, id);
      }
    }
  }

  /** Every call for the session outside `earlier` that is past its check knew of the
      revocation then. */
  predicate EveryCallLate(s: Sys, earlier: set<ThreadId>, id: SessionId) {
    forall t | t in s.threads && t !in earlier && s.threads[t].Resolve? && s.threads[t].asked == id ::
      s.threads[t].stage.Checked? ==> s.threads[t].late
  }

  /** A refresh brings the session back, and it is unmarked or a call was past its check
      before it was marked. */
  predicate Harms(s: Sys, a: Action, buffer: int, earlier: set<ThreadId>, id: SessionId)
    requires Enabled(s, a, buffer)
  {
    BringsBack(s, a, buffer, id) && !(id in s.revoked && EveryCallLate(s, earlier, id))
  }

  lemma HarmlessReturn(s: Sys, a: Action, buffer: int, earlier: set<ThreadId>, id: SessionId)
    requires Inv(s) && Barred(s, earlier, id) && Enabled(s, a, buffer) && BringsBack(s, a, buffer, id)
    ensures Barred(Next(s, a, buffer), earlier, id) <==> id in s.revoked && EveryCallLate(s, earlier, id)
  {
    var s' := Next(s, a, buffer);
    assert ThreadOk(s, s.threads[a.t]);
    assert LiveIn(s', id) && s'.revoked == s.revoked;
    assert a.t !in earlier ==> BarredThread(s, s.threads[a.t], id);
    forall u | u in s.threads && u !in earlier
      ensures u != a.t && u in s'.threads && s'.threads[u] == s.threads[u] && BarredThread(s, s.threads[u], id)
    {
      OthersKeepThreads(s, a, buffer, u);
    }
    forall u | u in s'.threads && u != a.t
      ensures u in s.threads
    {
      OthersKeepThreads(s, a, buffer, u);
    }
  }

  /** What is barred stays barred exactly until a refresh brings the session back to harm. */
  lemma BarredIff(s: Sys, a: Action, buffer: int, earlier: set<ThreadId>, id: SessionId)
    requires Inv(s) && Barred(s, earlier, id) && Enabled(s, a, buffer)
    ensures Barred(Next(s, a, buffer), earlier, id) <==> !Harms(s, a, buffer, earlier, id)
  {
    if BringsBack(s, a, buffer, id) {
      HarmlessReturn(s, a, buffer, earlier, id);
    } else {
      BarredKept(s, a, buffer, earlier, id);
    }
  }

  /** A call past its check that finds the session alive is granted: at once, or, if its token
      needs a refresh, when the lock cannot be asked for. */
  predicate CanBeGranted(s: Sys, t: ThreadId, buffer: int)
    requires Resolving(s, t) && s.threads[t].stage.Checked?
  {
    var s1 := Next(s, ReadSession(t, false), buffer);
    && s1.threads[t].stage.Fetched?
    && (Enabled(s1, ReturnToken(t), buffer) || Enabled(s1, AskLock(t, LostBefore), buffer))
    && (Enabled(s1, ReturnToken(t), buffer) ==> Next(s1, ReturnToken(t), buffer).threads[t].stage.Granted?)
    && (Enabled(s1, AskLock(t, LostBefore), buffer) ==> Next(s1, AskLock(t, LostBefore), buffer).threads[t].stage.Granted?)
  }

  lemma LiveCanBeGranted(s: Sys, t: ThreadId, buffer: int)
    requires Resolving(s, t) && s.threads[t].stage.Checked? && LiveIn(s, s.threads[t].asked)
    ensures CanBeGranted(s, t, buffer)
  {
  }

  /** The harm is real: afterwards a call outside `earlier` is granted, a new one `t`, or one
      that is past its check. */
  lemma HarmIsGranted(s: Sys, a: Action, buffer: int, earlier: set<ThreadId>, id: SessionId, t: ThreadId)
    requires Inv(s) && EntriesMarked(s) && Barred(s, earlier, id) && Enabled(s, a, buffer)
    requires Harms(s, a, buffer, earlier, id) && t !in Next(s, a, buffer).threads
    ensures var s' := Next(s, a, buffer);
      || AfterCall(s', t, id, buffer).Granted?
      || exists u | u in s'.threads && u !in earlier && Resolving(s', u) && s'.threads[u].asked == id ::
           s'.threads[u].stage.Checked? && CanBeGranted(s', u, buffer)
  {
    var s' := Next(s, a, buffer);
    KeptByStep(s, a, buffer);
    EntriesMarkedKept(s, a, buffer);
    SettledIff(s, a, buffer, id);
    if id !in s.revoked {
      assert id in s'.born by { assert ThreadOk(s, s.threads[a.t]); }
      NextCallGrantedIff(s', t, id, buffer);
    } else {
      var u :| u in s.threads && u !in earlier && s.threads[u].Resolve? && s.threads[u].asked == id &&
               s.threads[u].stage.Checked? && !s.threads[u].late;
      OthersKeepThreads(s, a, buffer, u);
      assert ThreadOk(s, s.threads[a.t]);
      LiveCanBeGranted(s', u, buffer);
    }
  }

  // ---------------------------------------------------------------- whole runs

  /** In no step of `more`, taken after `base`, does the LogoutAll of thread t lose the
      session. */
  ghost predicate NeverLost(base: seq<Action>, more: seq<Action>, buffer: int, t: ThreadId, id: SessionId)
    requires Runs(base + more, buffer)
    decreases |more|
  {
    more == [] ||
    (assert (base + more)[..|base + more| - 1] == base + more[..|more| - 1];
     && NeverLost(base, more[..|more| - 1], buffer, t, id)
     && !Loses(Run(base + more[..|more| - 1], buffer), more[|more| - 1], buffer, t, id))
  }

  /** No step of `more`, taken after `base`, brings the session back to harm. */
  ghost predicate NeverHarmed(base: seq<Action>, more: seq<Action>, buffer: int, earlier: set<ThreadId>, id: SessionId)
    requires Runs(base + more, buffer)
    decreases |more|
  {
    more == [] ||
    (assert (base + more)[..|base + more| - 1] == base + more[..|more| - 1];
     && NeverHarmed(base, more[..|more| - 1], buffer, earlier, id)
     && !Harms(Run(base + more[..|more| - 1], buffer), more[|more| - 1], buffer, earlier, id))
  }

  lemma {:induction false} StaysTracked(base: seq<Action>, more: seq<Action>, buffer: int, t: ThreadId, id: SessionId)
    requires Runs(base, buffer) && Runs(base + more, buffer) && NeverLost(base, more, buffer, t, id)
    requires Tracked(Run(base, buffer), t, id)
    ensures Tracked(Run(base + more, buffer), t, id)
    decreases |more|
  {
    if more == [] {
      assert base + more == base;
    } else {
      var shorter := base + more[..|more| - 1];
      assert (base + more)[..|base + more| - 1] == shorter;
      StaysTracked(base, more[..|more| - 1], buffer, t, id);
      AlwaysInv(shorter, buffer);
      TrackedIff(Run(shorter, buffer), more[|more| - 1], buffer, t, id);
    }
  }

  lemma {:induction false} StaysBarred(base: seq<Action>, more: seq<Action>, buffer: int, earlier: set<ThreadId>, id: SessionId)
    requires Runs(base, buffer) && Runs(base + more, buffer) && NeverHarmed(base, more, buffer, earlier, id)
    requires Barred(Run(base, buffer), earlier, id)
    ensures Barred(Run(base + more, buffer), earlier, id)
    decreases |more|
  {
    if more == [] {
      assert base + more == base;
    } else {
      var shorter := base + more[..|more| - 1];
      assert (base + more)[..|base + more| - 1] == shorter;
      StaysBarred(base, more[..|more| - 1], buffer, earlier, id);
      AlwaysInv(shorter, buffer);
      BarredIff(Run(shorter, buffer), more[|more| - 1], buffer, earlier, id);
    }
  }

  // ---------------------------------------------------------------- other users

  /** Sessions, blacklist entries and index of every other user are untouched by any step of
      a LogoutAll. */
  lemma LogoutAllTouchesOnlyItsUser(s: Sys, a: Action, buffer: int, id: SessionId)
    requires Inv(s) && Enabled(s, a, buffer) && !a.Tick? && !a.Login?
    requires a.t in s.threads && s.threads[a.t].LogoutAll?
    requires id in s.born && s.born[id].kratosId != s.threads[a.t].of.kratosId
    ensures var s' := Next(s, a, buffer);
      var k := s.born[id].kratosId;
      && (id in s'.redis.sessions <==> id in s.redis.sessions)
      && (id in s.redis.sessions ==> s'.redis.sessions[id] == s.redis.sessions[id])
      && (id in s'.redis.blacklist <==> id in s.redis.blacklist)
      && (id in s.redis.blacklist ==> s'.redis.blacklist[id] == s.redis.blacklist[id])
      && (id in s'.revoked <==> id in s.revoked)
      && (k in s'.redis.index <==> k in s.redis.index)
      && (k in s.redis.index ==> s'.redis.index[k] == s.redis.index[k])
  {
    assert ThreadOk(s, s.threads[a.t]);
    if !a.MarkAll? && !a.PurgeWrite? {
      OwnStepFrame(s, a, buffer);
    }
  }
}
