/** BFF sessions in Redis: the session keys, the per-user index, the refresh locks and the
    session blacklist, each key with its expiry. Times are milliseconds.

    The functions on `Redis` give the meaning of each command or transaction; the classes
    are the stores whose methods are proved to have exactly that effect. */
module Sessions {
  import opened Options

  type SessionId = string
  type KratosId = string

  const LOCK_TTL: int := 5_000
  const POLL_INTERVAL: int := 250
  const MAX_WAIT: int := 2_500
  const MIN_BLACKLIST_TTL: int := 60_000

  datatype Session = Session(sessionId: SessionId, kratosId: KratosId, deviceId: string,
                             accessToken: string, refreshToken: string, accessExp: int,
                             expiresAt: int)

  datatype Stored<+T> = Stored(value: T, expiresAt: int)

  datatype Redis = Redis(sessions: map<SessionId, Stored<Session>>,
                         index: map<KratosId, Stored<set<SessionId>>>,
                         locks: map<SessionId, int>,
                         blacklist: map<SessionId, int>)

  // ---------------------------------------------------------------- reads

  predicate Live(r: Redis, now: int, id: SessionId) {
    id in r.sessions && now < r.sessions[id].expiresAt
  }

  function Get(r: Redis, now: int, id: SessionId): Option<Session> {
    if Live(r, now, id) then Some(r.sessions[id].value) else None
  }

  function Members(r: Redis, now: int, k: KratosId): set<SessionId> {
    if k in r.index && now < r.index[k].expiresAt then r.index[k].value else {}
  }

  predicate Locked(r: Redis, now: int, id: SessionId) {
    id in r.locks && now < r.locks[id]
  }

  predicate Blacklisted(r: Redis, now: int, id: SessionId) {
    id in r.blacklist && now < r.blacklist[id]
  }

  // ---------------------------------------------------------------- writes

  /** `defaultTtl` is used when the session is already past its end. */
  function Create(r: Redis, now: int, s: Session, defaultTtl: int): Redis {
    var ttl := if s.expiresAt - now <= 0 then defaultTtl else s.expiresAt - now;
    r.(sessions := r.sessions[s.sessionId := Stored(s, now + ttl)],
       index := r.index[s.kratosId := Stored(Members(r, now, s.kratosId) + {s.sessionId}, now + ttl)])
  }

  /** The session keeps its own end; past that end nothing is written. */
  function Update(r: Redis, now: int, s: Session): Redis {
    if s.expiresAt <= now then r else
      r.(sessions := r.sessions[s.sessionId := Stored(s, s.expiresAt)])
  }

  function DeleteOne(r: Redis, now: int, k: KratosId, id: SessionId): Redis {
    var left := Members(r, now, k) - {id};
    r.(sessions := r.sessions - {id},
       index := if left == {} then r.index - {k} else r.index[k := Stored(left, r.index[k].expiresAt)])
  }

  function DeleteUser(r: Redis, k: KratosId, ids: set<SessionId>): Redis {
    r.(sessions := r.sessions - ids, index := r.index - {k})
  }

  function Lock(r: Redis, now: int, id: SessionId): Redis {
    if Locked(r, now, id) then r else r.(locks := r.locks[id := now + LOCK_TTL])
  }

  function Unlock(r: Redis, id: SessionId): Redis {
    r.(locks := r.locks - {id})
  }

  function EntryTtl(ttl: int): int {
    if ttl <= 0 then MIN_BLACKLIST_TTL else ttl
  }

  function Blacklist(r: Redis, now: int, id: SessionId, ttl: int): Redis {
    r.(blacklist := r.blacklist[id := now + EntryTtl(ttl)])
  }

  /** A batch with a non-positive lifetime writes nothing. */
  function BlacklistAll(r: Redis, now: int, ids: set<SessionId>, ttl: int): Redis {
    if ttl <= 0 then r else r.(blacklist := r.blacklist + map id | id in ids :: now + ttl)
  }

  // ---------------------------------------------------------------- reads after writes

  /** A created session is read back until its end, or for the default life if it is past
      that; its index lists it for as long, beside what was there. Nothing else changes. */
  lemma CreateThenRead(r: Redis, now: int, s: Session, defaultTtl: int, later: int)
    requires now <= later
    ensures var r' := Create(r, now, s, defaultTtl);
      var end := if s.expiresAt > now then s.expiresAt else now + defaultTtl;
      && Get(r', later, s.sessionId) == (if later < end then Some(s) else None)
      && Members(r', later, s.kratosId) == (if later < end then Members(r, now, s.kratosId) + {s.sessionId} else {})
      && (forall id | id != s.sessionId :: Get(r', later, id) == Get(r, later, id))
      && (forall k | k != s.kratosId :: Members(r', later, k) == Members(r, later, k))
      && r'.locks == r.locks && r'.blacklist == r.blacklist
  {
  }

  /** An updated session is read back until its own end; one past its end is left alone. */
  lemma UpdateThenRead(r: Redis, now: int, s: Session, later: int)
    requires now <= later
    ensures var r' := Update(r, now, s);
      && (s.expiresAt > now ==> Get(r', later, s.sessionId) == if later < s.expiresAt then Some(s) else None)
      && (s.expiresAt <= now ==> r' == r)
      && (forall id | id != s.sessionId :: Get(r', later, id) == Get(r, later, id))
      && r'.index == r.index && r'.locks == r.locks && r'.blacklist == r.blacklist
  {
  }

  /** A deleted session is gone from store and index; nothing else is. */
  lemma DeleteThenRead(r: Redis, now: int, k: KratosId, id: SessionId, later: int)
    requires now <= later
    ensures var r' := DeleteOne(r, now, k, id);
      && Get(r', later, id).None? && id !in Members(r', later, k)
      && (forall i | i != id :: Get(r', later, i) == Get(r, later, i))
      && (forall i | i != id :: i in Members(r', later, k) <==> i in Members(r, later, k))
      && (forall j | j != k :: Members(r', later, j) == Members(r, later, j))
      && r'.locks == r.locks && r'.blacklist == r.blacklist
  {
  }

  /** Deleting a user's sessions removes the listed ones and the index; nothing else. */
  lemma DeleteUserThenRead(r: Redis, k: KratosId, ids: set<SessionId>, later: int)
    ensures var r' := DeleteUser(r, k, ids);
      && (forall id :: Get(r', later, id) == if id in ids then None else Get(r, later, id))
      && (forall j :: Members(r', later, j) == if j == k then {} else Members(r, later, j))
      && r'.locks == r.locks && r'.blacklist == r.blacklist
  {
  }

  /** A blacklist entry holds for its life, a minute if that is not positive. Other entries
      stay. */
  lemma BlacklistThenRead(r: Redis, now: int, id: SessionId, ttl: int, later: int)
    requires now <= later
    ensures var r' := Blacklist(r, now, id, ttl);
      && (Blacklisted(r', later, id) <==> later < now + (if ttl > 0 then ttl else MIN_BLACKLIST_TTL))
      && (forall i | i != id :: Blacklisted(r', later, i) <==> Blacklisted(r, later, i))
      && r'.(blacklist := r.blacklist) == r
  {
  }

  /** A batch holds for its life, and is nothing if that is not positive. Other entries stay. */
  lemma BatchThenRead(r: Redis, now: int, ids: set<SessionId>, ttl: int, id: SessionId, later: int)
    requires now <= later
    ensures var r' := BlacklistAll(r, now, ids, ttl);
      && (Blacklisted(r', later, id) <==> if id in ids && ttl > 0 then later < now + ttl else Blacklisted(r, later, id))
      && r'.(blacklist := r.blacklist) == r
  {
  }

  /** A lock is held for its lifetime from when it was free, or until it is released. */
  lemma LockThenRead(r: Redis, now: int, id: SessionId, later: int)
    requires now <= later
    ensures var r' := Lock(r, now, id);
      && (!Locked(r, now, id) ==> (Locked(r', later, id) <==> later < now + LOCK_TTL))
      && (Locked(r, now, id) ==> r' == r)
      && !Locked(Unlock(r, id), later, id)
      && (forall i | i != id :: Locked(r', later, i) == Locked(r, later, i) && Locked(Unlock(r, id), later, i) == Locked(r, later, i))
      && r'.(locks := r.locks) == r && Unlock(r, id).(locks := r.locks) == r
  {
  }

  // ---------------------------------------------------------------- the session store

  class RedisStore {
    const sessionTtl: int
    var sessions: map<SessionId, Stored<Session>>
    var index: map<KratosId, Stored<set<SessionId>>>
    var locks: map<SessionId, int>

    constructor (sessionTtl: int)
      ensures this.sessionTtl == sessionTtl && Abs(map[]) == Redis(map[], map[], map[], map[])
    {
      this.sessionTtl := sessionTtl;
      sessions, index, locks := map[], map[], map[];
    }

    /** The store together with a blacklist kept beside it. */
    ghost function Abs(blacklist: map<SessionId, int>): Redis
      reads this
    {
      Redis(sessions, index, locks, blacklist)
    }

    method CreateSession(now: int, s: Session)
      modifies this
      ensures forall b :: Abs(b) == Create(old(Abs(b)), now, s, sessionTtl)
    {
      var ttl := s.expiresAt - now;
      if ttl <= 0 {
        ttl := sessionTtl;
      }
      var members := SMembers(now, s.kratosId);
      sessions := sessions[s.sessionId := Stored(s, now + ttl)];
      index := index[s.kratosId := Stored(members + {s.sessionId}, now + ttl)];
    }

    method GetSession(now: int, id: SessionId) returns (r: Option<Session>)
      ensures r == Get(Abs(map[]), now, id)
    {
      if id in sessions && now < sessions[id].expiresAt {
        return Some(sessions[id].value);
      }
      return None;
    }

    method UpdateSession(now: int, s: Session) returns (ok: bool)
      modifies this
      ensures ok == (s.expiresAt > now)
      ensures forall b :: Abs(b) == Update(old(Abs(b)), now, s)
    {
      var ttl := s.expiresAt - now;
      if ttl <= 0 {
        return false;
      }
      sessions := sessions[s.sessionId := Stored(s, now + ttl)];
      return true;
    }

    method DeleteSession(now: int, id: SessionId)
      modifies this
      ensures !old(Live(Abs(map[]), now, id)) ==> unchanged(this)
      ensures old(Live(Abs(map[]), now, id)) ==>
                forall b :: Abs(b) == DeleteOne(old(Abs(b)), now, old(sessions[id].value.kratosId), id)
    {
      var found := GetSession(now, id);
      if found == None {
        return;
      }
      var k := found.value.kratosId;
      var left := SMembers(now, k);
      left := left - {id};
      sessions := sessions - {id};
      if left == {} {
        index := index - {k};
      } else {
        index := index[k := Stored(left, index[k].expiresAt)];
      }
    }

    method SMembers(now: int, k: KratosId) returns (ids: set<SessionId>)
      ensures ids == Members(Abs(map[]), now, k)
    {
      if k in index && now < index[k].expiresAt {
        return index[k].value;
      }
      return {};
    }

    /** Exactly the live sessions of the index, each once. */
    method GetAllForUser(now: int, k: KratosId) returns (found: seq<Session>)
      requires forall id | id in sessions :: sessions[id].value.sessionId == id
      ensures (set s | s in found) == set id | id in Members(Abs(map[]), now, k) && Live(Abs(map[]), now, id) :: sessions[id].value
      ensures forall i, j | 0 <= i < j < |found| :: found[i].sessionId != found[j].sessionId
    {
      var ids := SMembers(now, k);
      var todo := ids;
      found := [];
      while todo != {}
        invariant todo <= ids
        invariant forall s | s in found :: s.sessionId in ids - todo
        invariant forall s :: s in found <==> exists id | id in ids - todo && Live(Abs(map[]), now, id) :: sessions[id].value == s
        invariant forall i, j | 0 <= i < j < |found| :: found[i].sessionId != found[j].sessionId
        decreases |todo|
      {
        var id :| id in todo;
        var r := GetSession(now, id);
        ghost var before := ids - todo;
        todo := todo - {id};
        assert ids - todo == before + {id};
        if r.Some? {
          found := found + [r.value];
        }
      }
    }

    method DeleteAllForUser(now: int, k: KratosId) returns (ids: set<SessionId>)
      modifies this
      ensures ids == old(Members(Abs(map[]), now, k))
      ensures ids == {} ==> unchanged(this)
      ensures ids != {} ==> forall b :: Abs(b) == DeleteUser(old(Abs(b)), k, ids)
    {
      ids := SMembers(now, k);
      if ids == {} {
        return;
      }
      var todo := ids;
      while todo != {}
        invariant todo <= ids
        invariant sessions == old(sessions) - (ids - todo)
        invariant index == old(index) && locks == old(locks)
        decreases |todo|
      {
        var id :| id in todo;
        sessions := sessions - {id};
        todo := todo - {id};
      }
      index := index - {k};
    }

    method AcquireRefreshLock(now: int, id: SessionId) returns (acquired: bool)
      modifies this
      ensures acquired == !old(Locked(Abs(map[]), now, id))
      ensures forall b :: Abs(b) == Lock(old(Abs(b)), now, id)
    {
      acquired := !(id in locks && now < locks[id]);
      if acquired {
        locks := locks[id := now + LOCK_TTL];
      }
    }

    method ReleaseRefreshLock(id: SessionId)
      modifies this
      ensures forall b :: Abs(b) == Unlock(old(Abs(b)), id)
    {
      locks := locks - {id};
    }
  }

  // ---------------------------------------------------------------- the blacklist

  /** The entries after writing one id after the other. */
  function WithEntries(entries: map<SessionId, int>, ids: seq<SessionId>, end: int): map<SessionId, int> {
    if ids == [] then entries else WithEntries(entries, ids[..|ids| - 1], end)[ids[|ids| - 1] := end]
  }

  lemma {:induction false} WithEntriesIsUnion(entries: map<SessionId, int>, ids: seq<SessionId>, end: int)
    ensures WithEntries(entries, ids, end) == entries + map id | id in ids :: end
    decreases |ids|
  {
    if ids != [] {
      WithEntriesIsUnion(entries, ids[..|ids| - 1], end);
      assert forall i :: i in ids <==> i in ids[..|ids| - 1] || i == ids[|ids| - 1];
    }
  }

  class RedisBlacklist {
    var entries: map<SessionId, int>

    method Add(now: int, id: SessionId, ttl: int)
      modifies this
      ensures forall r: Redis | r.blacklist == old(entries) :: Blacklist(r, now, id, ttl) == r.(blacklist := entries)
    {
      var lifetime := ttl;
      if lifetime <= 0 {
        lifetime := MIN_BLACKLIST_TTL;
      }
      entries := entries[id := now + lifetime];
    }

    /** A failed read denies access. */
    method IsBlacklisted(now: int, id: SessionId, fails: bool) returns (b: bool, failed: bool)
      ensures failed == fails
      ensures b == (fails || (id in entries && now < entries[id]))
    {
      if fails {
        return true, true;
      }
      return id in entries && now < entries[id], false;
    }

    method AddBatch(now: int, ids: seq<SessionId>, ttl: int)
      modifies this
      ensures forall r: Redis | r.blacklist == old(entries) ::
        BlacklistAll(r, now, (set id | id in ids), ttl) == r.(blacklist := entries)
    {
      if |ids| == 0 || ttl <= 0 {
        return;
      }
      for i := 0 to |ids|
        invariant entries == WithEntries(old(entries), ids[..i], now + ttl)
      {
        assert ids[..i + 1][..i] == ids[..i];
        entries := entries[ids[i] := now + ttl];
      }
      WithEntriesIsUnion(old(entries), ids, now + ttl);
      ghost var written := set id | id in ids;
      assert (map id | id in written :: now + ttl) == map id | id in ids :: now + ttl;
      assert ids[..|ids|] == ids;
    }
  }

  // ---------------------------------------------------------------- loops of the service

  /** The longest remaining lifetime among `first` and `others`. */
  function MaxTtl(now: int, first: Session, others: seq<Session>): (m: int)
    ensures m >= first.expiresAt - now
    ensures forall s | s in others :: m >= s.expiresAt - now
  {
    if others == [] then first.expiresAt - now else
      var rest := MaxTtl(now, first, others[..|others| - 1]);
      var last := others[|others| - 1].expiresAt - now;
      if last > rest then last else rest
  }

  /** It is the remaining lifetime of one of them. */
  lemma {:induction false} MaxTtlIsAttained(now: int, first: Session, others: seq<Session>)
    ensures exists s | s in [first] + others :: MaxTtl(now, first, others) == s.expiresAt - now
    decreases |others|
  {
    assert first in [first] + others;
    if others != [] {
      var shorter := others[..|others| - 1];
      MaxTtlIsAttained(now, first, shorter);
      var s :| s in [first] + shorter && MaxTtl(now, first, shorter) == s.expiresAt - now;
      assert s in [first] + others && others[|others| - 1] in [first] + others;
    }
  }

  lemma MaxTtlStep(now: int, first: Session, all: seq<Session>, i: nat)
    requires i < |all|
    ensures var m, r := MaxTtl(now, first, all[..i]), all[i].expiresAt - now;
      MaxTtl(now, first, all[..i + 1]) == if r > m then r else m
  {
    assert all[..i + 1][..i] == all[..i];
  }

  /** The loop of LogoutAll that collects the ids and the longest remaining lifetime. */
  method CollectForBatch(now: int, first: Session, all: seq<Session>) returns (ids: seq<SessionId>, maxTtl: int)
    ensures |ids| == |all| && forall i | 0 <= i < |all| :: ids[i] == all[i].sessionId
    ensures maxTtl == MaxTtl(now, first, all)
  {
    maxTtl := first.expiresAt - now;
    ids := [];
    for i := 0 to |all|
      invariant |ids| == i && forall j | 0 <= j < i :: ids[j] == all[j].sessionId
      invariant maxTtl == MaxTtl(now, first, all[..i])
    {
      ids := ids + [all[i].sessionId];
      var remaining := all[i].expiresAt - now;
      MaxTtlStep(now, first, all, i);
      if remaining > maxTtl {
        maxTtl := remaining;
      }
    }
    assert all[..|all|] == all;
  }

  predicate Newer(updated: Option<Session>, sess: Session) {
    updated.Some? && updated.value.accessExp > sess.accessExp
  }

  /** The loop of a caller that lost the refresh lock. `clock(i)` is the time of the i-th
      loop test, `answers(i)` what the store answers at the i-th poll, `cancelled(i)` whether
      the request is cancelled while waiting after it. It polls at most MAX_WAIT /
      POLL_INTERVAL = 10 times, returns at once the first session whose token is newer, and
      otherwise falls back on one last read. */
  method AwaitWinner(sess: Session, clock: nat -> int, answers: nat -> Option<Session>, cancelled: nat -> bool)
    returns (result: Session, polls: nat)
    requires forall i: nat {:trigger clock(i + 1)} :: clock(i + 1) >= clock(i) + POLL_INTERVAL
    ensures polls <= 10
    ensures forall i: nat | i + 1 < polls :: !Newer(answers(i), sess) && !cancelled(i)
    ensures result == sess || exists i: nat {:trigger answers(i)} | i <= polls :: answers(i) == Some(result)
    ensures polls > 0 && Newer(answers(polls - 1), sess) ==> result == answers(polls - 1).value
    ensures polls > 0 && !Newer(answers(polls - 1), sess) && cancelled(polls - 1) ==> result == sess
    ensures (polls > 0 ==> !Newer(answers(polls - 1), sess) && !cancelled(polls - 1)) ==>
      && clock(polls) >= clock(0) + MAX_WAIT
      && result == if answers(polls).Some? then answers(polls).value else sess
  {
    var deadline := clock(0) + MAX_WAIT;
    polls := 0;
    while clock(polls) < deadline
      invariant polls <= 10
      invariant clock(polls) >= clock(0) + polls * POLL_INTERVAL
      invariant forall i: nat | i < polls :: !Newer(answers(i), sess) && !cancelled(i)
      decreases 10 - polls
    {
      assert polls < 10;
      var updated := answers(polls);
      polls := polls + 1;
      if Newer(updated, sess) {
        assert answers(polls - 1) == Some(updated.value);
        return updated.value, polls;
      }
      if cancelled(polls - 1) {
        return sess, polls;
      }
      assert clock((polls - 1) + 1) >= clock(polls - 1) + POLL_INTERVAL;
    }
    var last := answers(polls);
    if last == None {
      return sess, polls;
    }
    assert answers(polls) == Some(last.value);
    return last.value, polls;
  }
}
