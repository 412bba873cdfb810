/** The device_sessions table and the consumer that fills it from the event log. Times are
    nanoseconds. */
module DeviceSessions {
  import opened Options

  datatype Key = Key(kratosId: string, deviceId: string)

  datatype Row = Row(jti: Option<string>, issuedAt: int, lastUsedAt: Option<int>, revoked: bool,
                     userAgent: Option<string>, ip: Option<string>)

  type Table = map<Key, Row>

  /** A message of the topic. `issuedAt` is the parsed timestamp, if it parses. */
  datatype Message =
    | Malformed
    | OtherEvent
    | AuthSession(key: Key, jti: string, userAgent: string, ip: string, issuedAt: Option<int>)

  // ---------------------------------------------------------------- the upsert

  function Coalesce<T>(a: Option<T>, b: Option<T>): Option<T> {
    if a.Some? then a else b
  }

  /** SQL GREATEST, which ignores nulls. */
  function Greatest(a: Option<int>, b: Option<int>): Option<int> {
    if a.None? then b else if b.None? then a else if a.value >= b.value then a else b
  }

  function Merge(old_: Option<Row>, new_: Row): Row {
    if old_.None? then new_ else
      var row := old_.value;
      Row(Coalesce(new_.jti, row.jti),
          new_.issuedAt,
          Greatest(new_.lastUsedAt, row.lastUsedAt),
          if new_.jti.Some? && new_.jti != row.jti then false else row.revoked,
          new_.userAgent,
          new_.ip)
  }

  function NonEmpty(s: string): Option<string> {
    if s == "" then None else Some(s)
  }

  function At(t: Table, k: Key): Option<Row> {
    if k in t then Some(t[k]) else None
  }

  /** The row an event stands for; `now` replaces a timestamp that does not parse. */
  function RowOf(m: Message, now: int): Row
    requires m.AuthSession?
  {
    var issuedAt := if m.issuedAt.Some? then m.issuedAt.value else now;
    Row(NonEmpty(m.jti), issuedAt, Some(issuedAt), false, NonEmpty(m.userAgent), NonEmpty(m.ip))
  }

  function Process(t: Table, m: Message, now: int): Table {
    if m.AuthSession? then t[m.key := Merge(At(t, m.key), RowOf(m, now))] else t
  }

  // ---------------------------------------------------------------- the code

  const BACKOFF_MIN: int := 100_000_000
  const BACKOFF_MAX: int := 30_000_000_000

  /** What one round of the consumer's loop meets: whether the fetch brings the next message,
      and then whether the row could be saved and the offset committed. */
  datatype Round = Fetched(now: int, saved: bool, committed: bool) | FetchFailed | Stop

  /** A fetch beyond the end of the log waits until the consumer is stopped. */
  predicate Ends(c: Consumer, log: seq<Message>, r: Round) {
    r.Stop? || (r.Fetched? && c.position >= |log|)
  }

  /** A message is committed after it was processed, whatever came of that. */
  function AfterRound(c: Consumer, log: seq<Message>, r: Round): Consumer
    requires !Ends(c, log, r)
  {
    if r.FetchFailed? then c else
      Step(Step(c, log, ProcessNext(r.now, r.saved)), log, if r.committed then Commit else CommitLost)
  }

  function Rounds(c: Consumer, log: seq<Message>, rounds: seq<Round>): Consumer
    decreases rounds
  {
    if rounds == [] || Ends(c, log, rounds[0]) then c else Rounds(AfterRound(c, log, rounds[0]), log, rounds[1..])
  }

  /** How long the loop waits after this many failed fetches in a row before it. */
  function WaitAfter(streak: nat): int {
    if streak == 0 then BACKOFF_MIN else
      var longer := WaitAfter(streak - 1) * 3 / 2;
      if longer < BACKOFF_MAX then longer else BACKOFF_MAX
  }

  /** The waits start at 100 ms and grow until they are 30 seconds, where they stay. */
  lemma {:induction false} WaitsGrow(streak: nat)
    ensures BACKOFF_MIN <= WaitAfter(streak) <= BACKOFF_MAX
    ensures WaitAfter(streak) < BACKOFF_MAX ==> WaitAfter(streak + 1) > WaitAfter(streak)
    ensures WaitAfter(streak) == BACKOFF_MAX ==> WaitAfter(streak + 1) == BACKOFF_MAX
    ensures WaitAfter(0) == 100_000_000 && WaitAfter(1) == 150_000_000
  {
    assert WaitAfter(1) == WaitAfter(0) * 3 / 2;
    if streak > 0 {
      WaitsGrow(streak - 1);
    }
  }

  /** The waits of the loop, one for each failed fetch. */
  function Waits(c: Consumer, log: seq<Message>, rounds: seq<Round>, streak: nat): seq<int>
    decreases rounds
  {
    if rounds == [] || Ends(c, log, rounds[0]) then []
    else if rounds[0].FetchFailed? then [WaitAfter(streak)] + Waits(c, log, rounds[1..], streak + 1)
    else Waits(AfterRound(c, log, rounds[0]), log, rounds[1..], 0)
  }

  /** The loop is a run of the consumer below. */
  lemma {:induction false} RoundsAreEvents(c: Consumer, log: seq<Message>, rounds: seq<Round>) returns (es: seq<Event>)
    ensures Runs(c, log, es) && RunEvents(c, log, es) == Rounds(c, log, rounds)
    ensures (forall r | r in rounds :: r.Fetched? ==> r.saved) ==> AllSaved(es)
    decreases rounds
  {
    if rounds == [] || Ends(c, log, rounds[0]) {
      es := [];
    } else if rounds[0].FetchFailed? {
      es := RoundsAreEvents(c, log, rounds[1..]);
      assert forall r | r in rounds[1..] :: r in rounds;
    } else {
      var r := rounds[0];
      assert r in rounds && forall q | q in rounds[1..] :: q in rounds;
      var first, second := ProcessNext(r.now, r.saved), if r.committed then Commit else CommitLost;
      var rest := RoundsAreEvents(AfterRound(c, log, r), log, rounds[1..]);
      es := [first, second] + rest;
      assert es[1..] == [second] + rest && es[1..][1..] == rest;
    }
  }

  class DeviceSessionConsumer {
    var table: Table
    var position: nat
    var committed: nat
    ghost var high: nat
    ghost var base: Table

    ghost function Abs(): Consumer
      reads this
    {
      Consumer(table, committed, position, high, base)
    }

    method SaveDeviceSession(k: Key, row: Row)
      modifies this`table
      ensures table == old(table)[k := Merge(old(At(table, k)), row)]
    {
      if k !in table {
        table := table[k := row];
        return;
      }
      var o := table[k];
      var revoked := o.revoked;
      if row.jti.Some? && row.jti != o.jti {
        revoked := false;
      }
      table := table[k := Row(Coalesce(row.jti, o.jti), row.issuedAt, Greatest(row.lastUsedAt, o.lastUsedAt),
                              revoked, row.userAgent, row.ip)];
    }

    method UpdateLastUsedAt(k: Key, now: int)
      modifies this
      ensures table.Keys == old(table.Keys)
      ensures forall j | j in table :: table[j] == if j == k then old(table)[j].(lastUsedAt := Some(now)) else old(table)[j]
    {
      if k in table {
        table := table[k := table[k].(lastUsedAt := Some(now))];
      }
    }

    method RevokeDevice(k: Key)
      modifies this
      ensures table.Keys == old(table.Keys)
      ensures forall j | j in table :: table[j] == if j == k then old(table)[j].(revoked := true) else old(table)[j]
    {
      if k in table {
        table := table[k := table[k].(revoked := true)];
      }
    }

    method RevokeAllDevices(kratosId: string)
      modifies this
      ensures table.Keys == old(table.Keys)
      ensures forall j | j in table ::
        table[j] == if j.kratosId == kratosId then old(table)[j].(revoked := true) else old(table)[j]
    {
      table := map j | j in table :: if j.kratosId == kratosId then table[j].(revoked := true) else table[j];
    }

    /** A row that cannot be saved is skipped. */
    method ProcessMessage(m: Message, now: int, saved: bool)
      modifies this`table
      ensures table == if saved then Process(old(table), m, now) else old(table)
    {
      if m.AuthSession? && saved {
        SaveDeviceSession(m.key, RowOf(m, now));
      }
    }

    /** The fetch loop. A failed fetch waits, 1.5 times longer each time in a row, and never
        more than 30 seconds; a successful one starts again from 100 ms. */
    method Run(log: seq<Message>, rounds: seq<Round>) returns (waits: seq<int>)
      modifies this
      ensures Abs() == Rounds(old(Abs()), log, rounds)
      ensures waits == Waits(old(Abs()), log, rounds, 0)
    {
      var backoff := BACKOFF_MIN;
      waits := [];
      ghost var streak: nat := 0;
      for i := 0 to |rounds|
        invariant backoff == WaitAfter(streak)
        invariant waits + Waits(Abs(), log, rounds[i..], streak) == Waits(old(Abs()), log, rounds, 0)
        invariant Rounds(Abs(), log, rounds[i..]) == Rounds(old(Abs()), log, rounds)
      {
        assert rounds[i..][0] == rounds[i] && rounds[i..][1..] == rounds[i + 1..];
        if rounds[i].Stop? || (rounds[i].Fetched? && position >= |log|) {
          return;
        }
        if rounds[i].FetchFailed? {
          waits := waits + [backoff];
          backoff := if backoff * 3 / 2 < BACKOFF_MAX then backoff * 3 / 2 else BACKOFF_MAX;
          streak := streak + 1;
        } else {
          backoff, streak := BACKOFF_MIN, 0;
          ProcessAndCommit(log, rounds[i]);
        }
      }
    }

    method ProcessAndCommit(log: seq<Message>, r: Round)
      requires r.Fetched? && position < |log|
      modifies this
      ensures Abs() == AfterRound(old(Abs()), log, r)
    {
      ProcessMessage(log[position], r.now, r.saved);
      if position == high {
        high := high + 1;
      }
      position := position + 1;
      if r.committed {
        committed := position;
        base := table;
      }
    }
  }

  // ---------------------------------------------------------------- a log, once

  predicate WellFormed(log: seq<Message>) {
    forall i | 0 <= i < |log| :: log[i].AuthSession? ==> log[i].issuedAt.Some?
  }

  /** The log applied once, in order. With parsed timestamps the clock plays no part. */
  function Apply(t: Table, log: seq<Message>): Table {
    if log == [] then t else Process(Apply(t, log[..|log| - 1]), log[|log| - 1], 0)
  }

  lemma ClockIsIrrelevant(t: Table, m: Message, now: int)
    requires m.AuthSession? ==> m.issuedAt.Some?
    ensures Process(t, m, now) == Process(t, m, 0)
  {
  }

  lemma {:induction false} ApplyInParts(t: Table, a: seq<Message>, b: seq<Message>)
    ensures Apply(t, a + b) == Apply(Apply(t, a), b)
    decreases |b|
  {
    if b == [] {
      assert a + b == a;
    } else {
      assert (a + b)[..|a + b| - 1] == a + b[..|b| - 1];
      ApplyInParts(t, a, b[..|b| - 1]);
    }
  }

  /** An event brings its own time, or the time of processing if that does not parse; so
      processing such an event again later changes the row. */
  lemma UnparsedTimeIsNow(t: Table, m: Message, now: int, later: int)
    requires m.AuthSession? && now < later
    ensures m.key in Process(t, m, now) && Process(t, m, now)[m.key].issuedAt == if m.issuedAt.Some? then m.issuedAt.value else now
    ensures Process(Process(t, m, now), m, later) == Process(t, m, now) <==> m.issuedAt.Some?
  {
    if m.issuedAt.Some? {
      var once := Process(t, m, now);
      assert Process(once, m, later)[m.key] == once[m.key];
    } else {
      assert Process(Process(t, m, now), m, later)[m.key].issuedAt == later;
    }
  }

  // ---------------------------------------------------------------- one row

  predicate Hits(m: Message, k: Key) { m.AuthSession? && m.key == k }

  /** What a log does to one row. */
  function Fold(r: Option<Row>, log: seq<Message>, k: Key): Option<Row> {
    if log == [] then r else
      var before := Fold(r, log[..|log| - 1], k);
      var m := log[|log| - 1];
      if Hits(m, k) then Some(Merge(before, RowOf(m, 0))) else before
  }

  lemma {:induction false} ApplyIsFold(t: Table, log: seq<Message>, k: Key)
    ensures At(Apply(t, log), k) == Fold(At(t, k), log, k)
  {
    if log != [] {
      ApplyIsFold(t, log[..|log| - 1], k);
    }
  }

  predicate Untouched(log: seq<Message>, k: Key) {
    forall i | 0 <= i < |log| :: !Hits(log[i], k)
  }

  /** Every JTI the log brings for the row is `jti`. */
  predicate OnlyJti(log: seq<Message>, k: Key, jti: Option<string>) {
    forall i | 0 <= i < |log| && Hits(log[i], k) && NonEmpty(log[i].jti).Some? :: NonEmpty(log[i].jti) == jti
  }

  function LastJti(log: seq<Message>, k: Key): Option<string> {
    if log == [] then None else
      var m := log[|log| - 1];
      if Hits(m, k) && m.jti != "" then Some(m.jti) else LastJti(log[..|log| - 1], k)
  }

  /** The time of an event. With timestamps that parse the clock plays no part. */
  function TimeOf(m: Message): int
    requires m.AuthSession?
  {
    if m.issuedAt.Some? then m.issuedAt.value else 0
  }

  /** The latest time of an event of the row. */
  function LatestUse(log: seq<Message>, k: Key): Option<int> {
    if log == [] then None else
      var m := log[|log| - 1];
      var before := LatestUse(log[..|log| - 1], k);
      if !Hits(m, k) || (before.Some? && before.value > TimeOf(m)) then before else Some(TimeOf(m))
  }

  /** Issue time, user agent and address of the last event of the row. */
  function LastContext(log: seq<Message>, k: Key): Option<(int, Option<string>, Option<string>)> {
    if log == [] then None else
      var m := log[|log| - 1];
      if Hits(m, k) then Some((TimeOf(m), NonEmpty(m.userAgent), NonEmpty(m.ip)))
      else LastContext(log[..|log| - 1], k)
  }

  predicate AtLeast(a: Option<int>, b: Option<int>) { b.Some? ==> a.Some? && a.value >= b.value }

  /** `m` is the larger of the two. */
  predicate IsLarger(m: Option<int>, a: Option<int>, b: Option<int>) {
    AtLeast(m, a) && AtLeast(m, b) && (m == a || m == b)
  }

  lemma {:induction false} LatestUseIsMaximum(log: seq<Message>, k: Key)
    ensures forall i | 0 <= i < |log| && Hits(log[i], k) :: AtLeast(LatestUse(log, k), Some(TimeOf(log[i])))
    ensures LatestUse(log, k).Some? ==> exists i :: 0 <= i < |log| && Hits(log[i], k) && LatestUse(log, k).value == TimeOf(log[i])
  {
    if log != [] {
      var n := |log| - 1;
      LatestUseIsMaximum(log[..n], k);
      assert forall i | 0 <= i < n :: log[..n][i] == log[i];
      if LatestUse(log[..n], k).Some? && LatestUse(log, k) == LatestUse(log[..n], k) {
        var i :| 0 <= i < n && Hits(log[..n][i], k) && LatestUse(log[..n], k).value == TimeOf(log[..n][i]);
        assert Hits(log[i], k);
      }
    }
  }

  lemma {:induction false} JtiChain(log: seq<Message>, k: Key, jti: Option<string>)
    requires OnlyJti(log, k, jti)
    ensures LastJti(log, k).Some? ==> LastJti(log, k) == jti
  {
    if log != [] {
      var n := |log| - 1;
      assert OnlyJti(log[..n], k, jti);
      JtiChain(log[..n], k, jti);
      assert Hits(log[n], k) && log[n].jti != "" ==> NonEmpty(log[n].jti) == jti;
    }
  }

  /** The row after a log, field by field: last JTI brought, last context, latest use, and
      still revoked exactly if it was and every JTI brought was the one it had. */
  lemma {:induction false} FoldRow(r: Row, log: seq<Message>, k: Key)
    ensures var f := Fold(Some(r), log, k);
      && f.Some?
      && f.value.jti == (if LastJti(log, k).Some? then LastJti(log, k) else r.jti)
      && IsLarger(f.value.lastUsedAt, LatestUse(log, k), r.lastUsedAt)
      && (f.value.issuedAt, f.value.userAgent, f.value.ip) ==
         (if LastContext(log, k).Some? then LastContext(log, k).value else (r.issuedAt, r.userAgent, r.ip))
      && (f.value.revoked <==> r.revoked && OnlyJti(log, k, r.jti))
  {
    if log != [] {
      var n := |log| - 1;
      FoldRow(r, log[..n], k);
      OnlyJtiSplits(log, k, r.jti);
      if OnlyJti(log[..n], k, r.jti) {
        JtiChain(log[..n], k, r.jti);
      }
    }
  }

  lemma OnlyJtiSplits(log: seq<Message>, k: Key, jti: Option<string>)
    requires log != []
    ensures var n := |log| - 1;
      OnlyJti(log, k, jti) <==>
      OnlyJti(log[..n], k, jti) && (Hits(log[n], k) && log[n].jti != "" ==> Some(log[n].jti) == jti)
  {
    var n := |log| - 1;
    assert forall i | 0 <= i < n :: log[..n][i] == log[i];
  }

  lemma {:induction false} FoldNothing(log: seq<Message>, k: Key)
    ensures Fold(None, log, k).None? <==> Untouched(log, k)
    ensures Fold(None, log, k).Some? ==> !Fold(None, log, k).value.revoked
    ensures Fold(None, log, k).Some? ==>
      var f := Fold(None, log, k).value;
      && f.jti == LastJti(log, k) && f.lastUsedAt == LatestUse(log, k)
      && LastContext(log, k) == Some((f.issuedAt, f.userAgent, f.ip))
    ensures Untouched(log, k) ==> LastJti(log, k).None? && LatestUse(log, k).None? && LastContext(log, k).None?
  {
    if log != [] {
      var n := |log| - 1;
      FoldNothing(log[..n], k);
      assert Untouched(log, k) <==> Untouched(log[..n], k) && !Hits(log[n], k) by {
        assert forall i | 0 <= i < n :: log[..n][i] == log[i];
      }
    }
  }

  /** Applying a log to a row that has just seen it changes nothing. */
  lemma FoldTwice(r: Option<Row>, log: seq<Message>, k: Key)
    ensures Fold(Fold(r, log, k), log, k) == Fold(r, log, k)
  {
    FoldNothing(log, k);
    if r.Some? {
      FoldRow(r.value, log, k);
      if OnlyJti(log, k, r.value.jti) {
        JtiChain(log, k, r.value.jti);
      }
    }
    var once := Fold(r, log, k);
    if once.Some? {
      FoldRow(once.value, log, k);
    }
  }

  /** Redelivery of a part of the log that was just applied is absorbed by what follows. */
  lemma ReplayAbsorbed(t: Table, u: seq<Message>, v: seq<Message>)
    ensures Apply(Apply(t, u), u + v) == Apply(t, u + v)
  {
    ApplyInParts(Apply(t, u), u, v);
    ApplyInParts(t, u, v);
    var once := Apply(t, u);
    var twice := Apply(once, u);
    forall k: Key
      ensures At(twice, k) == At(once, k)
    {
      ApplyIsFold(t, u, k);
      ApplyIsFold(once, u, k);
      FoldTwice(At(t, k), u, k);
    }
    SameRows(twice, once);
  }

  lemma SameRows(a: Table, b: Table)
    requires forall k: Key :: At(a, k) == At(b, k)
    ensures a == b
  {
    forall k: Key
      ensures k in a <==> k in b
      ensures k in a ==> a[k] == b[k]
    {
      assert At(a, k) == At(b, k);
    }
  }

  /** A revoked row survives a redelivery exactly when every JTI redelivered for it is the
      one it holds: a redelivered stretch with an older login in it un-revokes the row. */
  lemma ReplayKeepsRevokedIff(t: Table, k: Key, log: seq<Message>)
    requires k in t && t[k].revoked
    ensures k in Apply(t, log) && (Apply(t, log)[k].revoked <==> OnlyJti(log, k, t[k].jti))
  {
    ApplyIsFold(t, log, k);
    FoldRow(t[k], log, k);
  }

  /** The smallest such stretch: two logins of a device, a revocation after both, and the
      two logins delivered again. */
  lemma RedeliveredOldLoginUnrevokes(t: Table, older: Message, newer: Message)
    requires older.AuthSession? && newer.AuthSession? && older.key == newer.key
    requires older.jti != "" && newer.jti != "" && older.jti != newer.jti
    ensures var seen := Apply(t, [older, newer]);
      && older.key in seen
      && !Apply(seen[older.key := seen[older.key].(revoked := true)], [older, newer])[older.key].revoked
  {
    var k, log := older.key, [older, newer];
    var seen := Apply(t, log);
    assert log[..1] == [older] && log[..1][..0] == [];
    assert Apply(t, log) == Process(Apply(t, [older]), newer, 0);
    var marked := seen[k := seen[k].(revoked := true)];
    assert marked[k].jti == Some(newer.jti);
    assert Hits(log[0], k) && !OnlyJti(log, k, marked[k].jti);
    ReplayKeepsRevokedIff(marked, k, log);
  }

  /** No delivery makes a row look less recently used: its last use is then the latest of what
      it was and of the times of the events delivered for it. */
  lemma ReplayKeepsLatestUse(t: Table, k: Key, log: seq<Message>)
    requires k in t
    ensures k in Apply(t, log)
    ensures var use := Apply(t, log)[k].lastUsedAt;
      && AtLeast(use, t[k].lastUsedAt)
      && (forall i | 0 <= i < |log| && Hits(log[i], k) :: AtLeast(use, Some(TimeOf(log[i]))))
      && (use == t[k].lastUsedAt || exists i :: 0 <= i < |log| && Hits(log[i], k) && use == Some(TimeOf(log[i])))
  {
    ApplyIsFold(t, log, k);
    FoldRow(t[k], log, k);
    LatestUseIsMaximum(log, k);
  }

  // ---------------------------------------------------------------- crashes

  /** `position` is the next message to process, `committed` where a restart resumes. `high`
      is the furthest position reached; `base` is the table at the last commit or crash. */
  datatype Consumer = Consumer(table: Table, committed: nat, position: nat, high: nat, base: Table)

  datatype Event = ProcessNext(now: int, saved: bool) | Commit | CommitLost | Crash

  predicate Enabled(c: Consumer, log: seq<Message>, e: Event) {
    e.ProcessNext? ==> c.position < |log|
  }

  function Step(c: Consumer, log: seq<Message>, e: Event): Consumer
    requires Enabled(c, log, e)
  {
    match e
    case ProcessNext(now, saved) =>
      c.(table := if saved then Process(c.table, log[c.position], now) else c.table, position := c.position + 1,
         high := if c.position == c.high then c.high + 1 else c.high)
    case Commit => c.(committed := c.position, base := c.table)
    case CommitLost => c
    case Crash => c.(position := c.committed, base := c.table)
  }

  predicate AllSaved(es: seq<Event>) {
    forall i | 0 <= i < |es| :: es[i].ProcessNext? ==> es[i].saved
  }

  ghost predicate Runs(c: Consumer, log: seq<Message>, es: seq<Event>)
    decreases |es|
  {
    es == [] || (Enabled(c, log, es[0]) && Runs(Step(c, log, es[0]), log, es[1..]))
  }

  function RunEvents(c: Consumer, log: seq<Message>, es: seq<Event>): Consumer
    requires Runs(c, log, es)
    decreases |es|
  {
    if es == [] then c else RunEvents(Step(c, log, es[0]), log, es[1..])
  }

  predicate Inv(c: Consumer, log: seq<Message>, start: Table) {
    && c.committed <= c.position <= c.high <= |log|
    && c.table == Apply(c.base, log[c.committed..c.position])
    && Apply(c.base, log[c.committed..c.high]) == Apply(start, log[..c.high])
  }

  lemma ProcessKeepsInv(c: Consumer, log: seq<Message>, start: Table, now: int)
    requires Inv(c, log, start) && WellFormed(log) && c.position < |log|
    ensures Inv(Step(c, log, ProcessNext(now, true)), log, start)
  {
    var p := c.position;
    ClockIsIrrelevant(c.table, log[p], now);
    OneMore(c.base, log, c.committed, p);
    if p == c.high {
      OneMore(start, log, 0, p);
    }
  }

  lemma OneMore(t: Table, log: seq<Message>, from: nat, to: nat)
    requires from <= to < |log|
    ensures Apply(t, log[from..to + 1]) == Process(Apply(t, log[from..to]), log[to], 0)
  {
    var part := log[from..to + 1];
    assert part[..|part| - 1] == log[from..to];
  }

  lemma CommitKeepsInv(c: Consumer, log: seq<Message>, start: Table)
    requires Inv(c, log, start)
    ensures Inv(Step(c, log, Commit), log, start)
  {
    assert log[c.committed..c.high] == log[c.committed..c.position] + log[c.position..c.high];
    ApplyInParts(c.base, log[c.committed..c.position], log[c.position..c.high]);
    assert log[c.position..c.position] == [];
  }

  lemma CrashKeepsInv(c: Consumer, log: seq<Message>, start: Table)
    requires Inv(c, log, start)
    ensures Inv(Step(c, log, Crash), log, start)
  {
    assert log[c.committed..c.high] == log[c.committed..c.position] + log[c.position..c.high];
    ReplayAbsorbed(c.base, log[c.committed..c.position], log[c.position..c.high]);
    assert log[c.committed..c.committed] == [];
  }

  lemma {:induction false} InvKept(c: Consumer, log: seq<Message>, start: Table, es: seq<Event>)
    requires Inv(c, log, start) && WellFormed(log) && Runs(c, log, es) && AllSaved(es)
    ensures Inv(RunEvents(c, log, es), log, start)
    decreases |es|
  {
    if es != [] {
      match es[0] {
        case ProcessNext(now, saved) => assert saved; ProcessKeepsInv(c, log, start, now);
        case Commit => CommitKeepsInv(c, log, start);
        case CommitLost =>
        case Crash => CrashKeepsInv(c, log, start);
      }
      InvKept(Step(c, log, es[0]), log, start, es[1..]);
    }
  }

  /** For every log, every starting table and every pattern of crashes, lost commits and
      redeliveries: whenever the consumer is as far as it has ever been, the table is the
      log up to there applied exactly once. */
  lemma ConvergesToOnce(start: Table, log: seq<Message>, es: seq<Event>)
    requires WellFormed(log) && Runs(Consumer(start, 0, 0, 0, start), log, es) && AllSaved(es)
    ensures var c := RunEvents(Consumer(start, 0, 0, 0, start), log, es);
      && c.position <= c.high <= |log|
      && (c.position == c.high ==> c.table == Apply(start, log[..c.position]))
      && (c.position == |log| ==> c.table == Apply(start, log))
  {
    var c0 := Consumer(start, 0, 0, 0, start);
    assert Inv(c0, log, start);
    InvKept(c0, log, start, es);
    assert log[..|log|] == log;
  }
}
