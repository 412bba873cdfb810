/** One outage, call by call: additions, cached and uncached lookups, background syncs,
    database errors and clean-up in any order. Every call is split where it touches the table
    or the cache, so other calls may come between: an addition (alone or in a batch) writes
    the table and later the cache, a lookup that misses the cache reads the table and later
    caches the answer, a sync lists the table and later caches its rows one by one. */
module OutageBlacklist {
  import opened Options
  import opened ResilientBlacklists

  /** An addition between the table and the cache. Its end was computed from the time `since`
      at which its call began. */
  datatype Adding = Adding(id: Id, ttl: int, since: int)

  /** A lookup between its read of the table, at time `at`, and its write to the cache.
      `overtaken` is the latest end of the additions of its id completed meanwhile. */
  datatype Pending = Pending(id: Id, result: bool, at: int, overtaken: Option<int>)

  /** What a sync listed, and when. */
  datatype Listing = Listing(rows: Table, at: int)

  /** `promised` is the simple map the blacklist should agree with: the latest end of all
      completed additions of an id; `given` counts those that only reached the table, and what
      was there before the outage, too.
      `stale` is how long an overtaken lookup can mislead. */
  datatype Outage = Outage(now: int, l1: Cache, pg: Table, adding: map<nat, Adding>, pending: map<nat, Pending>,
                           listing: Listing, promised: Table, given: Table, stale: Table)

  datatype Action =
    | Tick(d: nat)
    | AddTable(n: nat, id: Id, ttl: int, since: int, pgOk: bool)
    | AddCache(n: nat)
    | LookupCached(id: Id)
    | LookupRead(n: nat, id: Id, pgOk: bool)
    | LookupCache(n: nat)
    | SyncList
    | SyncSet(id: Id)
    | CleanUp

  predicate Enabled(s: Outage, a: Action) {
    match a
    case AddTable(n, _, _, since, _) => n !in s.adding && since <= s.now
    case AddCache(n) => n in s.adding
    case LookupCached(id) => Found(s.l1, s.now, id)
    case LookupRead(n, _, _) => n !in s.pending
    case LookupCache(n) => n in s.pending
    case SyncSet(id) => id in s.listing.rows
    case _ => true
  }

  function EndOfAdding(a: Adding): int { a.since + a.ttl }

  /** A completed addition of the id has not ended. */
  predicate Revoked(s: Outage, id: Id) {
    id in s.promised && s.now < s.promised[id]
  }

  /** The lookup read "not blacklisted", and an addition completed since then has not ended. */
  predicate Overtaken(s: Outage, p: Pending) {
    !p.result && p.overtaken.Some? && s.now < p.overtaken.value
  }

  function Later(x: Option<int>, y: int): Option<int> {
    Some(if x.Some? && x.value > y then x.value else y)
  }

  function Overtake(pending: map<nat, Pending>, id: Id, end: int): map<nat, Pending> {
    map n | n in pending ::
      if pending[n].id == id then pending[n].(overtaken := Later(pending[n].overtaken, end)) else pending[n]
  }

  function Next(s: Outage, a: Action): Outage
    requires Enabled(s, a)
  {
    match a
    case Tick(d) => s.(now := s.now + d)
    case AddTable(n, id, ttl, since, pgOk) =>
      if !pgOk then s else
        s.(pg := Upsert(s.pg, id, since + ttl),
           given := Upsert(s.given, id, since + ttl),
           adding := s.adding[n := Adding(id, ttl, since)])
    case AddCache(n) => AfterAddCache(s, n)
    case LookupCached(_) => s
    case LookupRead(n, id, pgOk) =>
      if !pgOk then s else s.(pending := s.pending[n := Pending(id, Active(s.pg, s.now, id), s.now, None)])
    case LookupCache(n) => AfterLookupCache(s, n)
    case SyncList => s.(listing := Listing(map id | id in s.pg && Active(s.pg, s.now, id) :: s.pg[id], s.now))
    case SyncSet(id) =>
      var ttl := s.listing.rows[id] - s.listing.at;
      if ttl <= 0 then s else s.(l1 := CacheSet(s.l1, s.now, id, true, ttl))
    case CleanUp => s.(pg := map id | id in s.pg && Active(s.pg, s.now, id) :: s.pg[id])
  }

  function AfterAddCache(s: Outage, n: nat): Outage
    requires n in s.adding
  {
    var a := s.adding[n];
    s.(l1 := CacheSet(s.l1, s.now, a.id, true, a.ttl),
       adding := s.adding - {n},
       pending := Overtake(s.pending, a.id, EndOfAdding(a)),
       promised := Upsert(s.promised, a.id, EndOfAdding(a)))
  }

  function AfterLookupCache(s: Outage, n: nat): Outage
    requires n in s.pending
  {
    var p := s.pending[n];
    s.(l1 := CacheSet(s.l1, s.now, p.id, p.result, 0),
       pending := s.pending - {n},
       stale := if Overtaken(s, p) then s.stale[p.id := s.now + DEFAULT_EXPIRATION] else s.stale)
  }

  /** What the caller is told, and about which id, when the step answers without error. A
      failed read of the table answers "blacklisted" together with an error. */
  datatype Told = Nothing | Told(id: Id, blacklisted: bool)

  function Tells(s: Outage, a: Action): Told
    requires Enabled(s, a)
  {
    match a
    case LookupCached(id) => Told(id, s.l1[id].value)
    case LookupCache(n) => Told(s.pending[n].id, s.pending[n].result)
    case _ => Nothing
  }

  ghost predicate Runs(s: Outage, trace: seq<Action>)
    decreases |trace|
  {
    trace == [] || (Enabled(s, trace[0]) && Runs(Next(s, trace[0]), trace[1..]))
  }

  function Run(s: Outage, trace: seq<Action>): Outage
    requires Runs(s, trace)
    decreases |trace|
  {
    if trace == [] then s else Run(Next(s, trace[0]), trace[1..])
  }

  /** The latest end that the table and the cache hold for each id. */
  function Held(l1: Cache, pg: Table): Table {
    var yes := map id | id in l1 && l1[id].value && l1[id].end.Some? :: l1[id].end.value;
    map id | id in pg.Keys + yes.Keys ::
      if id in pg && (id in yes ==> yes[id] <= pg[id]) then pg[id] else yes[id]
  }

  /** An outage begins with any cache and any table, whose ends count as given; no call is
      under way. */
  function Begin(l1: Cache, pg: Table): Outage {
    Outage(0, l1, pg, map[], map[], Listing(map[], 0), map[], Held(l1, pg), map[])
  }

  // ---------------------------------------------------------------- never too early

  /** What was promised or written to the table for the id is still there. */
  predicate TableOk(s: Outage, id: Id) {
    && (Revoked(s, id) ==> id in s.pg && s.pg[id] >= s.promised[id])
    && (forall n | n in s.adding && s.adding[n].id == id && s.now < EndOfAdding(s.adding[n]) ::
          id in s.pg && s.pg[id] >= EndOfAdding(s.adding[n]))
  }

  /** A lookup that read "not blacklisted" knows of no promise but those that overtook it. */
  predicate PendingOk(s: Outage, id: Id) {
    forall n | n in s.pending && s.pending[n].id == id :: LookupOk(s, s.pending[n])
  }

  predicate LookupOk(s: Outage, p: Pending) {
    && p.at <= s.now
    && (p.overtaken.Some? ==> p.id in s.promised && p.overtaken.value <= s.promised[p.id])
    && (!p.result && p.id in s.promised ==> s.promised[p.id] <= p.at || p.overtaken == Some(s.promised[p.id]))
  }

  /** The cache does not deny a revoked id. */
  predicate SafeFor(s: Outage, id: Id) {
    Revoked(s, id) && Found(s.l1, s.now, id) ==> s.l1[id].value
  }

  lemma TableStaysOk(s: Outage, a: Action, id: Id)
    requires Enabled(s, a) && TableOk(s, id)
    ensures TableOk(Next(s, a), id)
  {
  }

  lemma PendingStaysOk(s: Outage, a: Action, id: Id)
    requires Enabled(s, a) && TableOk(s, id) && PendingOk(s, id)
    ensures PendingOk(Next(s, a), id)
  {
  }

  /** The step caches an answer about the id that an addition has overtaken. */
  predicate CachesOvertaken(s: Outage, a: Action, id: Id)
    requires Enabled(s, a)
  {
    a.LookupCache? && s.pending[a.n].id == id && Overtaken(s, s.pending[a.n])
  }

  /** In any state of a run where the id is safe, a step makes callers hear "not blacklisted"
      about it while it is revoked exactly if it ends a lookup that an addition, still in
      force, has completed since the lookup read the table. */
  lemma SafeIffNotOvertaken(s: Outage, a: Action, id: Id)
    requires Enabled(s, a) && TableOk(s, id) && PendingOk(s, id) && SafeFor(s, id)
    ensures SafeFor(Next(s, a), id) <==> !CachesOvertaken(s, a, id)
    ensures Tells(s, a) == Told(id, false) && Revoked(s, id) <==> CachesOvertaken(s, a, id)
  {
    if a.LookupCache? && s.pending[a.n].id == id {
      assert LookupOk(s, s.pending[a.n]);
    }
  }

  /** No lookup of the id ends overtaken. */
  ghost predicate NeverOvertaken(s: Outage, trace: seq<Action>, id: Id)
    requires Runs(s, trace)
    decreases |trace|
  {
    trace == [] || (!CachesOvertaken(s, trace[0], id) && NeverOvertaken(Next(s, trace[0]), trace[1..], id))
  }

  lemma {:induction false} StaysOk(s: Outage, trace: seq<Action>, id: Id)
    requires Runs(s, trace) && TableOk(s, id) && PendingOk(s, id)
    ensures TableOk(Run(s, trace), id) && PendingOk(Run(s, trace), id)
    decreases |trace|
  {
    if trace != [] {
      TableStaysOk(s, trace[0], id);
      PendingStaysOk(s, trace[0], id);
      StaysOk(Next(s, trace[0]), trace[1..], id);
    }
  }

  lemma {:induction false} StaysSafe(s: Outage, trace: seq<Action>, id: Id)
    requires Runs(s, trace) && NeverOvertaken(s, trace, id)
    requires TableOk(s, id) && PendingOk(s, id) && SafeFor(s, id)
    ensures SafeFor(Run(s, trace), id)
    decreases |trace|
  {
    if trace != [] {
      TableStaysOk(s, trace[0], id);
      PendingStaysOk(s, trace[0], id);
      SafeIffNotOvertaken(s, trace[0], id);
      StaysSafe(Next(s, trace[0]), trace[1..], id);
    }
  }

  /** Starting an outage with any cache and any table, and as long as no lookup of the id was
      overtaken: whatever the order of calls, a caller is told "not blacklisted" before the
      latest end of the id's completed additions exactly if its own lookup was overtaken. */
  lemma NeverFalseBeforeEnd(l1: Cache, pg: Table, trace: seq<Action>, a: Action, id: Id)
    requires Runs(Begin(l1, pg), trace) && NeverOvertaken(Begin(l1, pg), trace, id)
    requires Enabled(Run(Begin(l1, pg), trace), a)
    ensures var s := Run(Begin(l1, pg), trace);
      Tells(s, a) == Told(id, false) && Revoked(s, id) <==> CachesOvertaken(s, a, id)
  {
    var s0 := Begin(l1, pg);
    StaysOk(s0, trace, id);
    StaysSafe(s0, trace, id);
    SafeIffNotOvertaken(Run(s0, trace), a, id);
  }

  predicate CompletesAddition(s: Outage, a: Action, id: Id)
    requires Enabled(s, a)
  {
    a.AddCache? && s.adding[a.n].id == id
  }

  /** Some step of the run completes an addition of the id. */
  ghost predicate AdditionCompleted(s: Outage, trace: seq<Action>, id: Id)
    requires Runs(s, trace)
    decreases |trace|
  {
    trace != [] && (CompletesAddition(s, trace[0], id) || AdditionCompleted(Next(s, trace[0]), trace[1..], id))
  }

  lemma OtherStepsDoNotMark(s: Outage, a: Action, n: nat)
    requires Enabled(s, a) && n in s.pending && a != LookupCache(n) && !a.AddCache?
    ensures n in Next(s, a).pending && Next(s, a).pending[n] == s.pending[n]
  {
  }

  lemma StepOvertakes(s: Outage, a: Action, n: nat)
    requires Enabled(s, a) && n in s.pending && a != LookupCache(n)
    ensures var s' := Next(s, a);
      && n in s'.pending && s'.pending[n].(overtaken := None) == s.pending[n].(overtaken := None)
      && (s'.pending[n].overtaken.Some? <==> s.pending[n].overtaken.Some? || CompletesAddition(s, a, s.pending[n].id))
  {
    if a.AddCache? {
      assert Next(s, a).pending == Overtake(s.pending, s.adding[a.n].id, EndOfAdding(s.adding[a.n]));
    } else {
      OtherStepsDoNotMark(s, a, n);
    }
  }

  /** A lookup is marked exactly if an addition of its id completes while it is under way. */
  lemma {:induction false} MarkedIffAdditionCompleted(s: Outage, trace: seq<Action>, n: nat)
    requires Runs(s, trace) && n in s.pending && forall i | 0 <= i < |trace| :: trace[i] != LookupCache(n)
    ensures var s' := Run(s, trace);
      && n in s'.pending && s'.pending[n].id == s.pending[n].id && s'.pending[n].result == s.pending[n].result
      && (s'.pending[n].overtaken.Some? <==> s.pending[n].overtaken.Some? || AdditionCompleted(s, trace, s.pending[n].id))
    decreases |trace|
  {
    if trace != [] {
      assert trace[0] != LookupCache(n);
      StepOvertakes(s, trace[0], n);
      assert forall i | 0 <= i < |trace[1..]| :: trace[1..][i] == trace[i + 1];
      MarkedIffAdditionCompleted(Next(s, trace[0]), trace[1..], n);
    }
  }

  /** Reading the table and caching the answer at once is the whole-call lookup; it is never
      overtaken. */
  lemma UninterruptedLookupIsSafe(s: Outage, n: nat, id: Id)
    requires Enabled(s, LookupRead(n, id, true)) && !Found(s.l1, s.now, id)
    ensures var s' := Next(s, LookupRead(n, id, true));
      && !CachesOvertaken(s', LookupCache(n), id)
      && Next(s', LookupCache(n)).l1 == Lookup(s.l1, s.pg, s.now, id, true).l1
      && Tells(s', LookupCache(n)) == Told(id, Lookup(s.l1, s.pg, s.now, id, true).blacklisted)
  {
  }

  /** The whole-call lookup in the other cases: a cached answer is told as it is and nothing
      changes; a table that is needed and fails denies with an error. */
  lemma LookupAnswers(s: Outage, id: Id, pgOk: bool)
    ensures var r := Lookup(s.l1, s.pg, s.now, id, pgOk);
      && (Enabled(s, LookupCached(id)) ==>
            Tells(s, LookupCached(id)) == Told(id, r.blacklisted) && !r.failed && r.l1 == s.l1)
      && (!Enabled(s, LookupCached(id)) && !pgOk ==> r.blacklisted && r.failed && r.l1 == s.l1)
      && (r.failed <==> !Enabled(s, LookupCached(id)) && !pgOk)
  {
  }

  /** So in every run in which no lookup of the id was overtaken, a whole lookup answers
      "blacklisted" until the latest end of the completed additions, whether the cache answers,
      the table answers, or neither does. */
  lemma LookupNotFalseBeforeEnd(l1: Cache, pg: Table, trace: seq<Action>, id: Id, pgOk: bool)
    requires Runs(Begin(l1, pg), trace) && NeverOvertaken(Begin(l1, pg), trace, id)
    requires Revoked(Run(Begin(l1, pg), trace), id)
    ensures var s := Run(Begin(l1, pg), trace); Lookup(s.l1, s.pg, s.now, id, pgOk).blacklisted
  {
    StaysOk(Begin(l1, pg), trace, id);
    StaysSafe(Begin(l1, pg), trace, id);
  }

  /** What was added is answered from the cache for its whole life, even if the table fails;
      what was read from the table for one cache lifetime. */
  lemma CacheCarriesAnswers(l1: Cache, pg: Table, now: int, id: Id, ttl: int, later: int)
    requires now <= later
    ensures ttl > 0 && later <= now + ttl ==>
      Lookup(CacheSet(l1, now, id, true, ttl), pg, later, id, false) == Answer(true, false, CacheSet(l1, now, id, true, ttl))
    ensures later <= now + DEFAULT_EXPIRATION ==>
      var first := Lookup(l1, pg, now, id, true);
      !Found(l1, now, id) ==> Lookup(first.l1, pg, later, id, false) == first
  {
  }

  // ---------------------------------------------------------------- a sync

  /** Listing the table and caching each row, with nobody in between, is the whole sync. */
  lemma {:induction false} SyncIsSteps(s: Outage) returns (trace: seq<Action>)
    ensures Runs(s, trace) && Run(s, trace).l1 == Synced(s.l1, s.pg, s.now)
  {
    RunAppend(s, [], SyncList);
    trace := SyncRows(s, [] + [SyncList], {});
  }

  /** `done` are the rows cached so far. */
  lemma {:induction false} SyncRows(s: Outage, before: seq<Action>, done: set<Id>) returns (trace: seq<Action>)
    requires Runs(s, before)
    requires var s1, rows := Run(s, before), map id | id in s.pg && Active(s.pg, s.now, id) :: s.pg[id];
      && s1.now == s.now && s1.listing == Listing(rows, s.now) && done <= rows.Keys
      && s1.l1 == s.l1 + map id | id in done :: Item(true, Some(s.pg[id]))
    ensures Runs(s, trace) && Run(s, trace).l1 == Synced(s.l1, s.pg, s.now)
    decreases |(set id | id in s.pg && Active(s.pg, s.now, id)) - done|
  {
    var active := set id | id in s.pg && Active(s.pg, s.now, id);
    if active - done == {} {
      forall id | id in active
        ensures id in done
      {
        assert id !in active - done;
      }
      trace := before;
      AllRowsSynced(s, done);
    } else {
      var id :| id in active - done;
      RunAppend(s, before, SyncSet(id));
      OneMoreRow(s, Run(s, before), done, id);
      assert active - (done + {id}) == (active - done) - {id};
      trace := SyncRows(s, before + [SyncSet(id)], done + {id});
    }
  }

  lemma AllRowsSynced(s: Outage, done: set<Id>)
    requires done == set id | id in s.pg && Active(s.pg, s.now, id)
    ensures s.l1 + (map id | id in done :: Item(true, Some(s.pg[id]))) == Synced(s.l1, s.pg, s.now)
  {
  }

  lemma OneMoreRow(s: Outage, s1: Outage, done: set<Id>, id: Id)
    requires id in s.pg && Active(s.pg, s.now, id) && done <= s.pg.Keys
    requires s1.now == s.now && id in s1.listing.rows && s1.listing.rows[id] == s.pg[id] && s1.listing.at == s.now
    requires s1.l1 == s.l1 + map i | i in done :: Item(true, Some(s.pg[i]))
    ensures var s2 := Next(s1, SyncSet(id));
      && s2.now == s1.now && s2.listing == s1.listing
      && s2.l1 == s.l1 + map i | i in done + {id} :: Item(true, Some(s.pg[i]))
  {
  }

  // ---------------------------------------------------------------- an overtaken lookup

  /** A lookup reads the table, the id is revoked, the lookup caches its old answer: callers
      are now told "not blacklisted", although the id is revoked for any lifetime ttl. */
  lemma OvertakenLookupHidesRevocation(id: Id, ttl: int) returns (trace: seq<Action>)
    requires ttl > 0
    ensures var s := Begin(map[], map[]);
      && Runs(s, trace)
      && Revoked(Run(s, trace), id) && Enabled(Run(s, trace), LookupCached(id))
      && Tells(Run(s, trace), LookupCached(id)) == Told(id, false)
  {
    var s := Begin(map[], map[]);
    trace := [];
    RunAppend(s, trace, LookupRead(0, id, true));
    trace := trace + [LookupRead(0, id, true)];
    RunAppend(s, trace, AddTable(0, id, ttl, 0, true));
    trace := trace + [AddTable(0, id, ttl, 0, true)];
    RunAppend(s, trace, AddCache(0));
    trace := trace + [AddCache(0)];
    RunAppend(s, trace, LookupCache(0));
    trace := trace + [LookupCache(0)];
  }

  /** A cached "not blacklisted" about a revoked id ends with the harm of some overtaken
      lookup. */
  predicate StaleFor(s: Outage, id: Id) {
    Revoked(s, id) && Found(s.l1, s.now, id) && !s.l1[id].value ==>
      id in s.stale && s.l1[id].end.Some? && s.l1[id].end.value <= s.stale[id]
  }

  lemma LookupStaysStale(s: Outage, n: nat, id: Id)
    requires n in s.pending && PendingOk(s, id) && StaleFor(s, id)
    ensures StaleFor(AfterLookupCache(s, n), id)
  {
    if s.pending[n].id == id {
      assert LookupOk(s, s.pending[n]);
    }
  }

  lemma StepStaysStale(s: Outage, a: Action, id: Id)
    requires Enabled(s, a) && PendingOk(s, id) && StaleFor(s, id)
    ensures StaleFor(Next(s, a), id)
  {
    if a.LookupCache? {
      LookupStaysStale(s, a.n, id);
    }
  }

  lemma {:induction false} StaysStale(s: Outage, trace: seq<Action>, id: Id)
    requires Runs(s, trace) && TableOk(s, id) && PendingOk(s, id) && StaleFor(s, id)
    ensures StaleFor(Run(s, trace), id)
    decreases |trace|
  {
    if trace != [] {
      TableStaysOk(s, trace[0], id);
      PendingStaysOk(s, trace[0], id);
      StepStaysStale(s, trace[0], id);
      StaysStale(Next(s, trace[0]), trace[1..], id);
    }
  }

  /** Even so the damage is bounded, in every run: a cached "not blacklisted" about a revoked
      id comes from an overtaken lookup that ended at most one cache lifetime ago. */
  lemma OvertakenLookupMisleadsOneLifetime(l1: Cache, pg: Table, trace: seq<Action>, id: Id)
    requires Runs(Begin(l1, pg), trace)
    requires var s := Run(Begin(l1, pg), trace);
      Enabled(s, LookupCached(id)) && Revoked(s, id) && Tells(s, LookupCached(id)) == Told(id, false)
    ensures var s := Run(Begin(l1, pg), trace); id in s.stale && s.now <= s.stale[id]
  {
    StaysStale(Begin(l1, pg), trace, id);
  }

  // ---------------------------------------------------------------- not much too late

  /** The latest end written for the id reaches to `end`. */
  predicate Gave(s: Outage, id: Id, end: int) { id in s.given && end <= s.given[id] }

  /** Nothing in the table says more than was given. */
  predicate TableBounded(s: Outage, id: Id) {
    && (id in s.pg ==> Gave(s, id, s.pg[id]))
    && (id in s.listing.rows ==> Gave(s, id, s.listing.rows[id]))
  }

  /** Nor does anything on its way from there. */
  predicate CallsBounded(s: Outage, id: Id) {
    && (forall n | n in s.adding && s.adding[n].id == id :: Gave(s, id, EndOfAdding(s.adding[n])))
    && (forall n | n in s.pending && s.pending[n].id == id && s.pending[n].result :: Gave(s, id, s.pending[n].at))
  }

  /** A cached yes ends at most `d` and one cache lifetime after the latest end given. */
  predicate CacheBounded(s: Outage, id: Id, d: int) {
    id in s.l1 && s.l1[id].value ==>
      s.l1[id].end.Some? && Gave(s, id, s.l1[id].end.value - d - DEFAULT_EXPIRATION)
  }

  /** A call that writes the cache for this id began, or read the table, at most `d` ago. */
  predicate Quick(s: Outage, a: Action, id: Id, d: int)
    requires Enabled(s, a)
  {
    match a
    case AddCache(n) => s.adding[n].id == id ==> s.now <= s.adding[n].since + d
    case LookupCache(n) => s.pending[n].id == id ==> s.now <= s.pending[n].at + d
    case SyncSet(other) => other == id ==> s.now <= s.listing.at + d
    case _ => true
  }

  predicate SourcesBounded(s: Outage, id: Id) { TableBounded(s, id) && CallsBounded(s, id) }

  lemma TableStaysBounded(s: Outage, a: Action, id: Id)
    requires Enabled(s, a) && TableBounded(s, id)
    ensures TableBounded(Next(s, a), id)
  {
  }

  lemma CallsStayBounded(s: Outage, a: Action, id: Id)
    requires Enabled(s, a) && SourcesBounded(s, id)
    ensures CallsBounded(Next(s, a), id)
  {
  }

  /** Among quick steps a negative lifetime is the one input that breaks the bound: the cache
      keeps such an item for ever. */
  lemma BoundedIffLifetimeNotNegative(s: Outage, a: Action, id: Id, d: nat)
    requires Enabled(s, a) && Quick(s, a, id, d) && SourcesBounded(s, id) && CacheBounded(s, id, d)
    ensures CacheBounded(Next(s, a), id, d) <==> !(CompletesAddition(s, a, id) && s.adding[a.n].ttl < 0)
  {
  }

  predicate NoNegativeAdding(s: Outage, id: Id) {
    forall n | n in s.adding && s.adding[n].id == id :: s.adding[n].ttl >= 0
  }

  predicate NegativeAddition(a: Action, id: Id) { a.AddTable? && a.id == id && a.ttl < 0 }

  lemma NoNegativeAddingKept(s: Outage, a: Action, id: Id)
    requires Enabled(s, a) && NoNegativeAdding(s, id) && !NegativeAddition(a, id)
    ensures NoNegativeAdding(Next(s, a), id)
  {
  }

  /** Every step for the id is quick, and none adds it with a negative lifetime. */
  ghost predicate QuickRun(s: Outage, trace: seq<Action>, id: Id, d: int)
    requires Runs(s, trace)
    decreases |trace|
  {
    trace == [] ||
    (Quick(s, trace[0], id, d) && !NegativeAddition(trace[0], id) && QuickRun(Next(s, trace[0]), trace[1..], id, d))
  }

  lemma {:induction false} StaysBounded(s: Outage, trace: seq<Action>, id: Id, d: nat)
    requires Runs(s, trace) && QuickRun(s, trace, id, d)
    requires SourcesBounded(s, id) && CacheBounded(s, id, d) && NoNegativeAdding(s, id)
    ensures SourcesBounded(Run(s, trace), id) && CacheBounded(Run(s, trace), id, d)
    decreases |trace|
  {
    if trace != [] {
      TableStaysBounded(s, trace[0], id);
      CallsStayBounded(s, trace[0], id);
      BoundedIffLifetimeNotNegative(s, trace[0], id, d);
      NoNegativeAddingKept(s, trace[0], id);
      StaysBounded(Next(s, trace[0]), trace[1..], id, d);
    }
  }

  /** Where calls for an id take at most `d` from their start or their read of the table to the
      cache, and no item for it was cached for ever: it is said to be blacklisted at most `d`
      and one cache lifetime after the latest end it was given, and never if it was given
      none. */
  lemma NeverTrueLongAfterEnd(l1: Cache, pg: Table, trace: seq<Action>, a: Action, id: Id, d: nat)
    requires id in l1 && l1[id].value ==> l1[id].end.Some?
    requires Runs(Begin(l1, pg), trace) && QuickRun(Begin(l1, pg), trace, id, d)
    requires var s := Run(Begin(l1, pg), trace); Enabled(s, a) && Quick(s, a, id, d) && Tells(s, a) == Told(id, true)
    ensures var s := Run(Begin(l1, pg), trace); id in s.given && s.now <= s.given[id] + d + DEFAULT_EXPIRATION
  {
    StaysBounded(Begin(l1, pg), trace, id, d);
  }

  /** An addition with a negative lifetime, and any time later the cache still says
      "blacklisted", although the addition was over before it began. */
  lemma NegativeLifetimeNeverEnds(s: Outage, n: nat, id: Id, ttl: int, d: nat)
    requires n !in s.adding && ttl < 0
    ensures var s1 := Next(s, AddTable(n, id, ttl, s.now, true));
      var s2 := Next(Next(s1, AddCache(n)), Tick(d));
      Enabled(s2, LookupCached(id)) && Tells(s2, LookupCached(id)) == Told(id, true)
  {
  }

  // ---------------------------------------------------------------- batches

  /** The steps of a batch that began at `since`. */
  function Adds(n: nat, ids: seq<Id>, ttl: int, since: int): seq<Action> {
    if ids == [] then []
    else Adds(n, ids[..|ids| - 1], ttl, since) + [AddTable(n, ids[|ids| - 1], ttl, since, true)] + [AddCache(n)]
  }

  /** A batch that fails part-way behaves as the additions of its prefix, one by one. */
  lemma {:induction false} BatchIsAdditions(s: Outage, n: nat, ids: seq<Id>, ttl: int)
    requires n !in s.adding
    ensures Runs(s, Adds(n, ids, ttl, s.now))
    ensures var s' := Run(s, Adds(n, ids, ttl, s.now));
      && s'.pg == UpsertAll(s.pg, ids, s.now + ttl)
      && s'.l1 == CacheAll(s.l1, s.now, ids, ttl)
      && s'.promised == UpsertAll(s.promised, ids, s.now + ttl)
      && s'.now == s.now && s'.adding == s.adding
    decreases |ids|
  {
    if ids != [] {
      var last := |ids| - 1;
      BatchIsAdditions(s, n, ids[..last], ttl);
      var first := Adds(n, ids[..last], ttl, s.now);
      RunAppend(s, first, AddTable(n, ids[last], ttl, s.now, true));
      RunAppend(s, first + [AddTable(n, ids[last], ttl, s.now, true)], AddCache(n));
    }
  }

  lemma {:induction false} RunAppend(s: Outage, trace: seq<Action>, a: Action)
    requires Runs(s, trace) && Enabled(Run(s, trace), a)
    ensures Runs(s, trace + [a]) && Run(s, trace + [a]) == Next(Run(s, trace), a)
    decreases |trace|
  {
    if trace == [] {
      assert [a][1..] == [] && trace + [a] == [a];
    } else {
      assert (trace + [a])[1..] == trace[1..] + [a];
      RunAppend(Next(s, trace[0]), trace[1..], a);
    }
  }
}
