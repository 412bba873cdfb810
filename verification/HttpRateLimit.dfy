/** The HTTP rate limiter: one counter per client address and fixed window, with a background
    sweep that forgets stale counters. Times are nanoseconds. */
module HttpRateLimit {

  type Ip = string

  const WINDOW: int := 60_000_000_000

  datatype Bucket = Bucket(count: nat, windowStart: int)

  type Buckets = map<Ip, Bucket>

  /** The bucket after a call at `now`, from the bucket found, or a new one. */
  function Counted(m: Buckets, now: int, ip: Ip): Bucket {
    if ip in m && now - m[ip].windowStart < WINDOW then m[ip].(count := m[ip].count + 1) else Bucket(1, now)
  }

  predicate Allows(limit: nat, m: Buckets, now: int, ip: Ip) {
    limit == 0 || Counted(m, now, ip).count <= limit
  }

  function AfterCall(limit: nat, m: Buckets, now: int, ip: Ip): Buckets {
    if limit == 0 then m else m[ip := Counted(m, now, ip)]
  }

  predicate Stale(b: Bucket, now: int) { now - b.windowStart > 2 * WINDOW }

  function Swept(m: Buckets, now: int): Buckets {
    map ip | ip in m && !Stale(m[ip], now) :: m[ip]
  }

  class RateLimiter {
    const limit: nat
    var buckets: Buckets

    constructor (limit: nat)
      ensures this.limit == limit && buckets == map[]
    {
      this.limit := limit;
      buckets := map[];
    }

    method Allow(now: int, ip: Ip) returns (ok: bool)
      modifies this
      ensures ok == Allows(limit, old(buckets), now, ip)
      ensures buckets == AfterCall(limit, old(buckets), now, ip)
    {
      if limit == 0 {
        return true;
      }
      if ip !in buckets {
        buckets := buckets[ip := Bucket(0, now)];
      }
      var b := buckets[ip];
      if now - b.windowStart >= WINDOW {
        b := Bucket(0, now);
      }
      b := b.(count := b.count + 1);
      buckets := buckets[ip := b];
      return b.count <= limit;
    }

    method Sweep(now: int)
      modifies this
      ensures buckets == Swept(old(buckets), now)
    {
      var todo := buckets.Keys;
      while todo != {}
        invariant todo <= old(buckets.Keys)
        invariant buckets == map ip | ip in old(buckets) && (ip in todo || !Stale(old(buckets)[ip], now)) :: old(buckets)[ip]
        decreases |todo|
      {
        var ip :| ip in todo;
        todo := todo - {ip};
        if Stale(buckets[ip], now) {
          buckets := buckets - {ip};
        }
      }
    }
  }

  // ---------------------------------------------------------------- sweeping is invisible

  datatype Event = Call(now: int, ip: Ip) | Sweep(now: int)

  predicate Forward(es: seq<Event>, start: int) {
    es == [] || (start <= es[0].now && Forward(es[1..], es[0].now))
  }

  /** The answers of the limiter; with `sweeping` false the sweeps do nothing. */
  function Answers(limit: nat, m: Buckets, es: seq<Event>, sweeping: bool): seq<bool>
    decreases es
  {
    if es == [] then [] else
      match es[0]
      case Call(now, ip) => [Allows(limit, m, now, ip)] + Answers(limit, AfterCall(limit, m, now, ip), es[1..], sweeping)
      case Sweep(now) => Answers(limit, if sweeping then Swept(m, now) else m, es[1..], sweeping)
  }

  /** `m` has forgotten only buckets of `full` that are stale. */
  predicate Forgot(m: Buckets, full: Buckets, now: int) {
    && (forall ip | ip in m :: ip in full && full[ip] == m[ip])
    && (forall ip | ip in full && ip !in m :: Stale(full[ip], now))
  }

  lemma {:induction false} SameAnswers(limit: nat, m: Buckets, full: Buckets, es: seq<Event>, start: int)
    requires Forgot(m, full, start) && Forward(es, start)
    ensures Answers(limit, m, es, true) == Answers(limit, full, es, false)
    decreases es
  {
    if es != [] {
      var now := es[0].now;
      assert Forgot(m, full, now);
      match es[0]
      case Call(_, ip) =>
        SameAnswers(limit, AfterCall(limit, m, now, ip), AfterCall(limit, full, now, ip), es[1..], now);
      case Sweep(_) =>
        SameAnswers(limit, Swept(m, now), full, es[1..], now);
    }
  }

  /** In every interleaving of calls and sweeps the limiter answers as one that never
      forgets. */
  lemma SweepingIsInvisible(limit: nat, es: seq<Event>, start: int)
    requires Forward(es, start)
    ensures Answers(limit, map[], es, true) == Answers(limit, map[], es, false)
  {
    SameAnswers(limit, map[], map[], es, start);
  }

  // ---------------------------------------------------------------- any interval of one window

  predicate Inside(now: int, a: int) { a <= now < a + WINDOW }

  /** How many calls of `ip` inside [a, a + WINDOW) a limiter that never forgets admits. */
  function AdmittedIn(limit: nat, m: Buckets, es: seq<Event>, ip: Ip, a: int): nat
    decreases es
  {
    if es == [] then 0 else
      match es[0]
      case Sweep(_) => AdmittedIn(limit, m, es[1..], ip, a)
      case Call(now, who) =>
        (if who == ip && Inside(now, a) && Allows(limit, m, now, who) then 1 else 0) +
        AdmittedIn(limit, AfterCall(limit, m, now, who), es[1..], ip, a)
  }

  /** The same count read off a list of answers. */
  function CountIn(answers: seq<bool>, es: seq<Event>, ip: Ip, a: int): nat
    decreases es
  {
    if es == [] || answers == [] then 0
    else if es[0].Sweep? then CountIn(answers, es[1..], ip, a)
    else (if es[0].ip == ip && Inside(es[0].now, a) && answers[0] then 1 else 0) + CountIn(answers[1..], es[1..], ip, a)
  }

  lemma {:induction false} CountsAgree(limit: nat, m: Buckets, es: seq<Event>, ip: Ip, a: int)
    ensures CountIn(Answers(limit, m, es, false), es, ip, a) == AdmittedIn(limit, m, es, ip, a)
    decreases es
  {
    if es != [] {
      CountsAgree(limit, if es[0].Call? then AfterCall(limit, m, es[0].now, es[0].ip) else m, es[1..], ip, a);
      if es[0].Sweep? && Answers(limit, m, es, false) == [] {
        NoAnswersNoCount(limit, m, es[1..], ip, a);
      }
    }
  }

  lemma {:induction false} NoAnswersNoCount(limit: nat, m: Buckets, es: seq<Event>, ip: Ip, a: int)
    requires Answers(limit, m, es, false) == []
    ensures AdmittedIn(limit, m, es, ip, a) == 0
    decreases es
  {
    if es != [] {
      NoAnswersNoCount(limit, m, es[1..], ip, a);
    }
  }

  function Left(limit: nat, b: Bucket): nat {
    if b.count >= limit then 0 else limit - b.count
  }

  /** What can still be admitted inside the interval, from time `now` on. */
  function Quota(limit: nat, m: Buckets, now: int, ip: Ip, a: int): int {
    if now < a then 2 * limit - 1
    else if ip !in m then limit
    else if m[ip].windowStart < a then Left(limit, m[ip]) + limit
    else Left(limit, m[ip])
  }

  predicate Used(m: Buckets, now: int) {
    forall ip | ip in m :: m[ip].count >= 1 && m[ip].windowStart <= now
  }

  /** One call spends what it takes. */
  lemma CallWithinQuota(limit: nat, m: Buckets, now: int, t: int, who: Ip, ip: Ip, a: int)
    requires limit >= 1 && Used(m, now) && now <= t < a + WINDOW
    ensures Used(AfterCall(limit, m, t, who), t)
    ensures (if who == ip && Inside(t, a) && Allows(limit, m, t, who) then 1 else 0) +
            Quota(limit, AfterCall(limit, m, t, who), t, ip, a) <= Quota(limit, m, now, ip, a)
  {
  }

  lemma {:induction false} NoneAfter(limit: nat, m: Buckets, es: seq<Event>, now: int, ip: Ip, a: int)
    requires Forward(es, now) && now >= a + WINDOW
    ensures AdmittedIn(limit, m, es, ip, a) == 0
    decreases es
  {
    if es != [] {
      NoneAfter(limit, if es[0].Call? then AfterCall(limit, m, es[0].now, es[0].ip) else m, es[1..], es[0].now, ip, a);
    }
  }

  lemma {:induction false} QuotaBounds(limit: nat, m: Buckets, es: seq<Event>, now: int, ip: Ip, a: int)
    requires limit >= 1 && Used(m, now) && Forward(es, now)
    ensures AdmittedIn(limit, m, es, ip, a) <= Quota(limit, m, now, ip, a)
    decreases es
  {
    if es != [] {
      var t := es[0].now;
      if t >= a + WINDOW {
        NoneAfter(limit, if es[0].Call? then AfterCall(limit, m, t, es[0].ip) else m, es[1..], t, ip, a);
      } else if es[0].Call? {
        CallWithinQuota(limit, m, now, t, es[0].ip, ip, a);
        QuotaBounds(limit, AfterCall(limit, m, t, es[0].ip), es[1..], t, ip, a);
      } else {
        QuotaBounds(limit, m, es[1..], t, ip, a);
      }
    }
  }

  /** In any half-open interval of one window length an address is admitted at most
      2 * limit - 1 times, sweeps or not: the call that opened the earlier window lies
      outside. */
  lemma AtMostTwiceTheLimit(limit: nat, es: seq<Event>, start: int, ip: Ip, a: int)
    requires limit >= 1 && Forward(es, start)
    ensures CountIn(Answers(limit, map[], es, true), es, ip, a) <= 2 * limit - 1
  {
    SweepingIsInvisible(limit, es, start);
    CountsAgree(limit, map[], es, ip, a);
    QuotaBounds(limit, map[], es, start, ip, a);
  }

  function Calls(n: nat, now: int, ip: Ip): seq<Event> {
    if n == 0 then [] else [Call(now, ip)] + Calls(n - 1, now, ip)
  }

  /** n calls at one instant, within the limit, followed by `rest`. */
  lemma {:induction false} BurstAdmitted(limit: nat, b: Bucket, n: nat, now: int, ip: Ip, a: int, rest: seq<Event>)
    requires limit >= 1 && now - b.windowStart < WINDOW && b.count + n <= limit && Inside(now, a)
    ensures AdmittedIn(limit, map[ip := b], Calls(n, now, ip) + rest, ip, a) ==
            n + AdmittedIn(limit, map[ip := b.(count := b.count + n)], rest, ip, a)
    decreases n
  {
    if n == 0 {
      assert Calls(n, now, ip) + rest == rest;
    } else {
      var es := Calls(n, now, ip) + rest;
      var b' := b.(count := b.count + 1);
      assert es[0] == Call(now, ip) && es[1..] == Calls(n - 1, now, ip) + rest;
      assert AfterCall(limit, map[ip := b], now, ip) == map[ip := b'];
      BurstAdmitted(limit, b', n - 1, now, ip, a, rest);
    }
  }

  lemma {:induction false} CallsForward(n: nat, now: int, ip: Ip, rest: seq<Event>, start: int)
    requires start <= now && Forward(rest, now)
    ensures Forward(Calls(n, now, ip) + rest, start)
    decreases n
  {
    if n == 0 {
      assert Calls(n, now, ip) + rest == rest;
    } else {
      CallsForward(n - 1, now, ip, rest, now);
      assert (Calls(n, now, ip) + rest)[1..] == Calls(n - 1, now, ip) + rest;
    }
  }

  /** The run that reaches the bound. */
  function Worst(limit: nat, ip: Ip): seq<Event>
    requires limit >= 1
  {
    [Call(0, ip)] + (Calls(limit - 1, WINDOW - 1, ip) + ([Call(WINDOW, ip)] + Calls(limit - 1, WINDOW, ip)))
  }

  lemma WorstForward(limit: nat, ip: Ip)
    requires limit >= 1
    ensures Forward(Worst(limit, ip), 0)
  {
    var last := Calls(limit - 1, WINDOW, ip);
    assert last + [] == last;
    CallsForward(limit - 1, WINDOW, ip, [], WINDOW);
    var second := [Call(WINDOW, ip)] + last;
    assert second[1..] == last;
    CallsForward(limit - 1, WINDOW - 1, ip, second, 0);
    assert Worst(limit, ip)[1..] == Calls(limit - 1, WINDOW - 1, ip) + second;
  }

  lemma WorstAdmitted(limit: nat, ip: Ip)
    requires limit >= 1
    ensures AdmittedIn(limit, map[], Worst(limit, ip), ip, 1) == 2 * limit - 1
  {
    var last := Calls(limit - 1, WINDOW, ip);
    var second := [Call(WINDOW, ip)] + last;
    var es := Worst(limit, ip);
    assert es[1..] == Calls(limit - 1, WINDOW - 1, ip) + second;
    assert AfterCall(limit, map[], 0, ip) == map[ip := Bucket(1, 0)];
    BurstAdmitted(limit, Bucket(1, 0), limit - 1, WINDOW - 1, ip, 1, second);
    assert second[1..] == last && last + [] == last;
    assert AfterCall(limit, map[ip := Bucket(limit, 0)], WINDOW, ip) == map[ip := Bucket(1, WINDOW)];
    BurstAdmitted(limit, Bucket(1, WINDOW), limit - 1, WINDOW, ip, 1, []);
  }

  /** The bound is exact: one call at 0, the rest of the limit just before the window ends,
      and the whole limit just after, are admitted, all but the first within one window. */
  lemma BoundIsReached(limit: nat, ip: Ip)
    requires limit >= 1
    ensures var es := Worst(limit, ip);
      Forward(es, 0) && CountIn(Answers(limit, map[], es, true), es, ip, 1) == 2 * limit - 1
  {
    WorstForward(limit, ip);
    WorstAdmitted(limit, ip);
    SweepingIsInvisible(limit, Worst(limit, ip), 0);
    CountsAgree(limit, map[], Worst(limit, ip), ip, 1);
  }

  // ---------------------------------------------------------------- addresses by themselves

  /** The calls of one address. */
  function CallsOf(es: seq<Event>, ip: Ip): seq<Event> {
    if es == [] then [] else (if es[0].Call? && es[0].ip == ip then [es[0]] else []) + CallsOf(es[1..], ip)
  }

  /** The answers given to one address. */
  function AnswersTo(answers: seq<bool>, es: seq<Event>, ip: Ip): seq<bool>
    decreases es
  {
    if es == [] || answers == [] then []
    else if es[0].Sweep? then AnswersTo(answers, es[1..], ip)
    else (if es[0].ip == ip then [answers[0]] else []) + AnswersTo(answers[1..], es[1..], ip)
  }

  predicate SameFor(m: Buckets, n: Buckets, ip: Ip) {
    (ip in m <==> ip in n) && (ip in m ==> m[ip] == n[ip])
  }

  lemma {:induction false} AddressByItself(limit: nat, m: Buckets, n: Buckets, es: seq<Event>, ip: Ip)
    requires SameFor(m, n, ip)
    ensures AnswersTo(Answers(limit, m, es, false), es, ip) == Answers(limit, n, CallsOf(es, ip), false)
    decreases es
  {
    if es != [] {
      match es[0]
      case Sweep(_) =>
        AddressByItself(limit, m, n, es[1..], ip);
        NothingLeftToTell(limit, m, es, ip);
        assert CallsOf(es, ip) == CallsOf(es[1..], ip);
      case Call(now, who) =>
        assert Answers(limit, m, es, false)[1..] == Answers(limit, AfterCall(limit, m, now, who), es[1..], false);
        if who == ip {
          AddressByItself(limit, AfterCall(limit, m, now, ip), AfterCall(limit, n, now, ip), es[1..], ip);
          assert CallsOf(es, ip)[1..] == CallsOf(es[1..], ip);
        } else {
          AddressByItself(limit, AfterCall(limit, m, now, who), n, es[1..], ip);
          assert CallsOf(es, ip) == CallsOf(es[1..], ip);
        }
    }
  }

  lemma {:induction false} NothingLeftToTell(limit: nat, m: Buckets, es: seq<Event>, ip: Ip)
    requires es != [] && es[0].Sweep?
    ensures AnswersTo(Answers(limit, m, es, false), es, ip) == AnswersTo(Answers(limit, m, es[1..], false), es[1..], ip)
  {
  }

  /** What one address is answered does not depend on the calls of others, nor on sweeps: it is
      what a limiter that sees its calls alone answers. */
  lemma OthersDoNotMatter(limit: nat, es: seq<Event>, start: int, ip: Ip)
    requires Forward(es, start)
    ensures AnswersTo(Answers(limit, map[], es, true), es, ip) == Answers(limit, map[], CallsOf(es, ip), false)
  {
    SweepingIsInvisible(limit, es, start);
    AddressByItself(limit, map[], map[], es, ip);
  }

  /** A limit of zero admits everybody. */
  lemma {:induction false} ZeroAdmitsAll(m: Buckets, es: seq<Event>, sweeping: bool)
    ensures forall ok | ok in Answers(0, m, es, sweeping) :: ok
    decreases es
  {
    if es != [] {
      ZeroAdmitsAll(if es[0].Call? then m else if sweeping then Swept(m, es[0].now) else m, es[1..], sweeping);
    }
  }

  /** The first `limit` calls of an address in a window of its own are admitted. */
  lemma {:induction false} FirstCallsAdmitted(limit: nat, b: Bucket, es: seq<Event>, ip: Ip)
    requires b.count + |es| <= limit
    requires forall i | 0 <= i < |es| :: es[i].Call? && es[i].ip == ip && es[i].now - b.windowStart < WINDOW
    ensures forall ok | ok in Answers(limit, map[ip := b], es, false) :: ok
    decreases es
  {
    if es != [] {
      var b' := b.(count := b.count + 1);
      assert es[0].Call? && es[0].ip == ip;
      assert AfterCall(limit, map[ip := b], es[0].now, ip) == map[ip := b'];
      assert forall i | 0 <= i < |es[1..]| :: es[1..][i] == es[i + 1];
      FirstCallsAdmitted(limit, b', es[1..], ip);
    }
  }
}
