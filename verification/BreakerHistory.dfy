/** What the breaker means over whole histories: when it is CLOSED, how often it tripped,
    how its backoff develops, and how rarely it probes. */
module BreakerHistory {
  import opened CircuitBreakers

  // ---------------------------------------------------------------- closed or not

  /** Failures recorded since the last recorded success, or since the start. */
  function FailuresSinceSuccess(es: seq<Event>): nat {
    if es == [] then 0 else
      match es[|es| - 1]
      case Success(_) => 0
      case Failure(_, _) => FailuresSinceSuccess(es[..|es| - 1]) + 1
      case Allow(_) => FailuresSinceSuccess(es[..|es| - 1])
  }

  /** A threshold of zero or less trips on the first failure, as 1 does. */
  function Limit(c: Config): int { if c.threshold < 1 then 1 else c.threshold }

  /** How often in the history the failure count reached the limit. */
  function LimitReached(c: Config, es: seq<Event>): nat {
    if es == [] then 0 else
      LimitReached(c, es[..|es| - 1]) +
      if es[|es| - 1].Failure? && FailuresSinceSuccess(es) == Limit(c) then 1 else 0
  }

  lemma {:induction false} CountsFailures(c: Config, es: seq<Event>)
    requires c.threshold <= MAX_INT32
    ensures Run(c, es).mode.Closed? <==> FailuresSinceSuccess(es) < Limit(c)
    ensures Run(c, es).mode.Closed? ==> Run(c, es).failures == FailuresSinceSuccess(es)
    ensures Run(c, es).trips == LimitReached(c, es)
  {
    if es != [] {
      CountsFailures(c, es[..|es| - 1]);
    }
  }

  /** The breaker is CLOSED exactly when fewer failures than the limit were recorded since
      the last success, whatever calls of Allow came between and whatever the clock said;
      the trip counter counts the times that limit was reached. */
  lemma ClosedIffFewFailures(c: Config, es: seq<Event>)
    requires c.threshold <= MAX_INT32
    ensures Run(c, es).mode.Closed? <==> FailuresSinceSuccess(es) < Limit(c)
    ensures Run(c, es).trips == LimitReached(c, es)
  {
    CountsFailures(c, es);
  }

  /** And while it is CLOSED it lets every caller through and does not change. */
  lemma FewFailuresAdmitEverybody(c: Config, es: seq<Event>, now: int)
    requires c.threshold <= MAX_INT32 && FailuresSinceSuccess(es) < Limit(c)
    ensures Admits(Run(c, es), now) && Run(c, es + [Allow(now)]) == Run(c, es)
  {
    CountsFailures(c, es);
    assert (es + [Allow(now)])[..|es|] == es;
  }

  /** One success lets everybody through again, whatever the breaker was doing. */
  lemma SuccessAdmitsEverybody(c: Config, es: seq<Event>, at: int, now: int)
    ensures var b := Run(c, es + [Success(at)]); Admits(b, now) && Step(c, b, Allow(now)) == b
  {
    assert (es + [Success(at)])[..|es|] == es;
  }

  /** The failure counter is 32 bits wide: a threshold above its range is never reached. */
  lemma {:induction false} ThresholdBeyondCounterNeverTrips(c: Config, es: seq<Event>)
    requires c.threshold > MAX_INT32
    ensures Run(c, es).mode.Closed? && Run(c, es).trips == 0
    ensures !Run(c, es).slotTaken
  {
    if es != [] {
      ThresholdBeyondCounterNeverTrips(c, es[..|es| - 1]);
    }
  }

  // ---------------------------------------------------------------- backoff

  predicate Bounded(c: Config, b: Breaker) {
    && 0 <= b.backoff
    && (!b.mode.Closed? ==> Low(c) <= b.backoff <= High(c))
  }

  lemma StepKeepsBackoffBounded(c: Config, b: Breaker, e: Event)
    requires Sound(c) && Bounded(c, b) && Legal(c, b, e)
    ensures Bounded(c, Step(c, b, e))
  {
    if e.Failure? && b.mode.HalfOpen? {
      ExtendBounded(c, b.backoff, e.draw);
      PercentMonotone(0, c.base, c.jitterPct);
    } else if e.Failure? && b.mode.Closed? && Wrap32(b.failures + 1) >= c.threshold {
      JitterStaysClose(c, c.base, e.draw);
      PercentMonotone(c.base, c.max, c.jitterPct);
    }
  }

  /** After a trip every backoff lies between the jittered base and the jittered cap. */
  lemma {:induction false} BackoffBounded(c: Config, es: seq<Event>)
    requires Sound(c) && LegalRun(c, es)
    ensures Bounded(c, Run(c, es))
  {
    if es != [] {
      BackoffBounded(c, es[..|es| - 1]);
      StepKeepsBackoffBounded(c, Run(c, es[..|es| - 1]), es[|es| - 1]);
    }
  }

  lemma ExtendBounded(c: Config, b: int, draw: int)
    requires Sound(c) && Low(c) <= b && ValidDraw(c, Doubled(c, b), draw)
    ensures Low(c) <= Extend(c, b, draw) <= High(c)
  {
    var d := Doubled(c, b);
    LowAtMostDoubled(c, b);
    JitterStaysClose(c, d, draw);
    PercentMonotone(d, c.max, c.jitterPct);
  }

  lemma LowAtMostDoubled(c: Config, b: int)
    requires Sound(c) && Low(c) <= b
    ensures 0 <= Doubled(c, b) <= c.max
    ensures Low(c) <= Doubled(c, b) - Doubled(c, b) * c.jitterPct / 100
  {
    PercentMonotone(0, c.base, c.jitterPct);
    PercentMonotone(c.base, c.max, c.jitterPct);
    if b * 2 <= c.max && b > 0 {
      HalfOfDouble(b, c.jitterPct);
      assert b * 2 * c.jitterPct == 2 * b * c.jitterPct;
    }
  }

  /** A failed probe lengthens an uncapped backoff for every draw exactly when the jitter
      is below 50 percent. */
  lemma GrowsIffJitterBelowHalf(c: Config, b: int)
    requires 0 < b && 2 * b <= c.max && 0 <= c.jitterPct
    ensures c.jitterPct < 50 <==> forall draw | ValidDraw(c, 2 * b, draw) :: Extend(c, b, draw) > b
  {
    HalfOfDouble(b, c.jitterPct);
    var range := JitterRange(c, 2 * b);
    assert range == 2 * b * c.jitterPct / 100 && range >= 0 by {
      MulBounds(0, 2 * b, 0, c.jitterPct);
    }
    assert ValidDraw(c, 2 * b, 0);
    assert Extend(c, b, 0) == 2 * b - range;
    forall draw | ValidDraw(c, 2 * b, draw)
      ensures Extend(c, b, draw) >= Extend(c, b, 0)
    {
    }
  }

  /** The backoffs after `b` when each probe in turn fails. */
  function Backoffs(c: Config, b: int, draws: seq<int>): (bs: seq<int>)
    ensures |bs| == |draws| + 1 && bs[0] == b
    decreases draws
  {
    if draws == [] then [b] else [b] + Backoffs(c, Extend(c, b, draws[0]), draws[1..])
  }

  predicate ValidDraws(c: Config, b: int, draws: seq<int>)
    decreases draws
  {
    draws == [] ||
    (ValidDraw(c, Doubled(c, b), draws[0]) && ValidDraws(c, Extend(c, b, draws[0]), draws[1..]))
  }

  predicate NearCap(c: Config, b: int) {
    c.max - c.max * c.jitterPct / 100 <= b <= High(c)
  }

  /** Successive failed probes wait strictly longer each time until doubling reaches the
      cap; from then on every wait stays within the jitter of the cap. */
  lemma {:induction false} BackoffGrowsThenStays(c: Config, b: int, draws: seq<int>, i: nat, j: nat)
    requires Sound(c) && 0 < c.base && Low(c) <= b && ValidDraws(c, b, draws)
    requires i < j <= |draws|
    ensures var bs := Backoffs(c, b, draws);
      && (2 * bs[i] <= c.max ==> bs[i + 1] > bs[i])
      && (2 * bs[i] >= c.max ==> NearCap(c, bs[j]))
    decreases j
  {
    var b' := Extend(c, b, draws[0]);
    assert 0 < b by { HalfOfDouble(c.base, c.jitterPct); }
    OneFailedProbe(c, b, draws[0]);
    ExtendBounded(c, b, draws[0]);
    if i > 0 {
      BackoffGrowsThenStays(c, b', draws[1..], i - 1, j - 1);
    } else if j > 1 && 2 * b >= c.max {
      BackoffGrowsThenStays(c, b', draws[1..], 0, j - 1);
    }
  }

  lemma OneFailedProbe(c: Config, b: int, draw: int)
    requires Sound(c) && 0 < b && ValidDraw(c, Doubled(c, b), draw)
    ensures 2 * b <= c.max ==> Extend(c, b, draw) > b
    ensures 2 * b >= c.max ==> NearCap(c, Extend(c, b, draw)) && 2 * Extend(c, b, draw) >= c.max
  {
    if 2 * b <= c.max {
      GrowsIffJitterBelowHalf(c, b);
    }
    if 2 * b >= c.max {
      JitterStaysClose(c, c.max, draw);
      NearCapDoublesPast(c, Extend(c, b, draw));
    }
  }

  lemma NearCapDoublesPast(c: Config, b: int)
    requires Sound(c) && NearCap(c, b)
    ensures 2 * b >= c.max
  {
    if c.max > 0 {
      HalfOfDouble(c.max, c.jitterPct);
      assert 2 * c.max * c.jitterPct == 2 * (c.max * c.jitterPct);
    }
  }

  /** The backoffs that follow one another in a stretch of events: the first one, and one for
      each probe that fails. */
  function Waits(c: Config, b: Breaker, es: seq<Event>): seq<int>
    decreases es
  {
    if es == [] then [b.backoff]
    else (if es[0].Failure? && b.mode.HalfOpen? then [b.backoff] else []) + Waits(c, Step(c, b, es[0]), es[1..])
  }

  /** What the generator answered for the probes that fail. */
  function ProbeDraws(c: Config, b: Breaker, es: seq<Event>): seq<int>
    decreases es
  {
    if es == [] then []
    else (if es[0].Failure? && b.mode.HalfOpen? then [es[0].draw] else []) + ProbeDraws(c, Step(c, b, es[0]), es[1..])
  }

  predicate NoSuccess(es: seq<Event>) {
    es == [] || (!es[0].Success? && NoSuccess(es[1..]))
  }

  /** Only failed probes change the backoff of a breaker that is not closed. */
  lemma {:induction false} WaitsAreBackoffs(c: Config, b: Breaker, es: seq<Event>)
    requires !b.mode.Closed? && NoSuccess(es) && LegalFrom(c, b, es)
    ensures Waits(c, b, es) == Backoffs(c, b.backoff, ProbeDraws(c, b, es))
    ensures ValidDraws(c, b.backoff, ProbeDraws(c, b, es))
    decreases es
  {
    if es != [] {
      var b' := Step(c, b, es[0]);
      WaitsAreBackoffs(c, b', es[1..]);
      if es[0].Failure? && b.mode.HalfOpen? {
        assert ProbeDraws(c, b, es)[1..] == ProbeDraws(c, b', es[1..]);
      } else {
        assert b'.backoff == b.backoff;
        assert Waits(c, b, es) == Waits(c, b', es[1..]) && ProbeDraws(c, b, es) == ProbeDraws(c, b', es[1..]);
      }
    }
  }

  /** After a trip, while no success is recorded, whatever calls come and go: each failed
      probe waits strictly longer than the one before until doubling reaches the cap; from
      then on every wait stays within the jitter of the cap. */
  lemma WaitsGrowThenStay(c: Config, b: Breaker, trip: Event, es: seq<Event>, i: nat, j: nat)
    requires Sound(c) && 0 < c.base
    requires b.mode.Closed? && trip.Failure? && Legal(c, b, trip) && Step(c, b, trip).mode.Open?
    requires NoSuccess(es) && LegalFrom(c, Step(c, b, trip), es)
    requires i < j < |Waits(c, Step(c, b, trip), es)|
    ensures var ws := Waits(c, Step(c, b, trip), es);
      && (2 * ws[i] <= c.max ==> ws[i + 1] > ws[i])
      && (2 * ws[i] >= c.max ==> NearCap(c, ws[j]))
  {
    var b' := Step(c, b, trip);
    JitterStaysClose(c, c.base, trip.draw);
    WaitsAreBackoffs(c, b', es);
    BackoffGrowsThenStays(c, b'.backoff, ProbeDraws(c, b', es), i, j);
  }

  /** A trip waits for the base interval, up to its jitter. */
  lemma TripWaitsForBase(c: Config, b: Breaker, trip: Event)
    requires Sound(c) && b.mode.Closed? && trip.Failure? && Legal(c, b, trip) && Step(c, b, trip).mode.Open?
    ensures Low(c) <= Step(c, b, trip).backoff <= c.base + c.base * c.jitterPct / 100
  {
    JitterStaysClose(c, c.base, trip.draw);
  }

  // ---------------------------------------------------------------- when the probe comes

  /** No success, and nobody asks at or after `until`. */
  predicate NobodyAsksFrom(es: seq<Event>, until: int) {
    forall i | 0 <= i < |es| :: !es[i].Success? && (es[i].Allow? ==> es[i].now < until)
  }

  function RunFrom(c: Config, b: Breaker, es: seq<Event>): Breaker
    decreases es
  {
    if es == [] then b else RunFrom(c, Step(c, b, es[0]), es[1..])
  }

  lemma {:induction false} OpenIsUntouched(c: Config, b: Breaker, es: seq<Event>)
    requires b.mode.Open? && NobodyAsksFrom(es, b.nextProbeAt)
    ensures RunFrom(c, b, es) == b
    decreases es
  {
    if es != [] {
      assert !es[0].Success? && (es[0].Allow? ==> es[0].now < b.nextProbeAt);
      assert forall i | 0 <= i < |es[1..]| :: es[1..][i] == es[i + 1];
      OpenIsUntouched(c, b, es[1..]);
    }
  }

  /** After a trip or a failed probe the next caller is let through as a probe exactly from one
      backoff later on: failures of calls let through earlier do not restart the wait, and
      callers refused meanwhile do not either. */
  lemma ProbeExactlyAfterBackoff(c: Config, b: Breaker, e: Event, es: seq<Event>, now: int)
    requires (b.mode.HalfOpen? <==> b.slotTaken) && !b.mode.Open? && e.Failure? && Step(c, b, e).mode.Open?
    requires NobodyAsksFrom(es, e.now + Step(c, b, e).backoff)
    ensures var b' := RunFrom(c, Step(c, b, e), es);
      && (Admits(b', now) <==> now >= e.now + Step(c, b, e).backoff)
      && (Admits(b', now) ==> Step(c, b', Allow(now)).mode.HalfOpen? && !Admits(Step(c, b', Allow(now)), now))
  {
    OpenIsUntouched(c, Step(c, b, e), es);
  }

  // ---------------------------------------------------------------- probe rate

  /** No success is recorded and the clock does not run backwards. */
  predicate Outage(es: seq<Event>, since: int) {
    es == [] || (!es[0].Success? && es[0].now >= since && Outage(es[1..], es[0].now))
  }

  function EndTime(es: seq<Event>, since: int): int {
    if es == [] then since else EndTime(es[1..], es[0].now)
  }

  predicate LegalFrom(c: Config, b: Breaker, es: seq<Event>)
    decreases es
  {
    es == [] || (Legal(c, b, es[0]) && LegalFrom(c, Step(c, b, es[0]), es[1..]))
  }

  /** How many calls the breaker lets through. */
  function Grants(c: Config, b: Breaker, es: seq<Event>): nat
    decreases es
  {
    if es == [] then 0 else
      (if es[0].Allow? && Admits(b, es[0].now) then 1 else 0) + Grants(c, Step(c, b, es[0]), es[1..])
  }

  lemma {:induction false} EndTimeLater(es: seq<Event>, since: int)
    requires Outage(es, since)
    ensures EndTime(es, since) >= since
  {
    if es != [] {
      EndTimeLater(es[1..], es[0].now);
    }
  }

  lemma {:induction false} GrantsAreSpaced(c: Config, b: Breaker, es: seq<Event>, since: int)
    requires Sound(c) && LegalFrom(c, b, es) && Outage(es, since)
    requires !b.mode.Closed? && (b.mode.HalfOpen? <==> b.slotTaken) && Low(c) <= b.backoff
    ensures var k := Grants(c, b, es);
      k > 0 ==> (if b.mode.Open? then b.nextProbeAt + (k - 1) * Low(c) else since + k * Low(c)) <= EndTime(es, since)
    decreases es
  {
    if es != [] {
      var e := es[0];
      var b' := Step(c, b, e);
      EndTimeLater(es[1..], e.now);
      if e.Failure? && b.mode.HalfOpen? {
        ExtendBounded(c, b.backoff, e.draw);
      }
      GrantsAreSpaced(c, b', es[1..], e.now);
      OneMore(Grants(c, b, es), Low(c));
    }
  }

  /** After a trip at time `t`, while no success is recorded, the number of probes let
      through times the shortest backoff is at most the time that passed. */
  lemma ProbesAreRare(c: Config, b: Breaker, trip: Event, es: seq<Event>)
    requires Sound(c)
    requires b.mode.Closed? && !b.slotTaken && trip.Failure? && Legal(c, b, trip)
    requires Step(c, b, trip).mode.Open?
    requires LegalFrom(c, Step(c, b, trip), es) && Outage(es, trip.now)
    ensures Grants(c, Step(c, b, trip), es) * Low(c) <= EndTime(es, trip.now) - trip.now
  {
    var b' := Step(c, b, trip);
    JitterStaysClose(c, c.base, trip.draw);
    GrantsAreSpaced(c, b', es, trip.now);
    EndTimeLater(es, trip.now);
    OneMore(Grants(c, b', es), Low(c));
  }

  lemma OneMore(k: int, x: int)
    ensures k * x == (k - 1) * x + x
  {
  }
}
