/** The Redis circuit breaker: CLOSED / OPEN / HALF-OPEN, one probe slot, a counter of
    infrastructure failures and a jittered exponential backoff.

    `Breaker` and `Step` give its meaning over unbounded integers; class `CircuitBreaker`
    is the code, over 64-bit fields, proved to take exactly those steps without overflow. */
module CircuitBreakers {

  const MAX_INT32: int := 0x7fff_ffff

  newtype int64 = x: int | -0x8000_0000_0000_0000 <= x < 0x8000_0000_0000_0000

  datatype Mode = Closed | Open | HalfOpen

  datatype Config = Config(threshold: int, base: int, max: int, jitterPct: int)

  /** `trips` is the value of the trip counter metric. */
  datatype Breaker = Breaker(mode: Mode, failures: int, slotTaken: bool, nextProbeAt: int,
                             backoff: int, trips: nat)

  /** One call of the breaker. `draw` is what the random generator returns if asked. */
  datatype Event =
    | Allow(now: int)
    | Success(now: int)
    | Failure(now: int, draw: int)

  const INITIAL := Breaker(Closed, 0, false, 0, 0, 0)

  // ---------------------------------------------------------------- backoff

  /** Go's integer division, which truncates towards zero. */
  function TruncDiv(a: int, b: int): int
    requires b > 0
  {
    if a >= 0 then a / b else -((-a) / b)
  }

  function JitterRange(c: Config, d: int): int {
    TruncDiv(d * c.jitterPct, 100)
  }

  /** The results the generator can return for interval `d`. A negative range has none:
      the generator panics there. */
  predicate ValidDraw(c: Config, d: int, draw: int) { DrawnFrom(JitterRange(c, d), draw) }

  predicate DrawnFrom(range: int, draw: int) { range != 0 ==> 0 <= draw <= 2 * range }

  function ApplyJitter(c: Config, d: int, draw: int): int { Jittered(d, JitterRange(c, d), draw) }

  function Jittered(d: int, range: int, draw: int): int {
    if range == 0 then d else d + (draw - range)
  }

  function Doubled(c: Config, backoff: int): int {
    if backoff * 2 > c.max then c.max else backoff * 2
  }

  function Extend(c: Config, backoff: int, draw: int): int {
    ApplyJitter(c, Doubled(c, backoff), draw)
  }

  // ---------------------------------------------------------------- one call

  function Wrap32(x: int): int {
    (x + 0x8000_0000) % 0x1_0000_0000 - 0x8000_0000
  }

  function Wrap64(x: int): int {
    (x + 0x8000_0000_0000_0000) % 0x1_0000_0000_0000_0000 - 0x8000_0000_0000_0000
  }

  predicate Admits(b: Breaker, now: int) {
    match b.mode
    case Closed => true
    case Open => now >= b.nextProbeAt && !b.slotTaken
    case HalfOpen => !b.slotTaken
  }

  function AfterAllow(b: Breaker, now: int): Breaker {
    match b.mode
    case Closed => b
    case Open => if now < b.nextProbeAt then b else b.(mode := HalfOpen, slotTaken := true)
    case HalfOpen => b.(slotTaken := true)
  }

  function AfterSuccess(b: Breaker): Breaker {
    b.(mode := Closed, failures := 0, slotTaken := false)
  }

  function AfterFailure(c: Config, b: Breaker, now: int, draw: int): Breaker {
    match b.mode
    case HalfOpen =>
      var backoff := Extend(c, b.backoff, draw);
      b.(mode := Open, slotTaken := false, backoff := backoff, nextProbeAt := now + backoff)
    case Closed =>
      var n := Wrap32(b.failures + 1);
      if n >= c.threshold then
        var backoff := ApplyJitter(c, c.base, draw);
        b.(mode := Open, failures := n, backoff := backoff, nextProbeAt := now + backoff, trips := b.trips + 1)
      else
        b.(failures := n)
    case Open => b
  }

  function Step(c: Config, b: Breaker, e: Event): Breaker {
    match e
    case Allow(now) => AfterAllow(b, now)
    case Success(_) => AfterSuccess(b)
    case Failure(now, draw) => AfterFailure(c, b, now, draw)
  }

  /** The generator's answer is one it can give, in the two calls that ask it. */
  predicate Legal(c: Config, b: Breaker, e: Event) {
    e.Failure? ==>
      && (b.mode.HalfOpen? ==> ValidDraw(c, Doubled(c, b.backoff), e.draw))
      && (b.mode.Closed? && Wrap32(b.failures + 1) >= c.threshold ==> ValidDraw(c, c.base, e.draw))
  }

  /** A whole call of a resilient wrapper: Allow, and if admitted exactly one record of the
      outcome. */
  function Called(c: Config, b: Breaker, now: int, draw: int, infra: bool): Breaker {
    var b' := AfterAllow(b, now);
    if !Admits(b, now) then b' else if infra then AfterFailure(c, b', now, draw) else AfterSuccess(b')
  }

  function Run(c: Config, es: seq<Event>): Breaker {
    if es == [] then INITIAL else Step(c, Run(c, es[..|es| - 1]), es[|es| - 1])
  }

  predicate LegalRun(c: Config, es: seq<Event>) {
    es == [] ||
    (LegalRun(c, es[..|es| - 1]) && Legal(c, Run(c, es[..|es| - 1]), es[|es| - 1]))
  }

  // ---------------------------------------------------------------- the code

  // The same over 64-bit integers, as the machine computes it: every product and sum wraps.

  predicate Is64(x: int) { -0x8000_0000_0000_0000 <= x < 0x8000_0000_0000_0000 }

  /** The fields of a configuration are 64-bit integers. */
  predicate Fits(c: Config) { Is64(c.base) && Is64(c.max) && Is64(c.jitterPct) }

  function Range64(c: Config, d: int): int {
    TruncDiv(Wrap64(d * c.jitterPct), 100)
  }

  predicate ValidDraw64(c: Config, d: int, draw: int) { DrawnFrom64(Range64(c, d), draw) }

  predicate DrawnFrom64(range: int, draw: int) {
    range != 0 ==> 0 <= draw < Wrap64(Wrap64(range * 2) + 1)
  }

  function Jitter64(c: Config, d: int, draw: int): int { Jittered64(d, Range64(c, d), draw) }

  function Jittered64(d: int, range: int, draw: int): int {
    if range == 0 then d else Wrap64(d + Wrap64(draw - range))
  }

  function Doubled64(c: Config, backoff: int): int {
    if Wrap64(backoff * 2) > c.max then c.max else Wrap64(backoff * 2)
  }

  function AfterFailure64(c: Config, b: Breaker, now: int, draw: int): Breaker {
    match b.mode
    case HalfOpen =>
      var backoff := Jitter64(c, Doubled64(c, b.backoff), draw);
      b.(mode := Open, slotTaken := false, backoff := backoff, nextProbeAt := Wrap64(now + backoff))
    case Closed =>
      var n := Wrap32(b.failures + 1);
      if n >= c.threshold then
        var backoff := Jitter64(c, c.base, draw);
        b.(mode := Open, failures := n, backoff := backoff, nextProbeAt := Wrap64(now + backoff), trips := b.trips + 1)
      else
        b.(failures := n)
    case Open => b
  }

  predicate Legal64(c: Config, b: Breaker, draw: int) {
    && (b.mode.HalfOpen? ==> ValidDraw64(c, Doubled64(c, b.backoff), draw))
    && (b.mode.Closed? && Wrap32(b.failures + 1) >= c.threshold ==> ValidDraw64(c, c.base, draw))
  }

  /** Configurations for which no 64-bit product or sum can overflow. The jitter bound keeps
      every backoff under 3/2 of the cap. */
  predicate Sound(c: Config) {
    && 0 <= c.base <= c.max <= 0x200_0000_0000_0000
    && 0 <= c.jitterPct < 50
  }

  function Low(c: Config): int { c.base - c.base * c.jitterPct / 100 }

  function High(c: Config): int { c.max + c.max * c.jitterPct / 100 }

  /** The backoff is one that a sound configuration can reach. */
  predicate Sane(c: Config, b: Breaker) { Sound(c) && 0 <= b.backoff <= High(c) }

  class CircuitBreaker {
    const cfg: Config
    var mode: Mode
    var failures: int
    var probeInFlight: int64
    var nextProbeAt: int64
    var backoffNanos: int64
    var trips: nat

    ghost predicate Valid()
      reads this
    {
      Fits(cfg) && probeInFlight in {0, 1}
    }

    ghost function Abs(): Breaker
      reads this
    {
      Breaker(mode, failures, probeInFlight == 1, nextProbeAt as int, backoffNanos as int, trips)
    }

    /** The configuration is sound, and the backoff one it can reach. */
    ghost predicate InBounds()
      reads this
    {
      Valid() && Sane(cfg, Abs())
    }

    /** A wrapper may call a breaker of a sound configuration now, and `draw` is a possible
        answer of the generator. */
    ghost predicate Ready(now: int64, draw: int64)
      reads this
    {
      && InBounds() && now as int < 0x7000_0000_0000_0000
      && Legal(cfg, AfterAllow(Abs(), now as int), Failure(now as int, draw as int))
    }

    constructor (c: Config)
      ensures cfg == c && Abs() == INITIAL && (Fits(c) ==> Valid()) && (Sound(c) ==> InBounds())
    {
      cfg := c;
      mode, failures, probeInFlight, nextProbeAt, backoffNanos, trips := Closed, 0, 0, 0, 0, 0;
      new;
      if Sound(c) {
        HighIsSmall(c);
      }
    }

    method Allow(now: int64) returns (ok: bool)
      requires Valid()
      modifies this
      ensures Valid()
      ensures ok == old(Admits(Abs(), now as int))
      ensures Abs() == old(AfterAllow(Abs(), now as int))
    {
      if mode == Closed {
        return true;
      }
      if mode == Open {
        if now < nextProbeAt {
          return false;
        }
        mode := HalfOpen;
      }
      ok := probeInFlight == 0;
      if ok {
        probeInFlight := 1;
      }
    }

    method RecordSuccess()
      requires Valid()
      modifies this
      ensures Valid()
      ensures Abs() == old(AfterSuccess(Abs()))
    {
      probeInFlight := 0;
      failures := 0;
      mode := Closed;
    }

    /** `draw` is the generator's answer; where the generator panics there is none. */
    method RecordFailure(now: int64, draw: int64)
      requires Valid() && Legal64(cfg, Abs(), draw as int)
      modifies this
      ensures Valid()
      ensures Abs() == old(AfterFailure64(cfg, Abs(), now as int, draw as int))
    {
      if mode == HalfOpen {
        probeInFlight := 0;
        ExtendBackoff(draw);
        nextProbeAt := Wrap64(now as int + backoffNanos as int) as int64;
        mode := Open;
      } else if mode == Closed {
        failures := Wrap32(failures + 1);
        if failures >= cfg.threshold {
          mode := Open;
          ResetBackoff(draw);
          nextProbeAt := Wrap64(now as int + backoffNanos as int) as int64;
          trips := trips + 1;
        }
      }
    }

    /** The same call for a sound configuration, where nothing wraps as long as the clock
        leaves room for one backoff, which it does for nanoseconds until the year 2225. */
    method RecordFailureInBounds(now: int64, draw: int64)
      requires InBounds() && Legal(cfg, Abs(), Failure(now as int, draw as int))
      requires now as int < 0x7000_0000_0000_0000
      modifies this
      ensures InBounds()
      ensures Abs() == old(AfterFailure(cfg, Abs(), now as int, draw as int))
    {
      NothingWraps(cfg, Abs(), now as int, draw as int);
      RecordFailure(now, draw);
    }

    method ResetBackoff(draw: int64)
      requires Valid() && ValidDraw64(cfg, cfg.base, draw as int)
      modifies this`backoffNanos
      ensures backoffNanos as int == Jitter64(cfg, cfg.base, draw as int)
    {
      backoffNanos := JitterInt64(cfg.base as int64, draw);
    }

    method ExtendBackoff(draw: int64)
      requires Valid() && ValidDraw64(cfg, Doubled64(cfg, backoffNanos as int), draw as int)
      modifies this`backoffNanos
      ensures backoffNanos as int == old(Jitter64(cfg, Doubled64(cfg, backoffNanos as int), draw as int))
    {
      var doubled := Wrap64(backoffNanos as int * 2) as int64;
      if doubled as int > cfg.max {
        doubled := cfg.max as int64;
      }
      backoffNanos := JitterInt64(doubled, draw);
    }

    method JitterInt64(base: int64, draw: int64) returns (r: int64)
      requires Fits(cfg) && ValidDraw64(cfg, base as int, draw as int)
      ensures r as int == Jitter64(cfg, base as int, draw as int)
    {
      var jitterRange := TruncDiv(Wrap64(base as int * cfg.jitterPct), 100) as int64;
      if jitterRange == 0 {
        return base;
      }
      var delta := Wrap64(draw as int - jitterRange as int) as int64;
      return Wrap64(base as int + delta as int) as int64;
    }
  }

  // ---------------------------------------------------------------- no overflow

  lemma Wrap64Small(x: int)
    requires Is64(x)
    ensures Wrap64(x) == x
  {
  }

  /** The range of a sound configuration, by itself: at most half of the interval. */
  lemma RangeDoesNotWrap(c: Config, d: int)
    requires Sound(c) && 0 <= d <= c.max
    ensures Range64(c, d) == JitterRange(c, d) && 0 <= JitterRange(c, d) <= d
    ensures d + JitterRange(c, d) <= High(c)
  {
    MulBounds(d, c.max, c.jitterPct, 50);
    Wrap64Small(d * c.jitterPct);
    PercentMonotone(0, d, c.jitterPct);
    PercentMonotone(d, c.max, c.jitterPct);
  }

  lemma SmallSumsDoNotWrap(d: int, range: int, draw: int)
    requires 0 <= range <= d <= 0x200_0000_0000_0000
    ensures DrawnFrom64(range, draw) <==> DrawnFrom(range, draw)
    ensures DrawnFrom(range, draw) ==>
      Jittered64(d, range, draw) == Jittered(d, range, draw) && 0 <= Jittered(d, range, draw) <= d + range
  {
    Wrap64Small(range * 2);
    Wrap64Small(range * 2 + 1);
    if 0 <= draw <= 2 * range {
      Wrap64Small(draw - range);
      Wrap64Small(d + (draw - range));
    }
  }

  /** In a sound configuration jitter is computed without overflow. */
  lemma JitterDoesNotWrap(c: Config, d: int, draw: int)
    requires Sound(c) && 0 <= d <= c.max
    ensures ValidDraw64(c, d, draw) <==> ValidDraw(c, d, draw)
    ensures ValidDraw(c, d, draw) ==>
      Jitter64(c, d, draw) == ApplyJitter(c, d, draw) && 0 <= ApplyJitter(c, d, draw) <= High(c)
  {
    RangeDoesNotWrap(c, d);
    SmallSumsDoNotWrap(d, JitterRange(c, d), draw);
  }

  lemma DoublingDoesNotWrap(c: Config, backoff: int)
    requires Sound(c) && 0 <= backoff <= High(c)
    ensures Doubled64(c, backoff) == Doubled(c, backoff) && 0 <= Doubled(c, backoff) <= c.max
  {
    HighIsSmall(c);
    Wrap64Small(backoff * 2);
  }

  lemma ProbeTimeWraps(now: int, backoff: int)
    requires Is64(now) && 0 <= backoff <= 0x400_0000_0000_0000
    ensures now < 0x7000_0000_0000_0000 ==> Wrap64(now + backoff) == now + backoff
  {
    if now < 0x7000_0000_0000_0000 {
      Wrap64Small(now + backoff);
    }
  }

  /** In a sound configuration a failure has the unbounded effect, up to the wrap-around of
      the next probe time at the end of the clock. */
  lemma NothingWraps(c: Config, b: Breaker, now: int, draw: int)
    requires Sane(c, b) && Is64(now)
    ensures Legal64(c, b, draw) <==> Legal(c, b, Failure(now, draw))
    ensures Legal64(c, b, draw) ==>
      var b', u := AfterFailure64(c, b, now, draw), AfterFailure(c, b, now, draw);
      && Sane(c, b')
      && b' == u.(nextProbeAt := b'.nextProbeAt)
      && (now < 0x7000_0000_0000_0000 ==> b' == u)
  {
    if b.mode.HalfOpen? {
      DoublingDoesNotWrap(c, b.backoff);
      WaitDoesNotWrap(c, Doubled(c, b.backoff), now, draw);
    } else {
      WaitDoesNotWrap(c, c.base, now, draw);
    }
  }

  lemma WaitDoesNotWrap(c: Config, d: int, now: int, draw: int)
    requires Sound(c) && 0 <= d <= c.max && Is64(now)
    ensures ValidDraw64(c, d, draw) <==> ValidDraw(c, d, draw)
    ensures ValidDraw(c, d, draw) ==>
      var backoff := ApplyJitter(c, d, draw);
      && Jitter64(c, d, draw) == backoff && 0 <= backoff <= High(c)
      && (now < 0x7000_0000_0000_0000 ==> Wrap64(now + backoff) == now + backoff)
  {
    JitterDoesNotWrap(c, d, draw);
    HighIsSmall(c);
    if ValidDraw(c, d, draw) {
      ProbeTimeWraps(now, ApplyJitter(c, d, draw));
    }
  }

  // ---------------------------------------------------------------- arithmetic

  lemma MulBounds(x: int, x': int, y: int, y': int)
    requires 0 <= x <= x' && 0 <= y <= y'
    ensures 0 <= x * y <= x' * y'
  {
    assert x * y <= x' * y <= x' * y';
  }

  /** Both `x - x*p/100` and `x*p/100` grow with x, for a percentage p up to 100. */
  lemma PercentMonotone(x: int, y: int, p: int)
    requires 0 <= x <= y && 0 <= p <= 100
    ensures 0 <= x * p / 100 <= y * p / 100
    ensures x - x * p / 100 <= y - y * p / 100
  {
    var k := y - x;
    assert y * p == x * p + k * p;
    MulBounds(k, k, p, 100);
    MulBounds(x, x, p, p);
  }

  /** Less than half of 2b is less than b; half or more of it is at least b. */
  lemma HalfOfDouble(b: int, p: int)
    requires 0 < b && 0 <= p
    ensures p < 50 <==> 2 * b * p / 100 < b
  {
    var q := b * p;
    assert 2 * b * p == 2 * q;
    if p < 50 {
      MulBounds(b, b, p, 49);
      assert 2 * q <= 98 * b;
    } else {
      MulBounds(b, b, 50, p);
      assert 2 * q >= 100 * b;
    }
  }

  lemma HighIsSmall(c: Config)
    requires Sound(c)
    ensures c.max <= High(c) <= 2 * c.max <= 0x400_0000_0000_0000
  {
    PercentMonotone(0, c.max, c.jitterPct);
    MulBounds(c.max, c.max, c.jitterPct, 50);
  }

  /** Jitter moves an interval by at most its percentage, either way. */
  lemma JitterStaysClose(c: Config, d: int, draw: int)
    requires 0 <= d && 0 <= c.jitterPct <= 100 && ValidDraw(c, d, draw)
    ensures d - d * c.jitterPct / 100 <= ApplyJitter(c, d, draw) <= d + d * c.jitterPct / 100
    ensures 0 <= ApplyJitter(c, d, draw)
  {
    PercentMonotone(0, d, c.jitterPct);
  }
}
