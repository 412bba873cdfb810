/** The gRPC rate limiter: a token bucket refilled at a constant rate. Amounts and times (in
    seconds) are real numbers; the clock does not run backwards. */
module TokenBuckets {

  datatype Bucket = Bucket(tokens: real, lastTick: real)

  function Capacity(rpm: int): real { rpm as real }

  function Rate(rpm: int): real { rpm as real / 60.0 }

  function Fresh(rpm: int, now: real): Bucket { Bucket(Capacity(rpm), now) }

  function Capped(tokens: real, gain: real, cap: real): real {
    if tokens + gain > cap then cap else tokens + gain
  }

  function AfterSpending(t: real): real { if t < 1.0 then t else t - 1.0 }

  // A bucket of capacity `cap` refilled at `rate` tokens a second.

  function RefilledAt(cap: real, rate: real, b: Bucket, now: real): real {
    Capped(b.tokens, (now - b.lastTick) * rate, cap)
  }

  function AfterAt(cap: real, rate: real, b: Bucket, now: real): Bucket {
    Bucket(AfterSpending(RefilledAt(cap, rate, b, now)), now)
  }

  // The bucket of a limiter of `rpm` requests a minute.

  function Refilled(rpm: int, b: Bucket, now: real): real {
    RefilledAt(Capacity(rpm), Rate(rpm), b, now)
  }

  predicate Admits(rpm: int, b: Bucket, now: real) {
    Refilled(rpm, b, now) >= 1.0
  }

  function After(rpm: int, b: Bucket, now: real): Bucket {
    AfterAt(Capacity(rpm), Rate(rpm), b, now)
  }

  class TokenBucket {
    var tokens: real
    const max: real
    const refillPS: real
    var lastTick: real
    ghost const rpm: int

    ghost predicate Valid()
      reads this
    {
      max == Capacity(rpm) && refillPS == Rate(rpm)
    }

    ghost function Abs(): Bucket
      reads this
    {
      Bucket(tokens, lastTick)
    }

    constructor (requestsPerMinute: int, now: real)
      ensures Valid() && rpm == requestsPerMinute && Abs() == Fresh(rpm, now)
    {
      tokens := requestsPerMinute as real;
      max := requestsPerMinute as real;
      refillPS := requestsPerMinute as real / 60.0;
      lastTick := now;
      rpm := requestsPerMinute;
    }

    /** In terms of the bucket's own capacity and rate, which `Valid` ties to rpm. */
    method Allow(now: real) returns (ok: bool)
      requires Valid()
      modifies this
      ensures Valid()
      ensures ok == (old(RefilledAt(max, refillPS, Abs(), now)) >= 1.0)
      ensures Abs() == old(AfterAt(max, refillPS, Abs(), now))
    {
      var elapsed := now - lastTick;
      lastTick := now;
      tokens := tokens + elapsed * refillPS;
      if tokens > max {
        tokens := max;
      }
      if tokens < 1.0 {
        return false;
      }
      tokens := tokens - 1.0;
      return true;
    }
  }

  // ---------------------------------------------------------------- whole runs

  /** Call times that do not run backwards, from `start` on. */
  predicate Forward(ts: seq<real>, start: real) {
    ts == [] || (start <= ts[0] && Forward(ts[1..], ts[0]))
  }

  function RunFrom(rpm: int, b: Bucket, ts: seq<real>): Bucket
    decreases ts
  {
    if ts == [] then b else RunFrom(rpm, After(rpm, b, ts[0]), ts[1..])
  }

  /** How many of the calls at `ts` are admitted. */
  function Admitted(rpm: int, b: Bucket, ts: seq<real>): nat
    decreases ts
  {
    if ts == [] then 0 else
      (if Admits(rpm, b, ts[0]) then 1 else 0) + Admitted(rpm, After(rpm, b, ts[0]), ts[1..])
  }

  function LastTime(ts: seq<real>, start: real): real {
    if ts == [] then start else LastTime(ts[1..], ts[0])
  }

  // ---------------------------------------------------------------- the same, counted in tokens

  /** A bucket whose clock counts the tokens refilled so far instead of seconds. */
  datatype Meter = Meter(level: real, mark: real)

  function Level(cap: real, m: Meter, mark: real): real {
    Capped(m.level, mark - m.mark, cap)
  }

  function Spend(cap: real, m: Meter, mark: real): Meter {
    var l := Level(cap, m, mark);
    Meter(AfterSpending(l), mark)
  }

  function Spent(cap: real, m: Meter, marks: seq<real>): nat
    decreases marks
  {
    if marks == [] then 0 else
      (if Level(cap, m, marks[0]) >= 1.0 then 1 else 0) + Spent(cap, Spend(cap, m, marks[0]), marks[1..])
  }

  /** Every admitted call is paid for by a token held at the start or refilled since. */
  lemma {:induction false} TokensPayForCalls(cap: real, m: Meter, marks: seq<real>)
    requires 0.0 <= m.level && 0.0 <= cap && Forward(marks, m.mark)
    ensures Spent(cap, m, marks) as real <= m.level + (LastTime(marks, m.mark) - m.mark)
    decreases marks
  {
    if marks != [] {
      TokensPayForCalls(cap, Spend(cap, m, marks[0]), marks[1..]);
    }
  }

  /** A full bucket is all that the past can leave to a window. */
  lemma WindowOfTokens(cap: real, m: Meter, first: real, rest: seq<real>)
    requires 0.0 <= m.level && 0.0 <= cap && m.mark <= first && Forward(rest, first)
    ensures Spent(cap, m, [first] + rest) as real <= cap + (LastTime(rest, first) - first)
  {
    assert ([first] + rest)[1..] == rest;
    TokensPayForCalls(cap, Spend(cap, m, first), rest);
  }

  // ---------------------------------------------------------------- seconds to tokens

  function Mark(rpm: int, t: real): real { t * Rate(rpm) }

  function Marks(rpm: int, ts: seq<real>): seq<real> {
    if ts == [] then [] else [Mark(rpm, ts[0])] + Marks(rpm, ts[1..])
  }

  function Metered(rpm: int, b: Bucket): Meter { Meter(b.tokens, Mark(rpm, b.lastTick)) }

  lemma MarkDifference(rpm: int, t: real, u: real)
    ensures (t - u) * Rate(rpm) == Mark(rpm, t) - Mark(rpm, u)
  {
  }

  lemma MarkOrder(rpm: int, t: real, u: real)
    requires rpm >= 0 && t <= u
    ensures Mark(rpm, t) <= Mark(rpm, u)
  {
    MarkDifference(rpm, u, t);
  }

  lemma RefillIsLevel(rpm: int, b: Bucket, now: real)
    ensures Refilled(rpm, b, now) == Level(Capacity(rpm), Metered(rpm, b), Mark(rpm, now))
  {
    var gain := (now - b.lastTick) * Rate(rpm);
    MarkDifference(rpm, now, b.lastTick);
    assert gain == Mark(rpm, now) - Mark(rpm, b.lastTick);
    assert Refilled(rpm, b, now) == Capped(b.tokens, gain, Capacity(rpm));
  }

  lemma CallIsSpend(rpm: int, b: Bucket, now: real)
    ensures Refilled(rpm, b, now) == Level(Capacity(rpm), Metered(rpm, b), Mark(rpm, now))
    ensures Metered(rpm, After(rpm, b, now)) == Spend(Capacity(rpm), Metered(rpm, b), Mark(rpm, now))
  {
    RefillIsLevel(rpm, b, now);
    SpendingLevel(rpm, b, now, Level(Capacity(rpm), Metered(rpm, b), Mark(rpm, now)));
  }

  lemma SpendingLevel(rpm: int, b: Bucket, now: real, level: real)
    requires Refilled(rpm, b, now) == level
    ensures After(rpm, b, now) == Bucket(AfterSpending(level), now)
  {
  }

  lemma {:induction false} RunIsSpending(rpm: int, b: Bucket, ts: seq<real>)
    ensures Admitted(rpm, b, ts) == Spent(Capacity(rpm), Metered(rpm, b), Marks(rpm, ts))
    decreases ts
  {
    if ts != [] {
      CallIsSpend(rpm, b, ts[0]);
      RunIsSpending(rpm, After(rpm, b, ts[0]), ts[1..]);
    }
  }

  lemma {:induction false} MarksForward(rpm: int, ts: seq<real>, start: real)
    requires rpm >= 0 && Forward(ts, start)
    ensures Forward(Marks(rpm, ts), Mark(rpm, start))
    ensures LastTime(Marks(rpm, ts), Mark(rpm, start)) == Mark(rpm, LastTime(ts, start))
  {
    if ts != [] {
      MarkOrder(rpm, start, ts[0]);
      MarksForward(rpm, ts[1..], ts[0]);
    }
  }

  lemma {:induction false} RunKeepsTokens(rpm: int, b: Bucket, ts: seq<real>)
    requires rpm >= 0 && 0.0 <= b.tokens && Forward(ts, b.lastTick)
    ensures 0.0 <= RunFrom(rpm, b, ts).tokens && RunFrom(rpm, b, ts).lastTick == LastTime(ts, b.lastTick)
    decreases ts
  {
    if ts != [] {
      CallIsSpend(rpm, b, ts[0]);
      MarkOrder(rpm, b.lastTick, ts[0]);
      RunKeepsTokens(rpm, After(rpm, b, ts[0]), ts[1..]);
    }
  }

  /** A full bucket and what T seconds refill. */
  function Bound(rpm: int, T: real): real { rpm as real + rpm as real * T / 60.0 }

  lemma BoundInTokens(rpm: int, t: real, u: real)
    ensures Capacity(rpm) + (Mark(rpm, t) - Mark(rpm, u)) == Bound(rpm, t - u)
  {
  }

  // ---------------------------------------------------------------- the bounds

  /** However the bucket was used before, the calls inside any window of T seconds that are
      admitted number at most rpm + rpm * T / 60. */
  lemma WindowBound(rpm: int, start: real, before: seq<real>, first: real, window: seq<real>)
    requires rpm >= 0 && Forward(before, start) && LastTime(before, start) <= first && Forward(window, first)
    ensures var b := RunFrom(rpm, Fresh(rpm, start), before);
      Admitted(rpm, b, [first] + window) as real <= Bound(rpm, LastTime(window, first) - first)
  {
    var b := RunFrom(rpm, Fresh(rpm, start), before);
    RunKeepsTokens(rpm, Fresh(rpm, start), before);
    WindowFrom(rpm, b, first, window);
  }

  lemma WindowFrom(rpm: int, b: Bucket, first: real, window: seq<real>)
    requires rpm >= 0 && 0.0 <= b.tokens && b.lastTick <= first && Forward(window, first)
    ensures Admitted(rpm, b, [first] + window) as real <= Bound(rpm, LastTime(window, first) - first)
  {
    BoundInTokens(rpm, LastTime(window, first), first);
    RunIsSpending(rpm, b, [first] + window);
    assert ([first] + window)[1..] == window;
    MarkOrder(rpm, b.lastTick, first);
    MarksForward(rpm, window, first);
    WindowOfTokens(Capacity(rpm), Metered(rpm, b), Mark(rpm, first), Marks(rpm, window));
  }

  /** With a rate of zero or less nothing is admitted. */
  lemma {:induction false} NoRateNoCalls(rpm: int, b: Bucket, ts: seq<real>)
    requires rpm <= 0
    ensures Admitted(rpm, b, ts) == 0
    decreases ts
  {
    if ts != [] {
      NoRateNoCalls(rpm, After(rpm, b, ts[0]), ts[1..]);
    }
  }

  /** Calls at least 60 / rpm seconds apart. */
  predicate Spaced(rpm: int, ts: seq<real>, start: real)
    requires rpm > 0
  {
    ts == [] || (start + 60.0 / rpm as real <= ts[0] && Spaced(rpm, ts[1..], ts[0]))
  }

  lemma OneRefill(rpm: int, d: real)
    requires rpm > 0 && d >= 60.0 / rpm as real
    ensures d * Rate(rpm) >= 1.0
  {
    var r := rpm as real;
    assert 60.0 / r * r == 60.0;
    assert d * r >= 60.0 / r * r;
    assert d * Rate(rpm) == d * r / 60.0;
  }

  lemma CappedSum(tokens: real, gain: real, cap: real)
    requires 0.0 <= tokens && 1.0 <= gain && 1.0 <= cap
    ensures Capped(tokens, gain, cap) >= 1.0
  {
  }

  lemma RefillAdmits(rpm: int, b: Bucket, now: real)
    requires rpm > 0 && 0.0 <= b.tokens && (now - b.lastTick) * Rate(rpm) >= 1.0
    ensures Admits(rpm, b, now) && 0.0 <= After(rpm, b, now).tokens && After(rpm, b, now).lastTick == now
  {
    var gain := (now - b.lastTick) * Rate(rpm);
    var cap := Capacity(rpm);
    CappedSum(b.tokens, gain, cap);
    assert Refilled(rpm, b, now) == Capped(b.tokens, gain, cap);
  }

  lemma SpacedCallAdmitted(rpm: int, b: Bucket, now: real)
    requires rpm > 0 && 0.0 <= b.tokens && b.lastTick + 60.0 / rpm as real <= now
    ensures Admits(rpm, b, now) && 0.0 <= After(rpm, b, now).tokens && After(rpm, b, now).lastTick == now
  {
    OneRefill(rpm, now - b.lastTick);
    RefillAdmits(rpm, b, now);
  }

  lemma {:induction false} SpacedFromAnywhere(rpm: int, b: Bucket, ts: seq<real>)
    requires rpm > 0 && 0.0 <= b.tokens && Spaced(rpm, ts, b.lastTick)
    ensures Admitted(rpm, b, ts) == |ts|
    decreases ts
  {
    if ts != [] {
      SpacedCallAdmitted(rpm, b, ts[0]);
      SpacedFromAnywhere(rpm, After(rpm, b, ts[0]), ts[1..]);
    }
  }

  lemma FirstCallAdmitted(rpm: int, start: real, first: real)
    requires rpm > 0 && start <= first
    ensures Admits(rpm, Fresh(rpm, start), first) && 0.0 <= After(rpm, Fresh(rpm, start), first).tokens
    ensures After(rpm, Fresh(rpm, start), first).lastTick == first
  {
    MarkDifference(rpm, first, start);
    MarkOrder(rpm, start, first);
  }

  /** A caller that keeps at least 60 / rpm seconds between calls is never refused. */
  lemma SpacedCallerNeverRefused(rpm: int, start: real, first: real, ts: seq<real>)
    requires rpm > 0 && start <= first && Spaced(rpm, ts, first)
    ensures Admitted(rpm, Fresh(rpm, start), [first] + ts) == 1 + |ts|
  {
    FirstCallAdmitted(rpm, start, first);
    SpacedFromAnywhere(rpm, After(rpm, Fresh(rpm, start), first), ts);
    assert ([first] + ts)[1..] == ts;
  }

  /** The bound is reached: rpm calls at one instant are all admitted by a full bucket. */
  lemma {:induction false} BurstIsAdmitted(rpm: int, b: Bucket, n: nat)
    requires rpm > 0 && n as real <= b.tokens <= Capacity(rpm)
    ensures Admitted(rpm, b, seq(n, _ => b.lastTick)) == n
    decreases n
  {
    if n > 0 {
      var b' := After(rpm, b, b.lastTick);
      assert seq(n, _ => b.lastTick)[1..] == seq(n - 1, _ => b'.lastTick);
      BurstIsAdmitted(rpm, b', n - 1);
    }
  }

  /** A new bucket admits rpm calls at its first instant, and no more. */
  lemma FullBurstAdmitted(rpm: int, start: real)
    requires rpm > 0
    ensures Admitted(rpm, Fresh(rpm, start), seq(rpm, _ => start)) == rpm
    ensures Admitted(rpm, Fresh(rpm, start), seq(rpm + 1, _ => start)) <= rpm
  {
    BurstIsAdmitted(rpm, Fresh(rpm, start), rpm);
    var all := seq(rpm + 1, _ => start);
    var rest := seq(rpm, _ => start);
    assert all == [start] + rest;
    SameInstant(rest, start);
    WindowFrom(rpm, Fresh(rpm, start), start, rest);
  }

  lemma {:induction false} SameInstant(ts: seq<real>, start: real)
    requires forall i | 0 <= i < |ts| :: ts[i] == start
    ensures Forward(ts, start) && LastTime(ts, start) == start
    decreases |ts|
  {
    if ts != [] {
      assert ts[0] == start;
      assert forall i | 0 <= i < |ts[1..]| :: ts[1..][i] == ts[i + 1];
      SameInstant(ts[1..], start);
    }
  }

  /** A refused call costs nothing: whatever comes next finds the bucket as if it had not been
      made. */
  lemma RefusalIsInvisible(rpm: int, b: Bucket, now: real, later: real)
    requires rpm > 0 && b.lastTick <= now <= later && !Admits(rpm, b, now)
    ensures Refilled(rpm, After(rpm, b, now), later) == Refilled(rpm, b, later)
    ensures After(rpm, After(rpm, b, now), later) == After(rpm, b, later)
  {
    CallIsSpend(rpm, b, now);
    CallIsSpend(rpm, After(rpm, b, now), later);
    CallIsSpend(rpm, b, later);
    MarkOrder(rpm, b.lastTick, now);
    MarkOrder(rpm, now, later);
  }
}
