/** Concurrent calls through the resilient wrappers. A call asks Allow; if admitted it is in
    flight until it records exactly one outcome. Calls interleave freely, so an outcome may
    arrive long after the breaker has moved on. */
module BreakerProtocol {
  import opened CircuitBreakers

  type CallId = nat

  /** `episode` lists the calls admitted since the breaker last became HALF-OPEN. */
  datatype System = System(b: Breaker, inFlight: set<CallId>, episode: seq<CallId>)

  datatype Move =
    | Begin(id: CallId, now: int)
    | FinishOk(id: CallId, now: int)
    | FinishInfraError(id: CallId, now: int, draw: int)

  predicate Enabled(s: System, m: Move) {
    if m.Begin? then m.id !in s.inFlight else m.id in s.inFlight
  }

  function Next(c: Config, s: System, m: Move): System
    requires Enabled(s, m)
  {
    match m
    case Begin(id, now) =>
      var admitted := Admits(s.b, now);
      System(AfterAllow(s.b, now),
             if admitted then s.inFlight + {id} else s.inFlight,
             if !admitted then s.episode
             else if s.b.mode.Closed? then []
             else if s.b.mode.Open? then [id] else s.episode + [id])
    case FinishOk(id, _) => System(AfterSuccess(s.b), s.inFlight - {id}, [])
    case FinishInfraError(id, now, draw) =>
      var b' := AfterFailure(c, s.b, now, draw);
      System(b', s.inFlight - {id}, if b'.mode.HalfOpen? then s.episode else [])
  }

  const START := System(INITIAL, {}, [])

  function Run(c: Config, ms: seq<Move>): System
    requires Runs(c, ms)
    decreases |ms|, 1
  {
    if ms == [] then START else Next(c, Run(c, ms[..|ms| - 1]), ms[|ms| - 1])
  }

  ghost predicate Runs(c: Config, ms: seq<Move>)
    decreases |ms|, 0
  {
    ms == [] || (Runs(c, ms[..|ms| - 1]) && Enabled(Run(c, ms[..|ms| - 1]), ms[|ms| - 1]))
  }

  /** In every interleaving the breaker is HALF-OPEN exactly while the probe slot is taken;
      then exactly one call was admitted in this episode, and it is still in flight. */
  lemma {:induction false} OneProbeInFlight(c: Config, ms: seq<Move>)
    requires Runs(c, ms)
    ensures var s := Run(c, ms);
      && (s.b.mode.HalfOpen? <==> s.b.slotTaken)
      && (s.b.mode.HalfOpen? ==> |s.episode| == 1 && s.episode[0] in s.inFlight)
      && (!s.b.mode.HalfOpen? ==> s.episode == [])
  {
    if ms != [] {
      OneProbeInFlight(c, ms[..|ms| - 1]);
    }
  }

  /** An uninterrupted wrapper call is a Begin followed, if admitted, by one Finish. */
  lemma WrapperCallIsTwoMoves(c: Config, s: System, id: CallId, now: int, draw: int, infra: bool)
    requires Enabled(s, Begin(id, now))
    ensures var s' := Next(c, s, Begin(id, now));
      Called(c, s.b, now, draw, infra) ==
      if id !in s'.inFlight then s'.b
      else Next(c, s', if infra then FinishInfraError(id, now, draw) else FinishOk(id, now)).b
  {
  }

  /** HALF-OPEN is never a trap: some call is in flight, and whichever call reports first,
      with whatever outcome, the breaker leaves HALF-OPEN with its slot free. */
  lemma NeverStuckHalfOpen(c: Config, ms: seq<Move>, now: int, draw: int)
    requires Runs(c, ms) && Run(c, ms).b.mode.HalfOpen?
    ensures var s := Run(c, ms);
      && s.inFlight != {}
      && (forall id | id in s.inFlight ::
            && !Next(c, s, FinishOk(id, now)).b.mode.HalfOpen?
            && !Next(c, s, FinishInfraError(id, now, draw)).b.mode.HalfOpen?
            && !Next(c, s, FinishOk(id, now)).b.slotTaken
            && !Next(c, s, FinishInfraError(id, now, draw)).b.slotTaken)
  {
    OneProbeInFlight(c, ms);
  }

  /** In CLOSED every caller is let through. */
  lemma ClosedAdmitsEverybody(c: Config, ms: seq<Move>, id: CallId, now: int)
    requires Runs(c, ms) && Run(c, ms).b.mode.Closed? && id !in Run(c, ms).inFlight
    ensures var s := Run(c, ms); Next(c, s, Begin(id, now)) == s.(inFlight := s.inFlight + {id})
  {
    OneProbeInFlight(c, ms);
  }

  /** OPEN is never a trap either: once the backoff is over the next caller is admitted. */
  lemma OpenAdmitsAfterBackoff(c: Config, ms: seq<Move>, id: CallId, now: int)
    requires Runs(c, ms) && Run(c, ms).b.mode.Open? && id !in Run(c, ms).inFlight
    ensures id in Next(c, Run(c, ms), Begin(id, now)).inFlight <==> now >= Run(c, ms).b.nextProbeAt
  {
    OneProbeInFlight(c, ms);
  }
}
