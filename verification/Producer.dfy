/** The Kafka producer: per topic a bounded channel, publishers that never block, one worker
    that drains it, and a Close that may be called more than once. */
module Producer {

  /** `published` is everything offered, `kept` the positions in it that found room. */
  datatype Channel<T> = Channel(capacity: nat, buffer: seq<T>, handled: seq<T>, dropped: nat,
                                closed: bool, done: bool, published: seq<T>, kept: seq<nat>)

  function New<T>(capacity: nat): Channel<T> {
    Channel(capacity, [], [], 0, false, false, [], [])
  }

  datatype Move<T> = Publish(event: T) | Handle | WorkerExit | Close

  /** Callers do not publish after Close. The worker leaves when a closed channel is empty. */
  predicate Enabled<T>(c: Channel<T>, m: Move<T>) {
    match m
    case Publish(_) => !c.closed
    case Handle => c.buffer != [] && !c.done
    case WorkerExit => c.closed && c.buffer == [] && !c.done
    case Close => true
  }

  function Next<T>(c: Channel<T>, m: Move<T>): Channel<T>
    requires Enabled(c, m)
  {
    match m
    case Publish(e) =>
      var p := c.(published := c.published + [e]);
      if |c.buffer| < c.capacity then p.(buffer := c.buffer + [e], kept := c.kept + [|c.published|])
      else p.(dropped := c.dropped + 1)
    case Handle => c.(buffer := c.buffer[1..], handled := c.handled + [c.buffer[0]])
    case WorkerExit => c.(done := true)
    case Close => c.(closed := true)
  }

  ghost predicate Runs<T>(c: Channel<T>, ms: seq<Move<T>>)
    decreases |ms|
  {
    ms == [] || (Enabled(c, ms[0]) && Runs(Next(c, ms[0]), ms[1..]))
  }

  function Run<T>(c: Channel<T>, ms: seq<Move<T>>): Channel<T>
    requires Runs(c, ms)
    decreases |ms|
  {
    if ms == [] then c else Run(Next(c, ms[0]), ms[1..])
  }

  /** The events at these positions, which ascend. */
  ghost predicate Picks<T>(events: seq<T>, positions: seq<nat>, picked: seq<T>) {
    && |picked| == |positions|
    && (forall i | 0 <= i < |positions| :: positions[i] < |events| && picked[i] == events[positions[i]])
    && (forall i, j | 0 <= i < j < |positions| :: positions[i] < positions[j])
  }

  ghost predicate Conserved<T>(c: Channel<T>) {
    && Picks(c.published, c.kept, c.handled + c.buffer)
    && |c.published| == c.dropped + |c.handled| + |c.buffer|
    && |c.buffer| <= c.capacity
    && (c.done ==> c.closed && c.buffer == [])
  }

  lemma StepConserves<T>(c: Channel<T>, m: Move<T>)
    requires Conserved(c) && Enabled(c, m)
    ensures Conserved(Next(c, m))
  {
    match m
    case Publish(e) =>
      assert c.handled + (c.buffer + [e]) == (c.handled + c.buffer) + [e];
    case Handle =>
      assert c.handled + [c.buffer[0]] + c.buffer[1..] == c.handled + c.buffer;
    case WorkerExit =>
    case Close =>
  }

  lemma {:induction false} RunConserves<T>(c: Channel<T>, ms: seq<Move<T>>)
    requires Conserved(c) && Runs(c, ms)
    ensures Conserved(Run(c, ms))
    decreases |ms|
  {
    if ms != [] {
      StepConserves(c, ms[0]);
      RunConserves(Next(c, ms[0]), ms[1..]);
    }
  }

  /** In every reachable state: published = dropped + handled + buffered; what was handled,
      then what is buffered, are the events that found room, each once and in the order
      published; and once the worker has signalled done nothing is buffered. */
  lemma NothingLostOrRepeated<T>(capacity: nat, ms: seq<Move<T>>)
    requires Runs(New<T>(capacity), ms)
    ensures var c := Run(New<T>(capacity), ms);
      && |c.published| == c.dropped + |c.handled| + |c.buffer|
      && Picks(c.published, c.kept, c.handled + c.buffer)
      && (c.done ==> c.buffer == [] && Picks(c.published, c.kept, c.handled))
  {
    RunConserves(New<T>(capacity), ms);
    var c := Run(New<T>(capacity), ms);
    if c.done {
      assert c.handled + c.buffer == c.handled;
    }
  }

  /** An event is dropped only if it finds the buffer full, and kept otherwise, behind those
      already there. */
  lemma DroppedIffFull<T>(c: Channel<T>, e: T)
    requires Conserved(c) && Enabled(c, Publish(e))
    ensures var c' := Next(c, Publish(e));
      && (c'.dropped == c.dropped + 1 <==> |c.buffer| == c.capacity)
      && (|c.buffer| < c.capacity ==> c'.dropped == c.dropped && c'.buffer == c.buffer + [e])
      && (|c.buffer| == c.capacity ==> c'.buffer == c.buffer)
      && c'.published == c.published + [e] && c'.handled == c.handled
  {
  }

  predicate AllPublish<T>(ms: seq<Move<T>>) {
    forall i | 0 <= i < |ms| :: ms[i].Publish?
  }

  /** A burst that fits into the free room is not dropped, however it arrives. */
  lemma {:induction false} BurstFits<T>(c: Channel<T>, ms: seq<Move<T>>)
    requires Runs(c, ms) && AllPublish(ms) && |c.buffer| + |ms| <= c.capacity
    ensures Run(c, ms).dropped == c.dropped && |Run(c, ms).buffer| == |c.buffer| + |ms|
    decreases |ms|
  {
    if ms != [] {
      assert ms[0].Publish?;
      assert forall i | 0 <= i < |ms[1..]| :: ms[1..][i] == ms[i + 1];
      BurstFits(Next(c, ms[0]), ms[1..]);
    }
  }

  /** The moves of a worker that finds n events in a closed channel. */
  function Draining<T>(n: nat): seq<Move<T>> {
    if n == 0 then [WorkerExit] else [Handle] + Draining(n - 1)
  }

  lemma {:induction false} DrainingRuns<T>(c: Channel<T>)
    requires c.closed && !c.done
    ensures Runs(c, Draining(|c.buffer|))
    decreases |c.buffer|
  {
    if c.buffer != [] {
      DrainingRuns(Next(c, Handle));
      assert Draining<T>(|c.buffer|)[1..] == Draining<T>(|c.buffer| - 1);
    } else {
      assert Draining<T>(0)[1..] == [];
    }
  }

  /** They handle everything buffered, in order. */
  lemma {:induction false} DrainingHandlesAll<T>(c: Channel<T>)
    requires c.closed && !c.done && Runs(c, Draining(|c.buffer|))
    ensures Run(c, Draining(|c.buffer|)) == c.(buffer := [], handled := c.handled + c.buffer, done := true)
    decreases |c.buffer|
  {
    if c.buffer != [] {
      assert Draining<T>(|c.buffer|)[1..] == Draining<T>(|c.buffer| - 1);
      DrainingHandlesAll(Next(c, Handle));
      assert c.handled + [c.buffer[0]] + c.buffer[1..] == c.handled + c.buffer;
    } else {
      assert Draining<T>(0)[1..] == [] && c.handled + c.buffer == c.handled;
    }
  }

  class Topic<T> {
    const capacity: nat
    var buffer: seq<T>
    var dropped: nat
    var handled: seq<T>
    var closed: bool
    var done: bool
    ghost var published: seq<T>
    ghost var kept: seq<nat>

    ghost function Abs(): Channel<T>
      reads this
    {
      Channel(capacity, buffer, handled, dropped, closed, done, published, kept)
    }

    constructor (capacity: nat)
      ensures Abs() == New(capacity)
    {
      this.capacity := capacity;
      buffer, dropped, handled, closed, done := [], 0, [], false, false;
      published, kept := [], [];
    }

    method Offer(event: T)
      requires !closed
      modifies this
      ensures Abs() == Next(old(Abs()), Publish(event))
    {
      if |buffer| < capacity {
        buffer := buffer + [event];
        kept := kept + [|published|];
      } else {
        dropped := dropped + 1;
      }
      published := published + [event];
    }

    method CloseChannel()
      modifies this
      ensures Abs() == Next(old(Abs()), Close)
    {
      closed := true;
    }

    /** One round of the worker's loop, which waits while an open channel is empty: it takes
        the oldest event, or leaves a closed and empty channel and signals done. */
    method WorkOnce() returns (more: bool)
      requires !done && (buffer != [] || closed)
      modifies this
      ensures more == (old(buffer) != [])
      ensures var m := if more then Handle else WorkerExit;
        old(Enabled(Abs(), m)) && Abs() == Next(old(Abs()), m)
    {
      if |buffer| > 0 {
        handled := handled + [buffer[0]];
        buffer := buffer[1..];
        return true;
      }
      done := true;
      return false;
    }

    /** The rest of the worker's loop once the channel is closed: as many moves as it takes to
        handle what is buffered, and the one that signals done. */
    method Drain()
      requires closed && !done
      modifies this
      ensures Runs(old(Abs()), Draining(|old(buffer)|)) && Abs() == Run(old(Abs()), Draining(|old(buffer)|))
      ensures done && buffer == [] && handled == old(handled) + old(buffer)
    {
      var more := true;
      DrainingRuns(Abs());
      while more
        invariant more ==> closed && !done && Runs(Abs(), Draining(|buffer|))
        invariant more ==> Run(Abs(), Draining(|buffer|)) == old(Run(Abs(), Draining(|buffer|)))
        invariant !more ==> Abs() == old(Run(Abs(), Draining(|buffer|)))
        decreases if more then |buffer| + 1 else 0
      {
        more := WorkOnce();
      }
      DrainingHandlesAll(old(Abs()));
    }
  }
}
