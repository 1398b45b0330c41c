// What the normalizer's loop does with what it polls, turn by turn, in terms of the state machine's events.
module NormalizerLoop {
  import opened Text
  import opened NormalizerSpec
  import opened Polling

  /** What the outside world does during one turn of the loop. */
  datatype Tick = Tick(polled: Polled, now: real, outcome: Outcome)

  datatype Limits = Limits(maxRows: nat, maxSeconds: real, stopWhenIdle: Option<real>)

  /** The loop's own variables, and the events so far. */
  datatype Loop = Loop(events: seq<Event>, openedAt: real, idleSince: Option<real>, running: bool, raised: bool)

  /** The message polled, if the partition has one left. */
  function Delivered(w: World, s: State, tick: Tick): seq<Event> {
    if tick.polled.Message? && Available(w, s, tick.polled.partition) then [Deliver(tick.polled.partition)] else []
  }

  predicate Available(w: World, s: State, p: nat) {
    p < |w.logs| && p < |s.position| && s.position[p] < |w.logs[p]|
  }

  /** After the message: the batch has enough rows, or has been open long enough with anything tracked. */
  predicate Due(s: State, limits: Limits, openedAt: real, now: real) {
    (|s.rows| > 0 && |s.rows| >= limits.maxRows) || (s.offsets != map[] && now >= openedAt + limits.maxSeconds)
  }

  /** The turn's events: the message, then a flush if one is due. A partition end and a broker error skip both. */
  function TickEvents(w: World, limits: Limits, s: State, openedAt: real, tick: Tick): seq<Event> {
    if tick.polled.EndOfPartition? || tick.polled.BrokerError? then []
    else
      var delivered := Delivered(w, s, tick);
      if Due(Run(w, s, delivered), limits, openedAt, tick.now) then delivered + [Flush(tick.outcome)] else delivered
  }

  predicate EndsInFlush(events: seq<Event>) {
    events != [] && events[|events| - 1].Flush?
  }

  /** When the empty polls began. A clock reading of zero counts as none. */
  function IdleSince(limits: Limits, idle: Option<real>, tick: Tick): Option<real> {
    if !tick.polled.Nothing? then None
    else if limits.stopWhenIdle.None? then idle
    else if idle.Some? && idle.value != 0.0 then idle
    else Some(tick.now)
  }

  predicate IdleTooLong(limits: Limits, idle: Option<real>, tick: Tick) {
    && tick.polled.Nothing? && limits.stopWhenIdle.Some?
    && tick.now - IdleSince(limits, idle, tick).value >= limits.stopWhenIdle.value
  }

  predicate Raises(limits: Limits, events: seq<Event>, tick: Tick) {
    tick.polled.BrokerError? || (EndsInFlush(events) && tick.outcome != Done)
  }

  /** One more turn, unless the loop is over. */
  function Turned(w: World, limits: Limits, start: State, l: Loop, tick: Tick): Loop {
    if !l.running || l.raised then l
    else
      var turn := TickEvents(w, limits, Run(w, start, l.events), l.openedAt, tick);
      var raised := Raises(limits, turn, tick);
      Loop(l.events + turn,
           if EndsInFlush(turn) && !raised then tick.now else l.openedAt,
           IdleSince(limits, l.idleSince, tick),
           !IdleTooLong(limits, l.idleSince, tick),
           raised)
  }

  function Looped(w: World, limits: Limits, start: State, openedAt: real, script: seq<Tick>): Loop {
    if script == [] then Loop([], openedAt, None, true, false)
    else
      var n := |script| - 1;
      Turned(w, limits, start, Looped(w, limits, start, openedAt, script[..n]), script[n])
  }

  // -------------------------------------------------------------- what the loop does

  ghost predicate OnlyEmptyPolls(script: seq<Tick>, from: nat, to: nat) {
    from <= to < |script| && forall i :: from <= i <= to ==> script[i].polled == Nothing
  }

  /** The empty polls since `idleSince` are the last ones, the first of them at that time. */
  ghost predicate IdleFrom(limits: Limits, script: seq<Tick>, idle: Option<real>) {
    idle.Some? ==>
      && limits.stopWhenIdle.Some? && script != []
      && exists i: nat :: OnlyEmptyPolls(script, i, |script| - 1) && script[i].now == idle.value
  }

  lemma {:induction false} IdleIsMeasured(w: World, limits: Limits, start: State, openedAt: real, script: seq<Tick>)
    requires Looped(w, limits, start, openedAt, script).running && !Looped(w, limits, start, openedAt, script).raised
    ensures IdleFrom(limits, script, Looped(w, limits, start, openedAt, script).idleSince)
  {
    hide TickEvents, Run;
    if script != [] {
      var n := |script| - 1;
      var front, l := script[..n], Looped(w, limits, start, openedAt, script[..n]);
      IdleIsMeasured(w, limits, start, openedAt, front);
      if script[n].polled.Nothing? && limits.stopWhenIdle.Some? {
        if l.idleSince.Some? && l.idleSince.value != 0.0 {
          var i: nat :| OnlyEmptyPolls(front, i, n - 1) && front[i].now == l.idleSince.value;
          assert OnlyEmptyPolls(script, i, n) && script[i].now == l.idleSince.value;
        } else {
          assert OnlyEmptyPolls(script, n, n);
        }
      }
    }
  }

  /** The loop stops of itself only when told to, and only after that many seconds of empty polls. */
  lemma {:induction false} StopsOnlyWhenIdle(w: World, limits: Limits, start: State, openedAt: real, script: seq<Tick>)
    returns (i: nat, j: nat)
    requires !Looped(w, limits, start, openedAt, script).running
    ensures limits.stopWhenIdle.Some? && OnlyEmptyPolls(script, i, j)
    ensures script[j].now - script[i].now >= limits.stopWhenIdle.value
    ensures Looped(w, limits, start, openedAt, script[..j]).running && !Looped(w, limits, start, openedAt, script[..j]).raised
  {
    hide TickEvents, Run;
    var n := |script| - 1;
    var front, l := script[..n], Looped(w, limits, start, openedAt, script[..n]);
    if !l.running {
      i, j := StopsOnlyWhenIdle(w, limits, start, openedAt, front);
      assert script[..j] == front[..j];
    } else {
      IdleIsMeasured(w, limits, start, openedAt, front);
      j := n;
      if l.idleSince.Some? && l.idleSince.value != 0.0 {
        i :| OnlyEmptyPolls(front, i, n - 1) && front[i].now == l.idleSince.value;
      } else {
        i := n;
      }
    }
  }

  /** The partitions messages were polled from. */
  function Polls(script: seq<Tick>): seq<nat> {
    if script == [] then []
    else
      Polls(script[..|script| - 1])
      + if script[|script| - 1].polled.Message? then [script[|script| - 1].polled.partition] else []
  }

  function Deliveries(events: seq<Event>): seq<nat> {
    if events == [] then []
    else
      Deliveries(events[..|events| - 1])
      + if events[|events| - 1].Deliver? then [events[|events| - 1].partition] else []
  }

  lemma DeliveriesOn(events: seq<Event>, e: Event)
    ensures Deliveries(events + [e]) == Deliveries(events) + if e.Deliver? then [e.partition] else []
  {
    assert (events + [e])[..|events|] == events;
  }

  lemma TurnDelivers(w: World, limits: Limits, s: State, openedAt: real, tick: Tick, events: seq<Event>)
    ensures Deliveries(events + TickEvents(w, limits, s, openedAt, tick)) ==
      Deliveries(events)
      + if tick.polled.Message? && Available(w, s, tick.polled.partition) then [tick.polled.partition] else []
  {
    hide Run, Due, Deliveries, Available;
    var turn, flush := TickEvents(w, limits, s, openedAt, tick), Flush(tick.outcome);
    assert events + [] == events && [] + [flush] == [flush];
    if tick.polled.Message? && Available(w, s, tick.polled.partition) {
      var deliver := Deliver(tick.polled.partition);
      DeliveriesOn(events, deliver);
      DeliveriesOn(events + [deliver], flush);
      assert events + ([deliver] + [flush]) == events + [deliver] + [flush];
      assert turn == [deliver] || turn == [deliver] + [flush];
    } else {
      DeliveriesOn(events, flush);
      assert turn == [] || turn == [flush];
    }
  }

  /** While the loop goes on, whatever is polled from a partition with messages left is delivered: each
      message once, in the order polled. */
  lemma {:induction false} PolledIsDelivered(w: World, limits: Limits, start: State, openedAt: real, script: seq<Tick>)
    requires forall n :: 0 <= n < |script| ==> var l := Looped(w, limits, start, openedAt, script[..n]);
      l.running && !l.raised &&
      (script[n].polled.Message? ==> Available(w, Run(w, start, l.events), script[n].polled.partition))
    ensures Deliveries(Looped(w, limits, start, openedAt, script).events) == Polls(script)
  {
    hide Run, TickEvents, Deliveries, Available;
    if script == [] {
      NothingDelivered();
    } else {
      var n := |script| - 1;
      var front, l := script[..n], Looped(w, limits, start, openedAt, script[..n]);
      forall m | 0 <= m < n ensures front[..m] == script[..m] && front[m] == script[m] {}
      PolledIsDelivered(w, limits, start, openedAt, front);
      TurnDelivers(w, limits, Run(w, start, l.events), l.openedAt, script[n], l.events);
    }
  }

  lemma NothingDelivered()
    ensures Deliveries([]) == []
  {}

  /** A turn that ends normally leaves no batch open that was due, but for a partition end. */
  lemma NothingDueIsLeft(w: World, limits: Limits, s: State, openedAt: real, tick: Tick)
    requires !Raises(limits, TickEvents(w, limits, s, openedAt, tick), tick) && !tick.polled.EndOfPartition?
    requires s.offsets == map[] ==> s.rows == []
    ensures var turn := TickEvents(w, limits, s, openedAt, tick);
      !Due(Run(w, s, turn), limits, if EndsInFlush(turn) then tick.now else openedAt, tick.now)
  {
    var turn, delivered := TickEvents(w, limits, s, openedAt, tick), Delivered(w, s, tick);
    BatchTracks(w, s, tick);
    if Due(Run(w, s, delivered), limits, openedAt, tick.now) {
      assert turn[..|turn| - 1] == delivered;
    }
  }

  lemma BatchTracks(w: World, s: State, tick: Tick)
    requires s.offsets == map[] ==> s.rows == []
    ensures var t := Run(w, s, Delivered(w, s, tick)); t.offsets == map[] ==> t.rows == []
  {
    hide MessageRows, MessageDead;
    if Delivered(w, s, tick) != [] {
      var p := tick.polled.partition;
      assert [Deliver(p)][..0] == [];
      assert p in DeliverSpec(w, s, p).offsets || s.failed;
    }
  }
}
