// What the archiver's loop does with what it polls, turn by turn, in terms of the state machine's events.
module ArchiverLoop {
  import opened Framing
  import opened ArchiveKey
  import opened ArchiverSpec
  import opened Polling

  datatype Tick = Tick(polled: Polled, now: real, hour: UtcHour, outcome: Outcome)

  datatype Limits = Limits(maxMessages: nat, maxSeconds: real, maxBytes: nat)

  /** How many payloads the open batch has, their bytes, and since when it is open. */
  datatype Fill = Fill(count: nat, size: nat, openedAt: real)

  datatype Loop = Loop(events: seq<Event>, fill: Fill, raised: bool)

  predicate Available(w: World, s: State, p: nat) {
    p < |w.logs| && p < |s.position| && s.position[p] < |w.logs[p]|
  }

  function TotalBytes(parts: seq<Part>): nat {
    if parts == [] then 0 else TotalBytes(parts[..|parts| - 1]) + |parts[|parts| - 1].payload|
  }

  function Delivered(w: World, s: State, tick: Tick): seq<Event> {
    if tick.polled.Message? && Available(w, s, tick.polled.partition) then [Deliver(tick.polled.partition)] else []
  }

  /** The batch after the polled message: one payload more for each of its parts. */
  function Filled(w: World, s: State, fill: Fill, tick: Tick): Fill {
    if tick.polled.Message? && Available(w, s, tick.polled.partition) then
      var p := tick.polled.partition;
      var parts := Parts(w, w.logs[p][s.position[p]]);
      fill.(count := fill.count + |parts|, size := fill.size + TotalBytes(parts))
    else fill
  }

  /** Enough payloads, enough bytes, or open long enough with anything in it. */
  predicate Due(fill: Fill, limits: Limits, now: real) {
    || fill.count >= limits.maxMessages || fill.size >= limits.maxBytes
    || (fill.count > 0 && now >= fill.openedAt + limits.maxSeconds)
  }

  /** The puts that return: up to the first group with a payload too long to frame, or the put that raises. */
  function PutsDone(g: Groups, outcome: Outcome, i: nat): (n: nat)
    requires Listed(g) && i <= |g.order|
    ensures i <= n <= |g.order|
    decreases |g.order| - i
  {
    if i == |g.order| then i
    else
      assert g.order[i] in g.order;
      if !Framable(g.at[g.order[i]].payloads) then i
      else if outcome.PutRaised? && (outcome.puts == i || i == |g.order| - 1) then i
      else PutsDone(g, outcome, i + 1)
  }

  /** What takes place when a flush is asked for: the outside world's outcome, or a group that cannot be framed. */
  function Effective(g: Groups, outcome: Outcome): Outcome
    requires Listed(g)
  {
    if PutsDone(g, outcome, 0) < |g.order| then PutRaised(PutsDone(g, outcome, 0)) else outcome
  }

  function TickEvents(w: World, limits: Limits, s: State, fill: Fill, tick: Tick): seq<Event>
    requires Listed(s.groups)
  {
    if tick.polled.EndOfPartition? || tick.polled.BrokerError? then []
    else
      var delivered := Delivered(w, s, tick);
      if Due(Filled(w, s, fill, tick), limits, tick.now)
      then delivered + [Flush(tick.hour, Effective(Run(w, s, delivered).groups, tick.outcome))]
      else delivered
  }

  predicate EndsInFlush(events: seq<Event>) {
    events != [] && events[|events| - 1].Flush?
  }

  /** A flush raises unless it ends well, or has no group to put. */
  predicate FlushRaises(w: World, s: State, events: seq<Event>)
    requires Listed(s.groups)
  {
    && EndsInFlush(events)
    && Run(w, s, events[..|events| - 1]).groups.at != map[] && events[|events| - 1].outcome != Done
  }

  function FilledAfter(w: World, limits: Limits, s: State, fill: Fill, tick: Tick): Fill
    requires Listed(s.groups)
  {
    var turn := TickEvents(w, limits, s, fill, tick);
    if tick.polled.EndOfPartition? || tick.polled.BrokerError? then fill
    else if EndsInFlush(turn) && !FlushRaises(w, s, turn) then Fill(0, 0, tick.now)
    else Filled(w, s, fill, tick)
  }

  function Turned(w: World, limits: Limits, start: State, l: Loop, tick: Tick): Loop
    requires Listed(start.groups)
  {
    if l.raised then l
    else
      var s := Run(w, start, l.events);
      var turn := TickEvents(w, limits, s, l.fill, tick);
      Loop(l.events + turn, FilledAfter(w, limits, s, l.fill, tick), tick.polled.BrokerError? || FlushRaises(w, s, turn))
  }

  function Looped(w: World, limits: Limits, start: State, fill: Fill, script: seq<Tick>): Loop
    requires Listed(start.groups)
  {
    if script == [] then Loop([], fill, false)
    else
      var n := |script| - 1;
      Turned(w, limits, start, Looped(w, limits, start, fill, script[..n]), script[n])
  }

  // -------------------------------------------------------------- what the loop does

  function Polls(script: seq<Tick>): seq<nat> {
    if script == [] then []
    else
      Polls(script[..|script| - 1])
      + if script[|script| - 1].polled.Message? then [script[|script| - 1].polled.partition] else []
  }

  function Deliveries(events: seq<Event>): seq<nat> {
    if events == [] then []
    else
      Deliveries(events[..|events| - 1])
      + if events[|events| - 1].Deliver? then [events[|events| - 1].partition] else []
  }

  lemma DeliveriesOn(events: seq<Event>, e: Event)
    ensures Deliveries(events + [e]) == Deliveries(events) + if e.Deliver? then [e.partition] else []
  {
    assert (events + [e])[..|events|] == events;
  }

  lemma TurnDelivers(w: World, limits: Limits, s: State, fill: Fill, tick: Tick, events: seq<Event>)
    requires Listed(s.groups)
    ensures Deliveries(events + TickEvents(w, limits, s, fill, tick)) ==
      Deliveries(events)
      + if tick.polled.Message? && Available(w, s, tick.polled.partition) then [tick.polled.partition] else []
  {
    hide Run, Due, Deliveries, Available, Effective, Filled;
    var turn := TickEvents(w, limits, s, fill, tick);
    var flush := Flush(tick.hour, Effective(Run(w, s, Delivered(w, s, tick)).groups, tick.outcome));
    assert events + [] == events && [] + [flush] == [flush];
    if tick.polled.Message? && Available(w, s, tick.polled.partition) {
      var deliver := Deliver(tick.polled.partition);
      DeliveriesOn(events, deliver);
      DeliveriesOn(events + [deliver], flush);
      assert events + ([deliver] + [flush]) == events + [deliver] + [flush];
      assert turn == [deliver] || turn == [deliver] + [flush];
    } else {
      DeliveriesOn(events, flush);
      assert turn == [] || turn == [flush];
    }
  }

  /** While nothing raises, whatever is polled from a partition with messages left is delivered: each message
      once, in the order polled. */
  lemma {:induction false} PolledIsDelivered(w: World, limits: Limits, start: State, fill: Fill, script: seq<Tick>)
    requires Listed(start.groups)
    requires forall n :: 0 <= n < |script| ==> var l := Looped(w, limits, start, fill, script[..n]);
      !l.raised && (script[n].polled.Message? ==> Available(w, Run(w, start, l.events), script[n].polled.partition))
    ensures Deliveries(Looped(w, limits, start, fill, script).events) == Polls(script)
  {
    hide Run, TickEvents, Deliveries, Available, FilledAfter, FlushRaises;
    if script == [] {
      NothingDelivered();
    } else {
      var n := |script| - 1;
      var front, l := script[..n], Looped(w, limits, start, fill, script[..n]);
      forall m | 0 <= m < n ensures front[..m] == script[..m] && front[m] == script[m] {}
      PolledIsDelivered(w, limits, start, fill, front);
      TurnDelivers(w, limits, Run(w, start, l.events), l.fill, script[n], l.events);
    }
  }

  lemma NothingDelivered()
    ensures Deliveries([]) == []
  {}

  /** A turn that ends normally leaves no batch open that was due, but for a partition end, unless a limit of
      zero makes every batch due. */
  lemma NothingDueIsLeft(w: World, limits: Limits, s: State, fill: Fill, tick: Tick)
    requires Listed(s.groups) && limits.maxMessages > 0 && limits.maxBytes > 0
    requires !tick.polled.EndOfPartition? && !tick.polled.BrokerError?
    requires !FlushRaises(w, s, TickEvents(w, limits, s, fill, tick))
    ensures !Due(FilledAfter(w, limits, s, fill, tick), limits, tick.now)
  {
    hide Run, Effective, Filled;
    var turn, delivered := TickEvents(w, limits, s, fill, tick), Delivered(w, s, tick);
    assert !EndsInFlush(delivered);
  }

  /** The puts before the one that stops can all be framed and none of them is the one that raises. */
  lemma {:induction false} PutsDoneStops(g: Groups, outcome: Outcome, i: nat)
    requires Listed(g) && i <= |g.order|
    ensures var n := PutsDone(g, outcome, i);
      && (forall j :: i <= j < n ==> g.order[j] in g.at && Framable(g.at[g.order[j]].payloads))
      && (outcome.PutRaised? ==> n < |g.order| || i == |g.order|)
      && (outcome.PutRaised? && i <= outcome.puts ==> n <= outcome.puts)
      && (n < |g.order| && g.order[n] in g.at && Framable(g.at[g.order[n]].payloads) ==>
            outcome.PutRaised? && (n == outcome.puts || n == |g.order| - 1))
    decreases |g.order| - i
  {
    hide Framable;
    if i < |g.order| {
      assert g.order[i] in g.order;
      PutsDoneStops(g, outcome, i + 1);
    }
  }
}
