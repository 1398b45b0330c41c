// The TypeScript `SessionSpanExporter`: export continuations and flushes that resume in any order.
module JsExporter {
  import opened Text
  import opened HeldBuffer

  /** A batch handed to a delegate exporter, and the session endpoint it was sent under. */
  datatype Delivery = Delivery(delegate: nat, endpoint: string, spans: seq<Span>)

  /** `urls` lists the URLs of the delegates created so far; the last one is the current delegate.
      `replaced` and `stopped` list the delegates shut down by `exporterFor` and by `shutdown`;
      `dropped` and `reported` record what overflow removed and how much of it was reported. */
  datatype Exporter = Exporter(
    pending: seq<Span>, droppedWhileHeld: nat, urls: seq<string>,
    handed: seq<Delivery>, replaced: seq<nat>, stopped: seq<nat>, dropped: seq<Span>, reported: nat)

  const NEW: Exporter := Exporter([], 0, [], [], [], [], [], 0)

  function Url(endpoint: string, path: string): string {
    (if endpoint != "" && endpoint[|endpoint| - 1] == '/' then endpoint[..|endpoint| - 1] else endpoint) + path
  }

  /** One trailing slash is dropped, if there is one. */
  lemma UrlReads(endpoint: string, path: string)
    ensures Url(endpoint + "/", path) == endpoint + path
    ensures endpoint == "" || endpoint[|endpoint| - 1] != '/' ==> Url(endpoint, path) == endpoint + path
  {
    assert (endpoint + "/")[..|endpoint|] == endpoint;
  }

  function AfterHold(x: Exporter, spans: seq<Span>): Exporter {
    var (kept, overflow) := Trim(x.pending, spans);
    x.(pending := kept, droppedWhileHeld := x.droppedWhileHeld + |overflow|, dropped := x.dropped + overflow)
  }

  function ExporterFor(x: Exporter, url: string): Exporter {
    if x.urls != [] && x.urls[|x.urls| - 1] == url then x
    else x.(urls := x.urls + [url], replaced := if x.urls == [] then x.replaced else x.replaced + [|x.urls| - 1])
  }

  /** Drain, then hand everything to the delegate for the session's endpoint. */
  function Send(x: Exporter, spans: seq<Span>, endpoint: string, path: string): Exporter {
    var y := ExporterFor(x, Url(endpoint, path));
    y.(pending := [], droppedWhileHeld := 0, reported := x.reported + x.droppedWhileHeld,
       handed := x.handed + [Delivery(if |y.urls| == 0 then 0 else |y.urls| - 1, endpoint, x.pending + spans)])
  }

  /** What follows `await provider.current()` in an export. */
  function Continue(x: Exporter, spans: seq<Span>, session: Option<string>, path: string): Exporter {
    match session
    case None => AfterHold(x, spans)
    case Some(endpoint) => Send(x, spans, endpoint, path)
  }

  function AfterShutdown(x: Exporter): Exporter {
    if x.urls == [] then x else x.(stopped := x.stopped + [|x.urls| - 1])
  }

  /** Exports waiting for a session, flushes waiting for a session, the exporter, and the continuations
      that have run. */
  datatype System = System(inFlight: seq<seq<Span>>, flushes: nat, exporter: Exporter, past: seq<Continuation>)

  /** A resumption takes any waiting export, or any waiting flush; one that names none is no step. */
  datatype Event =
    | Submit(spans: seq<Span>)
    | Resume(which: nat, session: Option<string>)
    | FlushBegin
    | FlushResume(which: nat, session: Option<string>)
    | Stop

  function Step(s: System, e: Event, path: string): System {
    match e
    case Submit(spans) => s.(inFlight := s.inFlight + [spans])
    case Resume(k, session) =>
      if k >= |s.inFlight| then s
      else s.(inFlight := Without(s.inFlight, k), exporter := Continue(s.exporter, s.inFlight[k], session, path),
              past := s.past + [Continuation(s.inFlight[k], session.Some?)])
    case FlushBegin => if s.exporter.pending == [] then s else s.(flushes := s.flushes + 1)
    case FlushResume(k, session) =>
      if k >= s.flushes then s
      else if session.None? then s.(flushes := s.flushes - 1)
      else s.(flushes := s.flushes - 1, exporter := Send(s.exporter, [], session.value, path),
              past := s.past + [Continuation([], true)])
    case Stop => s.(exporter := AfterShutdown(s.exporter))
  }

  function Run(events: seq<Event>, path: string): System {
    if events == [] then System([], 0, NEW, [])
    else Step(Run(events[..|events| - 1], path), events[|events| - 1], path)
  }

  function Submitted(events: seq<Event>): seq<Span> {
    if events == [] then []
    else Submitted(events[..|events| - 1]) + if events[|events| - 1].Submit? then events[|events| - 1].spans else []
  }

  lemma StepOn(events: seq<Event>, e: Event, path: string)
    ensures Run(events + [e], path) == Step(Run(events, path), e, path)
  {
    assert (events + [e])[..|events|] == events;
  }

  lemma SubmittedOn(events: seq<Event>, e: Event)
    ensures Submitted(events + [e]) == Submitted(events) + if e.Submit? then e.spans else []
  {
    assert (events + [e])[..|events|] == events;
  }

  function Handed(deliveries: seq<Delivery>): seq<Span> {
    if deliveries == [] then [] else Handed(deliveries[..|deliveries| - 1]) + deliveries[|deliveries| - 1].spans
  }

  // --------------------------------------------------------------- the buffer

  ghost predicate Buffered(x: Exporter, past: seq<Continuation>) {
    && x.pending == Newest(HeldSince(past)) && Handed(x.handed) == Released(past)
    && x.dropped == Dropped(past) && x.reported == |DroppedBefore(past)|
    && x.droppedWhileHeld == |Oldest(HeldSince(past))|
  }

  lemma HandedAppend(deliveries: seq<Delivery>, d: Delivery)
    ensures Handed(deliveries + [d]) == Handed(deliveries) + d.spans
  {
    assert (deliveries + [d])[..|deliveries|] == deliveries;
  }

  lemma SendBuffers(x: Exporter, past: seq<Continuation>, spans: seq<Span>, endpoint: string, path: string)
    requires Buffered(x, past)
    ensures Buffered(Send(x, spans, endpoint, path), past + [Continuation(spans, true)])
  {
    hide HeldSince, Released, DroppedBefore, Handed;
    AnotherContinuation(past, Continuation(spans, true));
    var y := Send(x, spans, endpoint, path);
    HandedAppend(x.handed, y.handed[|x.handed|]);
    assert Oldest([]) == [] && Newest([]) == [];
  }

  lemma HoldBuffers(x: Exporter, past: seq<Continuation>, spans: seq<Span>)
    requires Buffered(x, past)
    ensures Buffered(AfterHold(x, spans), past + [Continuation(spans, false)])
  {
    hide HeldSince, Released, DroppedBefore, Handed;
    AnotherContinuation(past, Continuation(spans, false));
    var grown := x.pending + spans;
    assert grown[..0] == [] && grown[0..] == grown;
    Associative(DroppedBefore(past), Oldest(HeldSince(past)), Oldest(grown));
    assert Oldest(HeldSince(past)) + [] == Oldest(HeldSince(past));
  }

  lemma {:induction false} RunBuffers(events: seq<Event>, path: string)
    ensures Buffered(Run(events, path).exporter, Run(events, path).past)
  {
    hide Buffered, Send, AfterHold, AfterShutdown;
    if events == [] {
      NothingBuffered();
    } else {
      var front, last := events[..|events| - 1], events[|events| - 1];
      RunBuffers(front, path);
      var s := Run(front, path);
      match last
      case Resume(k, session) =>
        if k < |s.inFlight| {
          if session.None? { HoldBuffers(s.exporter, s.past, s.inFlight[k]); }
          else { SendBuffers(s.exporter, s.past, s.inFlight[k], session.value, path); }
        }
      case FlushResume(k, session) =>
        if k < s.flushes && session.Some? { SendBuffers(s.exporter, s.past, [], session.value, path); }
      case Stop => ShutdownBuffers(s.exporter, s.past);
      case _ =>
    }
  }

  lemma NothingBuffered()
    ensures Buffered(NEW, [])
  {
    assert Oldest([]) == [] && Newest([]) == [];
  }

  lemma ShutdownBuffers(x: Exporter, past: seq<Continuation>)
    requires Buffered(x, past)
    ensures Buffered(AfterShutdown(x), past)
  {}

  /** Over every interleaving, the pending buffer is the newest min(n, 2000) of the n spans held since
      the last drain, and what was handed over plus what is pending is what arrived, in continuation
      order, with only the oldest held spans missing. */
  lemma {:induction false} DeliveredInOrder(events: seq<Event>, path: string)
    ensures var s := Run(events, path);
      && s.exporter.pending == Newest(HeldSince(s.past)) && |s.exporter.pending| <= MAX_PENDING_SPANS
      && Handed(s.exporter.handed) == Released(s.past)
      && Merge(Handed(s.exporter.handed) + s.exporter.pending, s.exporter.dropped, Arrived(s.past))
  {
    hide Merge, Run;
    RunBuffers(events, path);
    OpenOrder(Run(events, path).past);
    NewestAndOldest(HeldSince(Run(events, path).past));
  }

  // -------------------------------------------------------------- conservation

  lemma {:induction false} SubmittedOrArrived(events: seq<Event>, path: string)
    ensures multiset(Submitted(events)) == multiset(Flat(Run(events, path).inFlight)) + multiset(Arrived(Run(events, path).past))
  {
    hide Arrived, Flat, Without, Continue, Send, AfterShutdown;
    if events == [] {
      NothingArrived();
    } else {
      var front, last := events[..|events| - 1], events[|events| - 1];
      SubmittedOrArrived(front, path);
      var s := Run(front, path);
      match last
      case Submit(spans) =>
        FlatAppend(s.inFlight, spans);
        Moved(multiset(Flat(s.inFlight)), multiset(Arrived(s.past)), multiset(spans));
      case Resume(k, session) =>
        assert Submitted(events) == Submitted(front) + [];
        if k < |s.inFlight| {
          FlatWithout(s.inFlight, k);
          ArrivedAppend(s.past, Continuation(s.inFlight[k], session.Some?));
          Moved(multiset(Flat(Without(s.inFlight, k))), multiset(Arrived(s.past)), multiset(s.inFlight[k]));
        }
      case FlushResume(k, session) =>
        assert Submitted(events) == Submitted(front) + [];
        ArrivedAppend(s.past, Continuation([], true));
      case _ => assert Submitted(events) == Submitted(front) + [];
    }
  }

  lemma ArrivedAppend(past: seq<Continuation>, c: Continuation)
    ensures Arrived(past + [c]) == Arrived(past) + c.spans
  {
    AnotherContinuation(past, c);
  }

  lemma NothingArrived()
    ensures Arrived([]) == [] && Flat([]) == []
  {}

  lemma Moved(f: multiset<Span>, a: multiset<Span>, x: multiset<Span>)
    ensures f + x + a == f + a + x && f + x + a == f + (a + x)
  {}

  /** Every submitted span is waiting for its session, handed over, pending, or dropped; and every drop is
      counted: reported already, or in the counter that the next drain reports. */
  lemma {:induction false} NothingUnaccounted(events: seq<Event>, path: string)
    ensures var s := Run(events, path); var x := s.exporter;
      && multiset(Submitted(events))
           == multiset(Flat(s.inFlight)) + (multiset(Handed(x.handed) + x.pending) + multiset(x.dropped))
      && |x.dropped| == x.reported + x.droppedWhileHeld
  {
    hide Run, Handed, Merge, Arrived, Flat, Submitted;
    SubmittedOrArrived(events, path);
    DeliveredInOrder(events, path);
    RunBuffers(events, path);
    var s := Run(events, path);
    MergeCounts(Handed(s.exporter.handed) + s.exporter.pending, s.exporter.dropped, Arrived(s.past));
  }

  // ---------------------------------------------------------------- delegates

  ghost predicate DelegatesKept(x: Exporter, path: string) {
    && |x.replaced| == (if x.urls == [] then 0 else |x.urls| - 1)
    && (forall i :: 0 <= i < |x.replaced| ==> x.replaced[i] == i)
    && (forall d :: d in x.handed ==> d.delegate < |x.urls| && x.urls[d.delegate] == Url(d.endpoint, path))
    && (forall i :: 0 <= i < |x.stopped| ==> x.stopped[i] < |x.urls|)
  }

  lemma SendKeepsDelegates(x: Exporter, spans: seq<Span>, endpoint: string, path: string)
    requires DelegatesKept(x, path)
    ensures DelegatesKept(Send(x, spans, endpoint, path), path)
  {
    hide Url;
    var y := Send(x, spans, endpoint, path);
    forall d | d in y.handed ensures d.delegate < |y.urls| && y.urls[d.delegate] == Url(d.endpoint, path) {
      assert d in x.handed || d == y.handed[|x.handed|];
    }
  }

  lemma {:induction false} RunKeepsDelegates(events: seq<Event>, path: string)
    ensures DelegatesKept(Run(events, path).exporter, path)
  {
    hide Send, Url;
    if events != [] {
      var front, last := events[..|events| - 1], events[|events| - 1];
      RunKeepsDelegates(front, path);
      var s := Run(front, path);
      match last
      case Resume(k, session) =>
        if k < |s.inFlight| && session.Some? { SendKeepsDelegates(s.exporter, s.inFlight[k], session.value, path); }
      case FlushResume(k, session) =>
        if k < s.flushes && session.Some? { SendKeepsDelegates(s.exporter, [], session.value, path); }
      case _ =>
    }
  }

  lemma {:induction false} CountedOnce(replaced: seq<nat>, d: nat)
    requires forall i :: 0 <= i < |replaced| ==> replaced[i] == i
    ensures multiset(replaced)[d] == if d < |replaced| then 1 else 0
  {
    if replaced != [] {
      var front := replaced[..|replaced| - 1];
      CountedOnce(front, d);
      assert replaced == front + [replaced[|replaced| - 1]];
    }
  }

  /** How often a delegate was shut down altogether. */
  function ShutdownsOf(x: Exporter, d: nat): nat {
    multiset(x.replaced)[d] + multiset(x.stopped)[d]
  }

  /** Every batch went to a delegate at its own session's URL. Replacement shuts down each replaced
      delegate exactly once and the current one never, so a replaced delegate was shut down exactly once
      if and only if `shutdown` was not also called while it was current. */
  lemma {:induction false} ReplacedDelegatesShutDownOnce(events: seq<Event>, path: string, d: nat)
    requires d < |Run(events, path).exporter.urls|
    ensures var x := Run(events, path).exporter;
      && multiset(x.replaced)[d] == (if d < |x.urls| - 1 then 1 else 0)
      && (d < |x.urls| - 1 ==> (ShutdownsOf(x, d) == 1 <==> d !in x.stopped))
      && forall b :: b in x.handed ==> b.delegate < |x.urls| && x.urls[b.delegate] == Url(b.endpoint, path)
  {
    hide Run, Url;
    RunKeepsDelegates(events, path);
    CountedOnce(Run(events, path).exporter.replaced, d);
  }

  /** The second shutdown: `shutdown` ends the first delegate, and the session's move to another URL ends it
      again. */
  lemma ShutDownTwice(path: string, a: string, b: string)
    requires Url(a, path) != Url(b, path)
    ensures var events := [Submit([]), Resume(0, Some(a)), Stop, Submit([]), Resume(0, Some(b))];
      var x := Run(events, path).exporter;
      x.urls == [Url(a, path), Url(b, path)] && ShutdownsOf(x, 0) == 2
  {
    hide Url, Run;
    var e0 := [Submit([])];
    var e1 := e0 + [Resume(0, Some(a))];
    var e2 := e1 + [Stop];
    var e3 := e2 + [Submit([])];
    StartsNew(path);
    assert [] + e0 == e0 && e3 + [Resume(0, Some(b))] == [Submit([]), Resume(0, Some(a)), Stop, Submit([]), Resume(0, Some(b))];
    var one: seq<seq<Span>> := [[]];
    assert Without(one, 0) == [] && [] + one == one;
    StepOn([], Submit([]), path);
    StepOn(e0, Resume(0, Some(a)), path);
    StepOn(e1, Stop, path);
    StepOn(e2, Submit([]), path);
    StepOn(e3, Resume(0, Some(b)), path);
    var x := Run(e2, path).exporter;
    assert Run(e3, path).inFlight == [[]] && Run(e3, path).exporter == x;
    assert x.urls == [Url(a, path)] && x.replaced == [] && x.stopped == [0];
    var y := Send(x, [], b, path);
    assert y.urls == [Url(a, path), Url(b, path)] && y.replaced == [0] && y.stopped == [0];
  }

  lemma StartsNew(path: string)
    ensures Run([], path) == System([], 0, NEW, [])
  {}

  // ---------------------------------------------------------------- the object

  class SessionSpanExporter {
    const tracesPath: string
    var pending: seq<Span>
    var droppedWhileHeld: nat
    var delegate: Option<nat>
    var delegateUrl: string
    ghost var urls: seq<string>
    ghost var handed: seq<Delivery>
    ghost var replaced: seq<nat>
    ghost var stopped: seq<nat>
    ghost var dropped: seq<Span>
    ghost var reported: nat

    constructor (tracesPath: string)
      ensures Valid() && Abs() == NEW && this.tracesPath == tracesPath
    {
      this.tracesPath := tracesPath;
      pending, droppedWhileHeld, delegate, delegateUrl := [], 0, None, "";
      urls, handed, replaced, stopped, dropped, reported := [], [], [], [], [], 0;
    }

    /** `delegate` is the last one created, if any. */
    ghost predicate Valid()
      reads this
    {
      if urls == [] then delegate == None
      else delegate == Some(|urls| - 1) && delegateUrl == urls[|urls| - 1]
    }

    ghost function Abs(): Exporter
      reads this
    {
      Exporter(pending, droppedWhileHeld, urls, handed, replaced, stopped, dropped, reported)
    }

    method Hold(spans: seq<Span>)
      requires Valid()
      modifies this
      ensures Valid() && Abs() == AfterHold(old(Abs()), spans)
    {
      pending := pending + spans;
      var overflow := |pending| - MAX_PENDING_SPANS;
      if overflow > 0 {
        dropped := dropped + pending[..overflow];
        pending := pending[overflow..];
        droppedWhileHeld := droppedWhileHeld + overflow;
      }
    }

    method Drain(spans: seq<Span>) returns (toSend: seq<Span>)
      requires Valid()
      modifies this`pending, this`droppedWhileHeld, this`reported
      ensures toSend == old(pending) + spans
      ensures pending == [] && droppedWhileHeld == 0 && reported == old(reported) + old(droppedWhileHeld)
    {
      if |pending| == 0 && droppedWhileHeld == 0 {
        assert [] + spans == spans;
        return spans;
      }
      var held := pending;
      pending := [];
      if droppedWhileHeld > 0 {
        reported := reported + droppedWhileHeld;
        droppedWhileHeld := 0;
      }
      toSend := held + spans;
    }

    method DelegateFor(endpoint: string) returns (d: nat)
      requires Valid()
      modifies this`delegate, this`delegateUrl, this`urls, this`replaced
      ensures Valid() && delegate == Some(d)
      ensures Abs() == ExporterFor(old(Abs()), Url(endpoint, tracesPath))
    {
      var url := Url(endpoint, tracesPath);
      if delegate.Some? && delegateUrl == url { return delegate.value; }
      var created := 0;
      if delegate.Some? {
        replaced := replaced + [delegate.value];
        created := delegate.value + 1;
      }
      urls := urls + [url];
      delegate := Some(created);
      delegateUrl := url;
      d := created;
    }

    /** The part of an export after its session lookup. */
    method ContinueExport(spans: seq<Span>, session: Option<string>)
      requires Valid()
      modifies this
      ensures Valid() && Abs() == Continue(old(Abs()), spans, session, tracesPath)
    {
      if session.None? {
        Hold(spans);
        return;
      }
      var toSend := Drain(spans);
      var d := DelegateFor(session.value);
      handed := handed + [Delivery(d, session.value, toSend)];
    }

    /** The part of a flush after its session lookup, which is made only when something is pending. */
    method ContinueFlush(session: Option<string>)
      requires Valid()
      modifies this
      ensures Valid()
      ensures Abs() == if session.Some? then Send(old(Abs()), [], session.value, tracesPath) else old(Abs())
    {
      if session.Some? {
        var toSend := Drain([]);
        var d := DelegateFor(session.value);
        handed := handed + [Delivery(d, session.value, toSend)];
      }
    }

    method Shutdown()
      requires Valid()
      modifies this`stopped
      ensures Valid() && Abs() == AfterShutdown(old(Abs()))
    {
      if delegate.Some? {
        stopped := stopped + [delegate.value];
      }
    }
  }
}
