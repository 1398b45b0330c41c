// The Python `SessionSpanExporter`, whose `force_flush` empties the buffer before it asks for a session,
// and where it agrees with the TypeScript one.
module PyExporter {
  import opened Text
  import opened HeldBuffer
  import Js = JsExporter

  /** A batch passed to the parent's `export`, and the endpoint it was posted to. */
  datatype Post = Post(endpoint: string, spans: seq<Span>)

  /** `dropped`, `reported` and `lost` record what overflow removed, how much of it was reported, and what
      a flush took from the buffer and never exported. */
  datatype Exporter = Exporter(
    pending: seq<Span>, droppedCount: nat, endpoint: string,
    handed: seq<Post>, dropped: seq<Span>, reported: nat, lost: seq<Span>)

  function New(endpoint: string): Exporter {
    Exporter([], 0, endpoint, [], [], 0, [])
  }

  function StripSlashes(s: string): string {
    if s != "" && s[|s| - 1] == '/' then StripSlashes(s[..|s| - 1]) else s
  }

  /** All trailing slashes are dropped, and nothing else. */
  lemma {:induction false} SlashesStripped(s: string)
    ensures var t := StripSlashes(s);
      && t <= s && (t != "" ==> t[|t| - 1] != '/') && forall i :: |t| <= i < |s| ==> s[i] == '/'
  {
    if s != "" && s[|s| - 1] == '/' { SlashesStripped(s[..|s| - 1]); }
  }

  function EndpointOf(session: string, current: string): string {
    if session != "" then StripSlashes(session) + "/v1/traces" else current
  }

  function AfterHold(x: Exporter, spans: seq<Span>): Exporter {
    var (kept, overflow) := Trim(x.pending, spans);
    x.(pending := kept, droppedCount := x.droppedCount + |overflow|, dropped := x.dropped + overflow)
  }

  /** An empty buffer leaves the drop counter unreported. */
  function AfterDrain(x: Exporter): Exporter {
    if x.pending == [] then x else x.(pending := [], droppedCount := 0, reported := x.reported + x.droppedCount)
  }

  function Continue(x: Exporter, spans: seq<Span>, session: Option<string>): Exporter {
    match session
    case None => AfterHold(x, spans)
    case Some(endpoint) =>
      var e := EndpointOf(endpoint, x.endpoint);
      AfterDrain(x).(endpoint := e, handed := x.handed + [Post(e, x.pending + spans)])
  }

  /** The rest of `force_flush`, for what it took: no drain, and the endpoint is left as it is. */
  function ContinueFlush(x: Exporter, taken: seq<Span>, session: Option<string>): Exporter {
    if session.None? then x.(lost := x.lost + taken)
    else x.(handed := x.handed + [Post(x.endpoint, taken)])
  }

  /** Exports waiting for a session, what flushes have taken and hold, the exporter, and the past. */
  datatype System = System(inFlight: seq<seq<Span>>, taken: seq<seq<Span>>, exporter: Exporter, past: seq<Continuation>)

  function Step(s: System, e: Js.Event): System {
    match e
    case Submit(spans) => s.(inFlight := s.inFlight + [spans])
    case Resume(k, session) =>
      if k >= |s.inFlight| then s
      else s.(inFlight := Without(s.inFlight, k), exporter := Continue(s.exporter, s.inFlight[k], session),
              past := s.past + [Continuation(s.inFlight[k], session.Some?)])
    case FlushBegin =>
      if s.exporter.pending == [] then s
      else s.(taken := s.taken + [s.exporter.pending], exporter := s.exporter.(pending := []),
              past := s.past + [Continuation([], true)])
    case FlushResume(k, session) =>
      if k >= |s.taken| then s
      else s.(taken := Without(s.taken, k), exporter := ContinueFlush(s.exporter, s.taken[k], session))
    case Stop => s
  }

  function Run(events: seq<Js.Event>, endpoint: string): System {
    if events == [] then System([], [], New(endpoint), [])
    else Step(Run(events[..|events| - 1], endpoint), events[|events| - 1])
  }

  lemma StepOn(events: seq<Js.Event>, e: Js.Event, endpoint: string)
    ensures Run(events + [e], endpoint) == Step(Run(events, endpoint), e)
  {
    assert (events + [e])[..|events|] == events;
  }

  function Handed(posts: seq<Post>): seq<Span> {
    if posts == [] then [] else Handed(posts[..|posts| - 1]) + posts[|posts| - 1].spans
  }

  // ------------------------------------------------------------------ the buffer

  ghost predicate Buffered(x: Exporter, past: seq<Continuation>) {
    && x.pending == Newest(HeldSince(past)) && x.dropped == Dropped(past)
    && |x.dropped| == x.reported + x.droppedCount
  }

  lemma HoldBuffers(x: Exporter, past: seq<Continuation>, spans: seq<Span>)
    requires Buffered(x, past)
    ensures Buffered(AfterHold(x, spans), past + [Continuation(spans, false)])
  {
    hide HeldSince, DroppedBefore;
    AnotherContinuation(past, Continuation(spans, false));
    var grown := x.pending + spans;
    assert grown[..0] == [] && grown[0..] == grown;
    Associative(DroppedBefore(past), Oldest(HeldSince(past)), Oldest(grown));
    assert Oldest(HeldSince(past)) + [] == Oldest(HeldSince(past));
  }

  lemma EmptiedBuffers(x: Exporter, y: Exporter, past: seq<Continuation>, spans: seq<Span>)
    requires Buffered(x, past)
    requires y.pending == [] && y.dropped == x.dropped && |y.dropped| == y.reported + y.droppedCount
    ensures Buffered(y, past + [Continuation(spans, true)])
  {
    hide HeldSince, DroppedBefore;
    AnotherContinuation(past, Continuation(spans, true));
    assert Newest([]) == [];
  }

  lemma NothingBuffered(endpoint: string)
    ensures Buffered(New(endpoint), [])
  {
    assert Oldest([]) == [] && Newest([]) == [];
  }

  /** Over every interleaving the pending buffer is the newest min(n, 2000) of the n spans held since it
      was last emptied, and every drop is counted, though a report may come late. */
  lemma {:induction false} BufferIsNewestHeld(events: seq<Js.Event>, endpoint: string)
    ensures var s := Run(events, endpoint);
      && s.exporter.pending == Newest(HeldSince(s.past)) && s.exporter.dropped == Dropped(s.past)
      && |s.exporter.dropped| == s.exporter.reported + s.exporter.droppedCount
  {
    hide AfterHold, EndpointOf, HeldSince, Dropped, Newest;
    if events == [] {
      NothingBuffered(endpoint);
    } else {
      var front, last := events[..|events| - 1], events[|events| - 1];
      BufferIsNewestHeld(front, endpoint);
      var s, t := Run(front, endpoint), Run(events, endpoint);
      match last
      case Resume(k, session) =>
        if k < |s.inFlight| {
          if session.None? { HoldBuffers(s.exporter, s.past, s.inFlight[k]); }
          else { EmptiedBuffers(s.exporter, t.exporter, s.past, s.inFlight[k]); }
        }
      case FlushBegin =>
        if s.exporter.pending != [] { EmptiedBuffers(s.exporter, t.exporter, s.past, []); }
      case _ =>
    }
  }

  // ---------------------------------------------------------------- conservation

  ghost function Accounted(s: System): multiset<Span> {
    multiset(Flat(s.inFlight)) + multiset(Flat(s.taken)) + multiset(Handed(s.exporter.handed))
      + multiset(s.exporter.pending) + multiset(s.exporter.dropped) + multiset(s.exporter.lost)
  }

  lemma HandedAppend(posts: seq<Post>, p: Post)
    ensures Handed(posts + [p]) == Handed(posts) + p.spans
  {
    assert (posts + [p])[..|posts|] == posts;
  }

  lemma HoldCounts(x: Exporter, spans: seq<Span>)
    ensures var y := AfterHold(x, spans);
      && multiset(y.pending) + multiset(y.dropped) == multiset(x.pending) + multiset(x.dropped) + multiset(spans)
      && y.handed == x.handed && y.lost == x.lost
  {
    var grown := x.pending + spans;
    assert multiset(grown) == multiset(x.pending) + multiset(spans);
    if |grown| > MAX_PENDING_SPANS {
      var cut, rest := grown[..Cut(|grown|)], grown[Cut(|grown|)..];
      assert grown == cut + rest;
      Regroup(multiset(rest), multiset(x.dropped), multiset(cut));
    } else {
      Regroup(multiset(x.pending), multiset(x.dropped), multiset(spans));
    }
  }

  lemma Regroup(p: multiset<Span>, d: multiset<Span>, x: multiset<Span>)
    ensures p + (d + x) == x + p + d && p + x + d == p + d + x && x + p + d == (x + p) + d
  {}

  lemma Swap(f: multiset<Span>, t: multiset<Span>, h: multiset<Span>, p: multiset<Span>, d: multiset<Span>,
             l: multiset<Span>, x: multiset<Span>)
    ensures f + x + t + h + p + d + l == f + t + h + p + d + l + x
    ensures f + t + (h + (p + x)) + d + l == f + x + t + h + p + d + l
    ensures f + (t + p) + h + d + l == f + t + h + p + d + l
    ensures f + t + (h + x) + p + d + l == f + (t + x) + h + p + d + l
    ensures f + t + h + p + d + (l + x) == f + (t + x) + h + p + d + l
  {}

  lemma HoldMoves(f: multiset<Span>, t: multiset<Span>, h: multiset<Span>, p: multiset<Span>, d: multiset<Span>,
                  l: multiset<Span>, x: multiset<Span>, p': multiset<Span>, d': multiset<Span>)
    requires p' + d' == p + d + x
    ensures f + t + h + p' + d' + l == f + x + t + h + p + d + l
  {
    assert f + t + h + p' + d' + l == f + t + h + (p' + d') + l;
  }

  lemma ResumeCounts(s: System, k: nat, session: Option<string>)
    requires k < |s.inFlight|
    ensures Accounted(Step(s, Js.Resume(k, session))) == Accounted(s)
  {
    hide Flat, Handed, AfterHold, EndpointOf, Without;
    FlatWithout(s.inFlight, k);
    var x, spans := s.exporter, s.inFlight[k];
    var y := Continue(x, spans, session);
    var f, t, h := multiset(Flat(Without(s.inFlight, k))), multiset(Flat(s.taken)), multiset(Handed(x.handed));
    var p, d, l := multiset(x.pending), multiset(x.dropped), multiset(x.lost);
    if session.None? {
      HoldCounts(x, spans);
      HoldMoves(f, t, h, p, d, l, multiset(spans), multiset(y.pending), multiset(y.dropped));
    } else {
      HandedAppend(x.handed, y.handed[|x.handed|]);
      assert multiset(x.pending + spans) == p + multiset(spans);
      Swap(f, t, h, p, d, l, multiset(spans));
      assert f + t + (h + (p + multiset(spans))) + multiset{} + d + l == f + t + (h + (p + multiset(spans))) + d + l;
    }
  }

  lemma FlushCounts(s: System, e: Js.Event)
    requires e.FlushBegin? || (e.FlushResume? && e.which < |s.taken|)
    ensures Accounted(Step(s, e)) == Accounted(s)
  {
    hide Flat, Handed, Without;
    var x := s.exporter;
    var f, h := multiset(Flat(s.inFlight)), multiset(Handed(x.handed));
    var p, d, l := multiset(x.pending), multiset(x.dropped), multiset(x.lost);
    if e.FlushBegin? {
      FlatAppend(s.taken, x.pending);
      Swap(f, multiset(Flat(s.taken)), h, p, d, l, multiset{});
      var t := multiset(Flat(s.taken)) + p;
      assert f + t + h + multiset{} + d + l == f + t + h + d + l;
    } else {
      var k := e.which;
      FlatWithout(s.taken, k);
      HandedAppend(x.handed, Post(x.endpoint, s.taken[k]));
      Swap(f, multiset(Flat(Without(s.taken, k))), h, p, d, l, multiset(s.taken[k]));
    }
  }

  lemma {:induction false} RunCounts(events: seq<Js.Event>, endpoint: string)
    ensures multiset(Js.Submitted(events)) == Accounted(Run(events, endpoint))
  {
    hide Accounted, Continue, ContinueFlush;
    if events == [] {
      NothingYet(endpoint);
    } else {
      var front, last := events[..|events| - 1], events[|events| - 1];
      RunCounts(front, endpoint);
      var s := Run(front, endpoint);
      if last.Submit? {
        SubmitCounts(s, last.spans);
      } else {
        assert Js.Submitted(events) == Js.Submitted(front) + [];
        match last
        case Resume(k, session) =>
          if k < |s.inFlight| { ResumeCounts(s, k, session); }
        case FlushBegin => FlushCounts(s, last);
        case FlushResume(k, session) =>
          if k < |s.taken| { FlushCounts(s, last); }
        case _ =>
      }
    }
  }

  lemma NothingYet(endpoint: string)
    ensures Accounted(Run([], endpoint)) == multiset{}
  {}

  lemma SubmitCounts(s: System, spans: seq<Span>)
    ensures Accounted(s.(inFlight := s.inFlight + [spans])) == Accounted(s) + multiset(spans)
  {
    hide Flat, Handed;
    FlatAppend(s.inFlight, spans);
    Swap(multiset(Flat(s.inFlight)), multiset(Flat(s.taken)), multiset(Handed(s.exporter.handed)),
         multiset(s.exporter.pending), multiset(s.exporter.dropped), multiset(s.exporter.lost), multiset(spans));
  }

  /** Some flush that had taken spans found no session. */
  ghost predicate FlushedWithoutSession(events: seq<Js.Event>, endpoint: string) {
    exists i :: 0 <= i < |events| && Strands(Run(events[..i], endpoint), events[i])
  }

  predicate Strands(s: System, e: Js.Event) {
    e.FlushResume? && e.session.None? && e.which < |s.taken|
  }

  ghost predicate NonEmptyTakes(s: System) {
    forall i :: 0 <= i < |s.taken| ==> s.taken[i] != []
  }

  lemma {:induction false} LostExactly(events: seq<Js.Event>, endpoint: string)
    ensures NonEmptyTakes(Run(events, endpoint))
    ensures Run(events, endpoint).exporter.lost == [] <==> !FlushedWithoutSession(events, endpoint)
  {
    hide Step, FlushedWithoutSession, NonEmptyTakes, Strands;
    if events == [] {
      NothingLost(endpoint);
    } else {
      var front, last := events[..|events| - 1], events[|events| - 1];
      LostExactly(front, endpoint);
      StrandedFront(events, endpoint);
      var s := Run(front, endpoint);
      TakesStayNonEmpty(s, last);
      StepLoses(s, last);
    }
  }

  lemma NothingLost(endpoint: string)
    ensures NonEmptyTakes(Run([], endpoint)) && !FlushedWithoutSession([], endpoint) && Run([], endpoint).exporter.lost == []
  {}

  lemma TakesStayNonEmpty(s: System, e: Js.Event)
    requires NonEmptyTakes(s)
    ensures NonEmptyTakes(Step(s, e))
  {}

  lemma StepLoses(s: System, e: Js.Event)
    requires NonEmptyTakes(s)
    ensures Step(s, e).exporter.lost == [] <==> s.exporter.lost == [] && !Strands(s, e)
  {
    ContinueLosesNothing(s, e);
  }

  lemma StrandedFront(events: seq<Js.Event>, endpoint: string)
    requires events != []
    ensures var n := |events| - 1;
      FlushedWithoutSession(events, endpoint) <==>
        FlushedWithoutSession(events[..n], endpoint) || Strands(Run(events[..n], endpoint), events[n])
  {
    hide Run, Strands;
    var n := |events| - 1;
    var front := events[..n];
    forall i | 0 <= i < n ensures front[..i] == events[..i] && front[i] == events[i] {}
    if FlushedWithoutSession(front, endpoint) {
      var i :| 0 <= i < |front| && Strands(Run(front[..i], endpoint), front[i]);
      assert Strands(Run(events[..i], endpoint), events[i]);
    }
    if FlushedWithoutSession(events, endpoint) && !Strands(Run(events[..n], endpoint), events[n]) {
      var i :| 0 <= i < |events| && Strands(Run(events[..i], endpoint), events[i]);
      assert Strands(Run(front[..i], endpoint), front[i]);
    }
  }

  lemma ContinueLosesNothing(s: System, e: Js.Event)
    ensures e.Resume? ==> Step(s, e).exporter.lost == s.exporter.lost
  {}

  /** Every submitted span is waiting for its session, in a flush's hands, posted, pending or counted as
      dropped - if and only if no flush that had taken spans found no session. */
  lemma {:induction false} NothingUnaccountedExactly(events: seq<Js.Event>, endpoint: string)
    ensures var s := Run(events, endpoint); var x := s.exporter;
      (multiset(Js.Submitted(events))
         == multiset(Flat(s.inFlight)) + multiset(Flat(s.taken)) + multiset(Handed(x.handed))
            + multiset(x.pending) + multiset(x.dropped))
      <==> !FlushedWithoutSession(events, endpoint)
  {
    hide Run, Flat, Handed;
    RunCounts(events, endpoint);
    LostExactly(events, endpoint);
    var s := Run(events, endpoint); var x := s.exporter;
    var kept := multiset(Flat(s.inFlight)) + multiset(Flat(s.taken)) + multiset(Handed(x.handed))
                + multiset(x.pending) + multiset(x.dropped);
    NothingAdded(kept, x.lost);
  }

  lemma NothingAdded(kept: multiset<Span>, lost: seq<Span>)
    ensures kept + multiset(lost) == kept <==> lost == []
  {
    assert |kept + multiset(lost)| == |kept| + |lost|;
  }

  // ------------------------------------------------ agreement with TypeScript

  /** Calls when nothing else runs during a flush. */
  datatype Call = Submit(spans: seq<Span>) | Resume(which: nat, session: Option<string>) | Flush(session: Option<string>)

  function Events(call: Call): seq<Js.Event> {
    match call
    case Submit(spans) => [Js.Submit(spans)]
    case Resume(k, session) => [Js.Resume(k, session)]
    case Flush(session) => [Js.FlushBegin, Js.FlushResume(0, session)]
  }

  function Expand(calls: seq<Call>): seq<Js.Event> {
    if calls == [] then [] else Expand(calls[..|calls| - 1]) + Events(calls[|calls| - 1])
  }

  function Called(s: System, call: Call): System {
    match call
    case Submit(spans) => Step(s, Js.Submit(spans))
    case Resume(k, session) => Step(s, Js.Resume(k, session))
    case Flush(session) => Step(Step(s, Js.FlushBegin), Js.FlushResume(0, session))
  }

  function JsCalled(s: Js.System, call: Call, path: string): Js.System {
    match call
    case Submit(spans) => Js.Step(s, Js.Submit(spans), path)
    case Resume(k, session) => Js.Step(s, Js.Resume(k, session), path)
    case Flush(session) => Js.Step(Js.Step(s, Js.FlushBegin, path), Js.FlushResume(0, session), path)
  }

  lemma RunsOn(events: seq<Js.Event>, call: Call, endpoint: string, path: string)
    ensures Run(events + Events(call), endpoint) == Called(Run(events, endpoint), call)
    ensures Js.Run(events + Events(call), path) == JsCalled(Js.Run(events, path), call, path)
  {
    hide Step, Js.Step;
    var more := events + Events(call);
    if call.Flush? {
      assert more[..|more| - 1] == events + [Js.FlushBegin];
      assert (events + [Js.FlushBegin])[..|events|] == events;
    } else {
      assert more[..|more| - 1] == events;
    }
  }

  ghost predicate Alike(p: System, j: Js.System) {
    && Handed(p.exporter.handed) == Js.Handed(j.exporter.handed)
    && p.exporter.pending == j.exporter.pending && p.exporter.dropped == j.exporter.dropped
  }

  ghost predicate Idle(p: System, j: Js.System) {
    p.inFlight == j.inFlight && p.taken == [] && j.flushes == 0
  }

  lemma HoldsAlike(p: Exporter, j: Js.Exporter, spans: seq<Span>)
    requires p.pending == j.pending && p.dropped == j.dropped
    ensures AfterHold(p, spans).pending == Js.AfterHold(j, spans).pending
    ensures AfterHold(p, spans).dropped == Js.AfterHold(j, spans).dropped
    ensures AfterHold(p, spans).handed == p.handed && Js.AfterHold(j, spans).handed == j.handed
  {}

  lemma ResumeAlike(p: System, j: Js.System, k: nat, session: Option<string>, path: string)
    requires Idle(p, j)
    ensures Idle(Step(p, Js.Resume(k, session)), Js.Step(j, Js.Resume(k, session), path))
    ensures Alike(p, j) ==> Alike(Step(p, Js.Resume(k, session)), Js.Step(j, Js.Resume(k, session), path))
  {
    hide Handed, Js.Handed, AfterHold, Js.AfterHold, EndpointOf, Js.Url, Without;
    if Alike(p, j) && k < |p.inFlight| {
      if session.None? {
        HoldsAlike(p.exporter, j.exporter, p.inFlight[k]);
      } else {
        var y, z := Continue(p.exporter, p.inFlight[k], session), Js.Continue(j.exporter, p.inFlight[k], session, path);
        HandedAppend(p.exporter.handed, y.handed[|p.exporter.handed|]);
        Js.HandedAppend(j.exporter.handed, z.handed[|j.exporter.handed|]);
      }
    }
  }

  lemma FlushAlike(p: System, j: Js.System, session: Option<string>, path: string)
    requires Idle(p, j)
    ensures var p1, j1 := Step(p, Js.FlushBegin), Js.Step(j, Js.FlushBegin, path);
      var p2, j2 := Step(p1, Js.FlushResume(0, session)), Js.Step(j1, Js.FlushResume(0, session), path);
      && Idle(p2, j2) && (Alike(p, j) && (session.Some? || p.exporter.pending == []) ==> Alike(p2, j2))
      && (p2.exporter.lost == [] <==> p.exporter.lost == [] && (session.Some? || p.exporter.pending == []))
  {
    hide Handed, Js.Handed, EndpointOf, Js.Url;
    var held := p.exporter.pending;
    assert [] + [held] == [held];
    if held != [] {
      assert Without([held], 0) == [];
      if session.Some? && j.exporter.pending == held {
        var z := Js.Send(j.exporter, [], session.value, path);
        HandedAppend(p.exporter.handed, Post(p.exporter.endpoint, held));
        Js.HandedAppend(j.exporter.handed, z.handed[|j.exporter.handed|]);
        assert held + [] == held;
      }
    }
  }

  /** Some flush found spans buffered and no session. */
  ghost predicate FlushedTooEarly(calls: seq<Call>, endpoint: string) {
    exists i :: 0 <= i < |calls| && TooEarly(Run(Expand(calls[..i]), endpoint), calls[i])
  }

  predicate TooEarly(s: System, call: Call) {
    call.Flush? && call.session.None? && s.exporter.pending != []
  }

  lemma {:induction false} TooEarlyFront(calls: seq<Call>, endpoint: string)
    requires calls != []
    ensures var n := |calls| - 1;
      FlushedTooEarly(calls, endpoint) <==>
        FlushedTooEarly(calls[..n], endpoint) || TooEarly(Run(Expand(calls[..n]), endpoint), calls[n])
  {
    hide Run, Expand, TooEarly;
    var n := |calls| - 1;
    var front := calls[..n];
    forall i | 0 <= i < n ensures front[..i] == calls[..i] && front[i] == calls[i] {}
    if FlushedTooEarly(front, endpoint) {
      var i :| 0 <= i < |front| && TooEarly(Run(Expand(front[..i]), endpoint), front[i]);
      assert TooEarly(Run(Expand(calls[..i]), endpoint), calls[i]);
    }
    if FlushedTooEarly(calls, endpoint) && !TooEarly(Run(Expand(calls[..n]), endpoint), calls[n]) {
      var i :| 0 <= i < |calls| && TooEarly(Run(Expand(calls[..i]), endpoint), calls[i]);
      assert TooEarly(Run(Expand(front[..i]), endpoint), front[i]);
    }
  }

  lemma {:induction false} StepByStep(calls: seq<Call>, endpoint: string, path: string)
    ensures var p, j := Run(Expand(calls), endpoint), Js.Run(Expand(calls), path);
      && Idle(p, j) && (p.exporter.lost == [] <==> !FlushedTooEarly(calls, endpoint))
      && (!FlushedTooEarly(calls, endpoint) ==> Alike(p, j))
  {
    hide Step, Js.Step, Alike, Run, Js.Run, FlushedTooEarly;
    if calls == [] {
      StartAlike(endpoint, path);
    } else {
      var front, last := calls[..|calls| - 1], calls[|calls| - 1];
      StepByStep(front, endpoint, path);
      TooEarlyFront(calls, endpoint);
      var p, j := Run(Expand(front), endpoint), Js.Run(Expand(front), path);
      RunsOn(Expand(front), last, endpoint, path);
      match last
      case Submit(spans) => SubmitAlike(p, j, spans, path);
      case Resume(k, session) =>
        ResumeAlike(p, j, k, session, path);
        ContinueLosesNothing(p, Js.Resume(k, session));
      case Flush(session) => FlushAlike(p, j, session, path);
    }
  }

  lemma SubmitAlike(p: System, j: Js.System, spans: seq<Span>, path: string)
    requires Idle(p, j)
    ensures var p1, j1 := Step(p, Js.Submit(spans)), Js.Step(j, Js.Submit(spans), path);
      Idle(p1, j1) && (Alike(p, j) ==> Alike(p1, j1)) && p1.exporter.lost == p.exporter.lost
  {}

  lemma StartAlike(endpoint: string, path: string)
    ensures var p, j := Run(Expand([]), endpoint), Js.Run(Expand([]), path);
      Idle(p, j) && Alike(p, j) && p.exporter.lost == [] && !FlushedTooEarly([], endpoint)
  {}

  /** When nothing else runs during a flush, the Python exporter has handed over, holds and has dropped
      exactly what the TypeScript one has, if and only if no flush found spans buffered and no session. */
  lemma MatchesTypeScriptExactly(calls: seq<Call>, endpoint: string, path: string)
    ensures Alike(Run(Expand(calls), endpoint), Js.Run(Expand(calls), path)) <==> !FlushedTooEarly(calls, endpoint)
  {
    hide Run, Js.Run, Flat, Handed, Js.Handed, FlushedTooEarly, Expand;
    StepByStep(calls, endpoint, path);
    var p, j := Run(Expand(calls), endpoint), Js.Run(Expand(calls), path);
    if Alike(p, j) {
      RunCounts(Expand(calls), endpoint);
      Js.NothingUnaccounted(Expand(calls), path);
      var f, h, q, d := multiset(Flat(p.inFlight)), Handed(p.exporter.handed), p.exporter.pending, multiset(p.exporter.dropped);
      assert Flat([]) == [] by { NoneFlat(); }
      assert multiset(h + q) == multiset(h) + multiset(q);
      assert f + multiset{} + multiset(h) + multiset(q) + d == f + (multiset(h + q) + d);
      NothingAdded(f + multiset{} + multiset(h) + multiset(q) + d, p.exporter.lost);
    }
  }

  lemma NoneFlat()
    ensures Flat([]) == []
  {}

  /** Spans that are flushed while another export continues reach the parent after newer ones, and at the
      endpoint in use before the session named another. */
  lemma FlushOvertakenExample()
    ensures var events := [Js.Submit([Span(0)]), Js.Resume(0, None), Js.Submit([Span(1)]), Js.FlushBegin,
                           Js.Resume(0, Some("")), Js.FlushResume(0, Some("http://eu/"))];
      Run(events, "http://us").exporter.handed == [Post("http://us", [Span(1)]), Post("http://us", [Span(0)])]
  {
    var e0 := [Js.Submit([Span(0)])];
    var e1 := e0 + [Js.Resume(0, None)];
    var e2 := e1 + [Js.Submit([Span(1)])];
    var e3 := e2 + [Js.FlushBegin];
    var e4 := e3 + [Js.Resume(0, Some(""))];
    var e5 := e4 + [Js.FlushResume(0, Some("http://eu/"))];
    assert e0[..0] == [] && e1[..1] == e0 && e2[..2] == e1 && e3[..3] == e2 && e4[..4] == e3 && e5[..5] == e4;
    var s0 := Run(e0, "http://us");
    assert s0.inFlight == [[Span(0)]];
    var s1 := Run(e1, "http://us");
    assert Without([[Span(0)]], 0) == [] && s1.inFlight == [] && s1.exporter.pending == [Span(0)];
    var s2 := Run(e2, "http://us");
    var s3 := Run(e3, "http://us");
    assert s3.inFlight == [[Span(1)]] && s3.taken == [[Span(0)]] && s3.exporter.handed == [];
    assert [] + [Span(1)] == [Span(1)] && s3.exporter.pending == [] && s3.exporter.endpoint == "http://us";
    var s4 := Run(e4, "http://us");
    assert s4.exporter.handed == [Post("http://us", [Span(1)])];
    assert e5 == [Js.Submit([Span(0)]), Js.Resume(0, None), Js.Submit([Span(1)]), Js.FlushBegin,
                  Js.Resume(0, Some("")), Js.FlushResume(0, Some("http://eu/"))];
  }

  /** The flush that loses spans: one held span is taken, no session comes, and it is neither waiting, posted,
      buffered nor counted as dropped. */
  lemma FlushedTooEarlyLoses(endpoint: string)
    ensures var events := [Js.Submit([Span(0)]), Js.Resume(0, None), Js.FlushBegin, Js.FlushResume(0, None)];
      var s := Run(events, endpoint); var x := s.exporter;
      && Js.Submitted(events) == [Span(0)] && s.inFlight == [] && s.taken == []
      && x.handed == [] && x.pending == [] && x.dropped == [] && x.droppedCount == 0
  {
    hide Run, Js.Submitted;
    var e0 := [Js.Submit([Span(0)])];
    var e1 := e0 + [Js.Resume(0, None)];
    var e2 := e1 + [Js.FlushBegin];
    var e3 := e2 + [Js.FlushResume(0, None)];
    StartsEmpty(endpoint);
    assert [] + e0 == e0;
    StepOn([], Js.Submit([Span(0)]), endpoint);
    StepOn(e0, Js.Resume(0, None), endpoint);
    StepOn(e1, Js.FlushBegin, endpoint);
    StepOn(e2, Js.FlushResume(0, None), endpoint);
    Js.SubmittedOn([], Js.Submit([Span(0)]));
    Js.SubmittedOn(e0, Js.Resume(0, None));
    Js.SubmittedOn(e1, Js.FlushBegin);
    Js.SubmittedOn(e2, Js.FlushResume(0, None));
    assert e3 == [Js.Submit([Span(0)]), Js.Resume(0, None), Js.FlushBegin, Js.FlushResume(0, None)];
    assert [] + [Span(0)] == [Span(0)] && Without([[Span(0)]], 0) == [] && [] + [[Span(0)]] == [[Span(0)]];
  }

  lemma StartsEmpty(endpoint: string)
    ensures Run([], endpoint) == System([], [], New(endpoint), []) && Js.Submitted([]) == []
  {}

  // ----------------------------------------------------------------- the object

  class SessionSpanExporter {
    var pending: seq<Span>
    var droppedCount: nat
    var endpoint: string
    ghost var handed: seq<Post>
    ghost var dropped: seq<Span>
    ghost var reported: nat
    ghost var lost: seq<Span>

    constructor (endpoint: string)
      ensures Abs() == New(endpoint)
    {
      pending, droppedCount, this.endpoint := [], 0, endpoint;
      handed, dropped, reported, lost := [], [], 0, [];
    }

    ghost function Abs(): Exporter
      reads this
    {
      Exporter(pending, droppedCount, endpoint, handed, dropped, reported, lost)
    }

    method Hold(spans: seq<Span>)
      modifies this`pending, this`droppedCount, this`dropped
      ensures Abs() == AfterHold(old(Abs()), spans)
    {
      pending := pending + spans;
      var overflow := |pending| - MAX_PENDING_SPANS;
      if overflow > 0 {
        dropped := dropped + pending[..overflow];
        pending := pending[overflow..];
        droppedCount := droppedCount + overflow;
      }
    }

    method Drain(spans: seq<Span>) returns (batch: seq<Span>)
      modifies this`pending, this`droppedCount, this`reported
      ensures Abs() == AfterDrain(old(Abs())) && batch == old(pending) + spans
    {
      if pending == [] {
        assert [] + spans == spans;
        return spans;
      }
      var held := pending;
      pending := [];
      reported, droppedCount := reported + droppedCount, 0;
      batch := held + spans;
    }

    /** `export`, once the provider has answered. */
    method Export(spans: seq<Span>, session: Option<string>)
      modifies this
      ensures Abs() == Continue(old(Abs()), spans, session)
    {
      if session.None? {
        Hold(spans);
        return;
      }
      endpoint := EndpointOf(session.value, endpoint);
      var batch := Drain(spans);
      handed := handed + [Post(endpoint, batch)];
    }

    /** The first half of `force_flush`, under the lock. */
    method TakePending() returns (held: seq<Span>)
      modifies this`pending
      ensures held == old(pending) && Abs() == old(Abs()).(pending := [])
    {
      held := pending;
      pending := [];
    }

    /** The second half, for a non-empty buffer. */
    method FlushTaken(held: seq<Span>, session: Option<string>)
      modifies this`handed, this`lost
      ensures Abs() == ContinueFlush(old(Abs()), held, session)
    {
      if session.Some? {
        handed := handed + [Post(endpoint, held)];
      } else {
        lost := lost + held;
      }
    }

    /** `force_flush` when nothing else runs meanwhile; its session is asked for in between. */
    method ForceFlush(session: Option<string>)
      modifies this
      ensures Abs() ==
        if old(pending) == [] then old(Abs()) else ContinueFlush(old(Abs()).(pending := []), old(pending), session)
    {
      var held := TakePending();
      if held != [] {
        FlushTaken(held, session);
      }
    }
  }
}
