// In which order the Python exporter posts spans, over every interleaving, and to which endpoint.
module PyOrder {
  import opened Text
  import opened HeldBuffer
  import opened PyExporter
  import Js = JsExporter

  // ------------------------------------------------------------- places in the arrivals

  /** Where a span first stands among the arrivals. */
  function Pos(arrived: seq<Span>, x: Span): (i: nat)
    ensures if x in arrived then i < |arrived| && arrived[i] == x else i == |arrived|
  {
    if arrived == [] || arrived[0] == x then 0
    else
      assert x in arrived <==> x in arrived[1..];
      1 + Pos(arrived[1..], x)
  }

  ghost predicate Distinct(spans: seq<Span>) {
    forall i, j :: 0 <= i < j < |spans| ==> spans[i] != spans[j]
  }

  /** The spans stand in arrival order. */
  ghost predicate InOrder(arrived: seq<Span>, spans: seq<Span>) {
    forall i, j :: 0 <= i < j < |spans| ==> Pos(arrived, spans[i]) < Pos(arrived, spans[j])
  }

  ghost predicate AllBefore(arrived: seq<Span>, a: seq<Span>, b: seq<Span>) {
    forall x, y :: x in a && y in b ==> Pos(arrived, x) < Pos(arrived, y)
  }

  ghost predicate Within(a: seq<Span>, b: seq<Span>) {
    forall x :: x in a ==> x in b
  }

  lemma {:induction false} PosAppend(a: seq<Span>, b: seq<Span>, x: Span)
    requires x in a
    ensures Pos(a + b, x) == Pos(a, x)
  {
    if a[0] != x {
      assert x in a[1..] && (a + b)[1..] == a[1..] + b;
      PosAppend(a[1..], b, x);
    }
  }

  lemma OrderGrows(a: seq<Span>, more: seq<Span>, s: seq<Span>, t: seq<Span>)
    requires Within(s, a) && Within(t, a)
    ensures InOrder(a + more, s) <==> InOrder(a, s)
    ensures AllBefore(a + more, s, t) <==> AllBefore(a, s, t)
  {
    hide Pos;
    forall x | x in a ensures Pos(a + more, x) == Pos(a, x) { PosAppend(a, more, x); }
    forall i | 0 <= i < |s| ensures s[i] in a { assert s[i] in s; }
  }

  lemma OrderOfConcat(a: seq<Span>, s: seq<Span>, t: seq<Span>)
    ensures InOrder(a, s + t) <==> InOrder(a, s) && InOrder(a, t) && AllBefore(a, s, t)
  {
    hide Pos;
    var st := s + t;
    forall i | 0 <= i < |s| ensures st[i] == s[i] {}
    forall j | 0 <= j < |t| ensures st[|s| + j] == t[j] {}
    if InOrder(a, st) {
      forall x, y | x in s && y in t ensures Pos(a, x) < Pos(a, y) {
        var i :| 0 <= i < |s| && s[i] == x;
        var j :| 0 <= j < |t| && t[j] == y;
        assert st[i] == x && st[|s| + j] == y;
      }
      forall i, j | 0 <= i < j < |t| ensures Pos(a, t[i]) < Pos(a, t[j]) {
        assert st[|s| + i] == t[i] && st[|s| + j] == t[j];
      }
    }
    if InOrder(a, s) && InOrder(a, t) && AllBefore(a, s, t) {
      forall i, j | 0 <= i < j < |st| ensures Pos(a, st[i]) < Pos(a, st[j]) {
        if i < |s| <= j { assert s[i] in s && t[j - |s|] in t; }
      }
    }
  }

  /** The tail of the arrivals is in order, and after whatever is in front of it. */
  lemma TailInOrder(a: seq<Span>, n: nat, s: seq<Span>)
    requires Distinct(a) && n <= |a| && Within(s, a[..n])
    ensures InOrder(a, a[n..]) && AllBefore(a, s, a[n..])
  {
    forall i | 0 <= i < |a| ensures Pos(a, a[i]) == i { assert a[i] in a; }
    forall x, y | x in s && y in a[n..] ensures Pos(a, x) < Pos(a, y) {
      var i :| 0 <= i < n && a[i] == x;
      var j :| n <= j < |a| && a[j] == y;
    }
  }

  // --------------------------------------------------------------- who overtakes whom

  /** What a step posts. */
  function PostedBy(s: System, e: Js.Event): seq<Span> {
    match e
    case Resume(k, session) => if k < |s.inFlight| && session.Some? then s.exporter.pending + s.inFlight[k] else []
    case FlushResume(k, session) => if k < |s.taken| && session.Some? then s.taken[k] else []
    case _ => []
  }

  function NextTimes(s: System, times: seq<nat>, now: nat, e: Js.Event): (next: seq<nat>)
    requires |times| == |s.taken|
    ensures |next| == |Step(s, e).taken|
  {
    match e
    case FlushBegin => if s.exporter.pending == [] then times else times + [now]
    case FlushResume(k, _) => if k < |times| then Without(times, k) else times
    case _ => times
  }

  /** For each batch in a flush's hands, the step at which it was taken from the buffer. */
  function TakeTimes(events: seq<Js.Event>, endpoint: string): (times: seq<nat>)
    ensures |times| == |Run(events, endpoint).taken|
  {
    if events == [] then []
    else
      var front, last := events[..|events| - 1], events[|events| - 1];
      NextTimes(Run(front, endpoint), TakeTimes(front, endpoint), |front|, last)
  }

  /** Step `b` posts a non-empty batch that is newer than one taken at step `t`: an export's, or that of a
      flush that took its batch later. */
  predicate PostsNewer(events: seq<Js.Event>, endpoint: string, b: nat, t: nat)
    requires b < |events|
  {
    && PostedBy(Run(events[..b], endpoint), events[b]) != []
    && (events[b].FlushResume? && events[b].which < |TakeTimes(events[..b], endpoint)| ==>
          TakeTimes(events[..b], endpoint)[events[b].which] > t)
  }

  /** Since step `t`, something newer has been posted. */
  ghost predicate Passed(events: seq<Js.Event>, endpoint: string, t: nat) {
    exists b :: t < b < |events| && PostsNewer(events, endpoint, b, t)
  }

  /** Step `c` posts what a flush took, and between that take and this post something newer was posted. */
  ghost predicate OvertakenAt(events: seq<Js.Event>, endpoint: string, c: nat)
    requires c < |events|
  {
    && events[c].FlushResume? && events[c].session.Some? && events[c].which < |TakeTimes(events[..c], endpoint)|
    && Passed(events[..c], endpoint, TakeTimes(events[..c], endpoint)[events[c].which])
  }

  ghost predicate SomeFlushOvertaken(events: seq<Js.Event>, endpoint: string) {
    exists c :: 0 <= c < |events| && OvertakenAt(events, endpoint, c)
  }

  lemma PostsNewerStays(events: seq<Js.Event>, e: Js.Event, endpoint: string, b: nat, t: nat)
    requires b < |events|
    ensures PostsNewer(events + [e], endpoint, b, t) <==> PostsNewer(events, endpoint, b, t)
  {
    assert (events + [e])[..b] == events[..b];
  }

  lemma PassedNext(events: seq<Js.Event>, e: Js.Event, endpoint: string, t: nat)
    requires t < |events|
    ensures Passed(events + [e], endpoint, t) <==>
      Passed(events, endpoint, t) || PostsNewer(events + [e], endpoint, |events|, t)
  {
    hide PostsNewer;
    forall b | 0 <= b < |events| ensures PostsNewer(events + [e], endpoint, b, t) <==> PostsNewer(events, endpoint, b, t) {
      PostsNewerStays(events, e, endpoint, b, t);
    }
    if Passed(events, endpoint, t) {
      var b :| t < b < |events| && PostsNewer(events, endpoint, b, t);
      assert PostsNewer(events + [e], endpoint, b, t);
    }
  }

  lemma OvertakenNext(events: seq<Js.Event>, e: Js.Event, endpoint: string)
    ensures SomeFlushOvertaken(events + [e], endpoint) <==>
      SomeFlushOvertaken(events, endpoint) || OvertakenAt(events + [e], endpoint, |events|)
  {
    var more := events + [e];
    forall c | 0 <= c < |events| ensures OvertakenAt(more, endpoint, c) <==> OvertakenAt(events, endpoint, c) {
      assert more[..c] == events[..c];
    }
    hide OvertakenAt;
    if SomeFlushOvertaken(events, endpoint) {
      var c :| 0 <= c < |events| && OvertakenAt(events, endpoint, c);
      assert OvertakenAt(more, endpoint, c);
    }
  }

  // --------------------------------------------------------------------- invariant

  ghost predicate Increasing(times: seq<nat>) {
    forall i, j :: 0 <= i < j < |times| ==> times[i] < times[j]
  }

  /** Handed and taken spans arrived before the buffer was last emptied; taken batches are non-empty and
      stand in arrival order, one after the other. */
  ghost predicate Arranged(a: seq<Span>, before: seq<Span>, handed: seq<Span>, taken: seq<seq<Span>>) {
    && before <= a && Within(handed, before)
    && (forall b :: 0 <= b < |taken| ==> taken[b] != [] && Within(taken[b], before) && InOrder(a, taken[b]))
    && (forall b, c :: 0 <= b < c < |taken| ==> AllBefore(a, taken[b], taken[c]))
  }

  ghost predicate Kept(events: seq<Js.Event>, endpoint: string) {
    var s := Run(events, endpoint);
    var a, handed, times := Arrived(s.past), Handed(s.exporter.handed), TakeTimes(events, endpoint);
    && Arranged(a, ArrivedBefore(s.past), handed, s.taken)
    && Increasing(times) && (forall b :: 0 <= b < |times| ==> times[b] < |events|)
    && (forall b :: 0 <= b < |times| ==> (AllBefore(a, handed, s.taken[b]) <==> !Passed(events, endpoint, times[b])))
    && (InOrder(a, handed) <==> !SomeFlushOvertaken(events, endpoint))
  }

  lemma {:induction false} ArrivedOrWaiting(events: seq<Js.Event>, endpoint: string)
    ensures multiset(Js.Submitted(events)) ==
      multiset(Flat(Run(events, endpoint).inFlight)) + multiset(Arrived(Run(events, endpoint).past))
  {
    hide Arrived, Flat, Without, Continue, ContinueFlush;
    if events == [] {
      Js.NothingArrived();
    } else {
      var front, last := events[..|events| - 1], events[|events| - 1];
      ArrivedOrWaiting(front, endpoint);
      var s := Run(front, endpoint);
      match last
      case Submit(spans) =>
        FlatAppend(s.inFlight, spans);
        Js.Moved(multiset(Flat(s.inFlight)), multiset(Arrived(s.past)), multiset(spans));
      case Resume(k, session) =>
        assert Js.Submitted(events) == Js.Submitted(front) + [];
        if k < |s.inFlight| {
          FlatWithout(s.inFlight, k);
          Js.ArrivedAppend(s.past, Continuation(s.inFlight[k], session.Some?));
          Js.Moved(multiset(Flat(Without(s.inFlight, k))), multiset(Arrived(s.past)), multiset(s.inFlight[k]));
        }
      case FlushBegin =>
        assert Js.Submitted(events) == Js.Submitted(front) + [];
        Js.ArrivedAppend(s.past, Continuation([], true));
      case _ => assert Js.Submitted(events) == Js.Submitted(front) + [];
    }
  }

  lemma {:induction false} DistinctCounts(s: seq<Span>, x: Span)
    ensures Distinct(s) ==> multiset(s)[x] <= 1
  {
    if s != [] {
      SnocCounts(s);
      DistinctCounts(s[..|s| - 1], x);
      if Distinct(s) && s[|s| - 1] == x {
        assert x !in s[..|s| - 1];
      }
    }
  }

  lemma TwiceCounts(s: seq<Span>, i: nat, j: nat)
    requires i < j < |s| && s[i] == s[j]
    ensures multiset(s)[s[i]] >= 2
  {
    assert s == s[..j] + [s[j]] + s[j + 1..];
    assert s[i] in s[..j] && multiset(s[..j])[s[i]] >= 1;
  }

  /** Spans submitted once arrive once. */
  lemma ArrivalsDistinct(events: seq<Js.Event>, endpoint: string)
    requires Distinct(Js.Submitted(events))
    ensures Distinct(Arrived(Run(events, endpoint).past))
  {
    hide Run, Arrived, Flat, Js.Submitted;
    ArrivedOrWaiting(events, endpoint);
    var a := Arrived(Run(events, endpoint).past);
    forall i, j | 0 <= i < j < |a| ensures a[i] != a[j] {
      if a[i] == a[j] {
        TwiceCounts(a, i, j);
        DistinctCounts(Js.Submitted(events), a[i]);
      }
    }
  }

  lemma SubmittedPrefix(events: seq<Js.Event>, e: Js.Event)
    requires Distinct(Js.Submitted(events + [e]))
    ensures Distinct(Js.Submitted(events))
  {
    assert (events + [e])[..|events|] == events;
    var s, more := Js.Submitted(events), Js.Submitted(events + [e]);
    forall i | 0 <= i < |s| ensures s[i] == more[i] {}
  }

  /** The buffer is the end of the arrivals. */
  lemma BufferIsTail(events: seq<Js.Event>, endpoint: string)
    ensures var s := Run(events, endpoint); var a, n := Arrived(s.past), |Arrived(s.past)| - |s.exporter.pending|;
      && 0 <= n && s.exporter.pending == a[n..] && ArrivedBefore(s.past) <= a[..n]
  {
    hide Run, Dropped;
    BufferIsNewestHeld(events, endpoint);
    var s := Run(events, endpoint);
    ArrivedSplit(s.past);
    NewestAndOldest(HeldSince(s.past));
    var before, held := ArrivedBefore(s.past), HeldSince(s.past);
    assert before + held == before + Oldest(held) + Newest(held);
  }

  // ----------------------------------------------------------------- single steps

  /** More arrivals change nothing about what is handed and taken. */
  lemma ArrangedGrows(a: seq<Span>, before: seq<Span>, handed: seq<Span>, taken: seq<seq<Span>>,
      more: seq<Span>, next: seq<Span>)
    requires Arranged(a, before, handed, taken) && before <= next <= a + more
    ensures Arranged(a + more, next, handed, taken)
    ensures forall b :: 0 <= b < |taken| ==> (AllBefore(a + more, handed, taken[b]) <==> AllBefore(a, handed, taken[b]))
    ensures InOrder(a + more, handed) <==> InOrder(a, handed)
  {
    hide InOrder, AllBefore;
    PrefixWithin(before, a);
    PrefixWithin(before, next);
    OrderGrows(a, more, handed, handed);
    forall b | 0 <= b < |taken|
      ensures Within(taken[b], next) && InOrder(a + more, taken[b])
      ensures AllBefore(a + more, handed, taken[b]) <==> AllBefore(a, handed, taken[b])
    {
      OrderGrows(a, more, taken[b], taken[b]);
      OrderGrows(a, more, handed, taken[b]);
    }
    forall b, c | 0 <= b < c < |taken| ensures AllBefore(a + more, taken[b], taken[c]) {
      OrderGrows(a, more, taken[b], taken[c]);
    }
  }

  lemma PrefixWithin(a: seq<Span>, b: seq<Span>)
    requires a <= b
    ensures Within(a, b)
  {}

  /** What a step leaves as it was keeps everything. */
  lemma KeptOn(events: seq<Js.Event>, e: Js.Event, endpoint: string)
    requires Kept(events, endpoint)
    requires var s, t := Run(events, endpoint), Run(events + [e], endpoint);
      && t.taken == s.taken && t.exporter.handed == s.exporter.handed && PostedBy(s, e) == []
      && TakeTimes(events + [e], endpoint) == TakeTimes(events, endpoint)
      && (e.FlushResume? && e.session.Some? ==> e.which >= |TakeTimes(events, endpoint)|)
    requires var s, t := Run(events, endpoint), Run(events + [e], endpoint);
      exists more :: Arrived(t.past) == Arrived(s.past) + more && ArrivedBefore(t.past) == ArrivedBefore(s.past)
    ensures Kept(events + [e], endpoint)
  {
    hide Arranged, AllBefore, InOrder, Arrived, ArrivedBefore, Handed, Passed, SomeFlushOvertaken, Run, PostedBy, TakeTimes;
    NothingPosted(events, e, endpoint);
    var s, t := Run(events, endpoint), Run(events + [e], endpoint);
    var more :| Arrived(t.past) == Arrived(s.past) + more && ArrivedBefore(t.past) == ArrivedBefore(s.past);
    StillBefore(s.past, more);
    ArrangedGrows(Arrived(s.past), ArrivedBefore(s.past), Handed(s.exporter.handed), s.taken, more, ArrivedBefore(s.past));
  }

  lemma StillBefore(past: seq<Continuation>, more: seq<Span>)
    ensures ArrivedBefore(past) <= Arrived(past) <= Arrived(past) + more
  {
    hide Arrived, ArrivedBefore;
    ArrivedSplit(past);
  }

  /** A step that posts nothing and takes nothing. */
  predicate Quiet(s: System, e: Js.Event) {
    match e
    case Submit(_) => true
    case Resume(k, session) => k >= |s.inFlight| || session.None?
    case FlushBegin => s.exporter.pending == []
    case FlushResume(k, _) => k >= |s.taken|
    case Stop => true
  }

  lemma QuietStep(events: seq<Js.Event>, e: Js.Event, endpoint: string)
    requires Kept(events, endpoint) && Quiet(Run(events, endpoint), e)
    ensures Kept(events + [e], endpoint)
  {
    hide Kept, Arrived, ArrivedBefore, Run;
    StepOn(events, e, endpoint);
    TimesOn(events, e, endpoint);
    var s, t := Run(events, endpoint), Run(events + [e], endpoint);
    if e.Resume? && e.which < |s.inFlight| {
      Arrives(s.past, Continuation(s.inFlight[e.which], false));
    } else {
      assert Arrived(t.past) == Arrived(s.past) + [];
    }
    KeptOn(events, e, endpoint);
  }

  lemma TimesOn(events: seq<Js.Event>, e: Js.Event, endpoint: string)
    ensures TakeTimes(events + [e], endpoint) ==
      NextTimes(Run(events, endpoint), TakeTimes(events, endpoint), |events|, e)
  {
    assert (events + [e])[..|events|] == events;
  }

  /** A continuation's effect on the arrivals. */
  lemma Arrives(past: seq<Continuation>, c: Continuation)
    ensures Arrived(past + [c]) == Arrived(past) + c.spans
    ensures ArrivedBefore(past + [c]) == if c.live then Arrived(past) + c.spans else ArrivedBefore(past)
    ensures ArrivedBefore(past) <= Arrived(past)
  {
    assert (past + [c])[..|past|] == past;
    ArrivedSplit(past);
  }

  lemma NothingPosted(events: seq<Js.Event>, e: Js.Event, endpoint: string)
    requires PostedBy(Run(events, endpoint), e) == []
    ensures forall t :: 0 <= t < |events| ==> (Passed(events + [e], endpoint, t) <==> Passed(events, endpoint, t))
    ensures (e.FlushResume? && e.session.Some? ==> e.which >= |TakeTimes(events, endpoint)|) ==>
      (SomeFlushOvertaken(events + [e], endpoint) <==> SomeFlushOvertaken(events, endpoint))
  {
    hide Passed, SomeFlushOvertaken, Run, PostedBy;
    assert (events + [e])[..|events|] == events;
    forall t | 0 <= t < |events| ensures Passed(events + [e], endpoint, t) <==> Passed(events, endpoint, t) {
      PassedNext(events, e, endpoint, t);
    }
    OvertakenNext(events, e, endpoint);
  }

  lemma WithoutAt<T>(s: seq<T>, k: nat, i: nat)
    requires k < |s| && i < |s| - 1
    ensures |Without(s, k)| == |s| - 1 && Without(s, k)[i] == s[if i < k then i else i + 1]
  {}

  lemma Removed(a: seq<Span>, before: seq<Span>, handed: seq<Span>, taken: seq<seq<Span>>, times: seq<nat>, k: nat)
    requires Arranged(a, before, handed, taken) && Increasing(times) && |times| == |taken| && k < |taken|
    ensures Arranged(a, before, handed, Without(taken, k)) && Increasing(Without(times, k))
  {
    hide InOrder, AllBefore;
    forall i | 0 <= i < |taken| - 1
      ensures Without(taken, k)[i] == taken[if i < k then i else i + 1] && Without(times, k)[i] == times[if i < k then i else i + 1]
    {
      WithoutAt(taken, k, i);
      WithoutAt(times, k, i);
    }
  }

  lemma MemberOf(s: seq<Span>)
    requires s != []
    ensures s[0] in s
  {}

  /** Posting `batch` matters to a batch in hand exactly when it does not come before it. */
  lemma PostingPasses(a: seq<Span>, handed: seq<Span>, batch: seq<Span>, held: seq<Span>)
    requires held != []
    ensures AllBefore(a, batch, held) ==> (AllBefore(a, handed + batch, held) <==> AllBefore(a, handed, held))
    ensures batch != [] && AllBefore(a, held, batch) ==> !AllBefore(a, handed + batch, held)
  {
    hide Pos;
    forall x | x in handed ensures x in handed + batch {}
    if batch != [] && AllBefore(a, held, batch) {
      MemberOf(batch);
      MemberOf(held);
      assert batch[0] in handed + batch && Pos(a, held[0]) < Pos(a, batch[0]);
    }
  }

  /** A flush takes the buffer. */
  lemma TakeStep(events: seq<Js.Event>, endpoint: string)
    requires Kept(events, endpoint) && Distinct(Arrived(Run(events, endpoint).past))
    requires Run(events, endpoint).exporter.pending != []
    ensures Kept(events + [Js.FlushBegin], endpoint)
  {
    hide InOrder, AllBefore, Arrived, ArrivedBefore, Handed, Passed, SomeFlushOvertaken, Run, TakeTimes, Distinct;
    var e := Js.FlushBegin;
    StepOn(events, e, endpoint);
    TimesOn(events, e, endpoint);
    NothingPosted(events, e, endpoint);
    var s, t, times := Run(events, endpoint), Run(events + [e], endpoint), TakeTimes(events, endpoint);
    var a, handed, pending := Arrived(s.past), Handed(s.exporter.handed), s.exporter.pending;
    Arrives(s.past, Continuation([], true));
    BufferIsTail(events, endpoint);
    var n := |a| - |pending|;
    var before := ArrivedBefore(s.past);
    assert a + [] == a;
    ArrangedGrows(a, before, handed, s.taken, [], a);
    PrefixWithin(before, a[..n]);
    TailInOrder(a, n, handed);
    forall b | 0 <= b < |s.taken| ensures AllBefore(a, s.taken[b], pending) { TailInOrder(a, n, s.taken[b]); }
    TailWithin(a, n);
    NotYetPassed(events + [e], endpoint);
  }

  lemma TailWithin(a: seq<Span>, n: nat)
    requires n <= |a|
    ensures Within(a[n..], a)
  {}

  lemma NotYetPassed(events: seq<Js.Event>, endpoint: string)
    requires events != []
    ensures !Passed(events, endpoint, |events| - 1)
  {}

  /** A flush that finds no session drops its batch. */
  lemma LoseStep(events: seq<Js.Event>, k: nat, endpoint: string)
    requires Kept(events, endpoint) && k < |Run(events, endpoint).taken|
    ensures Kept(events + [Js.FlushResume(k, None)], endpoint)
  {
    hide InOrder, AllBefore, Arrived, ArrivedBefore, Handed, Passed, SomeFlushOvertaken, Run, TakeTimes, Arranged, Increasing;
    var e := Js.FlushResume(k, None);
    StepOn(events, e, endpoint);
    TimesOn(events, e, endpoint);
    NothingPosted(events, e, endpoint);
    var s, times := Run(events, endpoint), TakeTimes(events, endpoint);
    Removed(Arrived(s.past), ArrivedBefore(s.past), Handed(s.exporter.handed), s.taken, times, k);
    forall i | 0 <= i < |s.taken| - 1
      ensures Without(s.taken, k)[i] == s.taken[if i < k then i else i + 1] && Without(times, k)[i] == times[if i < k then i else i + 1]
    {
      WithoutAt(s.taken, k, i);
      WithoutAt(times, k, i);
    }
  }

  /** What the last step of a run did to a batch that stays in hand. */
  lemma PassedByPost(events: seq<Js.Event>, e: Js.Event, endpoint: string, t: nat)
    requires t < |events| && PostedBy(Run(events, endpoint), e) != []
    ensures (e.FlushResume? && e.which < |TakeTimes(events, endpoint)| ==> TakeTimes(events, endpoint)[e.which] > t) ==>
      Passed(events + [e], endpoint, t)
    ensures e.FlushResume? && e.which < |TakeTimes(events, endpoint)| && TakeTimes(events, endpoint)[e.which] <= t ==>
      (Passed(events + [e], endpoint, t) <==> Passed(events, endpoint, t))
  {
    hide Passed, Run, PostedBy, TakeTimes;
    assert (events + [e])[..|events|] == events;
    PassedNext(events, e, endpoint, t);
  }

  lemma OvertakenByPost(events: seq<Js.Event>, e: Js.Event, endpoint: string)
    ensures SomeFlushOvertaken(events + [e], endpoint) <==>
      SomeFlushOvertaken(events, endpoint)
      || (e.FlushResume? && e.session.Some? && e.which < |TakeTimes(events, endpoint)|
          && Passed(events, endpoint, TakeTimes(events, endpoint)[e.which]))
  {
    hide Passed, Run, TakeTimes, SomeFlushOvertaken;
    assert (events + [e])[..|events|] == events;
    OvertakenNext(events, e, endpoint);
  }

  /** A flush posts its batch. */
  lemma FlushPostStep(events: seq<Js.Event>, k: nat, session: string, endpoint: string)
    requires Kept(events, endpoint) && k < |Run(events, endpoint).taken|
    ensures Kept(events + [Js.FlushResume(k, Some(session))], endpoint)
  {
    hide InOrder, AllBefore, Arrived, ArrivedBefore, Handed, Passed, SomeFlushOvertaken, Run, TakeTimes;
    var e := Js.FlushResume(k, Some(session));
    StepOn(events, e, endpoint);
    TimesOn(events, e, endpoint);
    var s, t, times := Run(events, endpoint), Run(events + [e], endpoint), TakeTimes(events, endpoint);
    var a, handed, batch := Arrived(s.past), Handed(s.exporter.handed), s.taken[k];
    HandedAppend(s.exporter.handed, Post(s.exporter.endpoint, batch));
    Removed(a, ArrivedBefore(s.past), handed, s.taken, times, k);
    OrderOfConcat(a, handed, batch);
    OvertakenByPost(events, e, endpoint);
    assert PostedBy(s, e) == batch;
    forall i | 0 <= i < |s.taken| - 1
      ensures Without(times, k)[i] < |events| + 1
      ensures AllBefore(a, handed + batch, Without(s.taken, k)[i]) <==> !Passed(events + [e], endpoint, Without(times, k)[i])
    {
      WithoutAt(s.taken, k, i);
      WithoutAt(times, k, i);
      var b := if i < k then i else i + 1;
      PostingPasses(a, handed, batch, s.taken[b]);
      PassedByPost(events, e, endpoint, times[b]);
    }
  }

  /** An export posts what was held and its own spans. */
  lemma ExportStep(events: seq<Js.Event>, k: nat, session: string, endpoint: string)
    requires Kept(events, endpoint) && k < |Run(events, endpoint).inFlight|
    requires Distinct(Arrived(Run(events + [Js.Resume(k, Some(session))], endpoint).past))
    ensures Kept(events + [Js.Resume(k, Some(session))], endpoint)
  {
    hide InOrder, AllBefore, Arrived, ArrivedBefore, Handed, Passed, SomeFlushOvertaken, Run, TakeTimes, Distinct, EndpointOf, Arranged;
    var e := Js.Resume(k, Some(session));
    StepOn(events, e, endpoint);
    TimesOn(events, e, endpoint);
    var s, t, times := Run(events, endpoint), Run(events + [e], endpoint), TakeTimes(events, endpoint);
    var a, handed, spans := Arrived(s.past), Handed(s.exporter.handed), s.inFlight[k];
    var batch, all := s.exporter.pending + spans, a + spans;
    HandedAppend(s.exporter.handed, t.exporter.handed[|s.exporter.handed|]);
    Arrives(s.past, Continuation(spans, true));
    BufferIsTail(events, endpoint);
    var n, before := |a| - |s.exporter.pending|, ArrivedBefore(s.past);
    assert batch == all[n..] && before <= a[..n] == all[..n];
    ArrangedGrows(a, before, handed, s.taken, spans, all);
    OrderOfConcat(all, handed, batch);
    OvertakenByPost(events, e, endpoint);
    TailWithin(all, n);
    Batches(a, before, handed, s.taken);
    PrefixWithin(before, all[..n]);
    TailInOrder(all, n, handed);
    ArrangedMore(all, handed, batch, s.taken);
    assert PostedBy(s, e) == batch;
    if batch == [] { NothingPosted(events, e, endpoint); assert handed + batch == handed; }
    forall b | 0 <= b < |s.taken| ensures AllBefore(all, handed + batch, s.taken[b]) <==> !Passed(events + [e], endpoint, times[b]) {
      TailInOrder(all, n, s.taken[b]);
      PostingPasses(all, handed, batch, s.taken[b]);
      if batch != [] { PassedByPost(events, e, endpoint, times[b]); }
    }
  }

  lemma Batches(a: seq<Span>, before: seq<Span>, handed: seq<Span>, taken: seq<seq<Span>>)
    requires Arranged(a, before, handed, taken)
    ensures Within(handed, before) && forall b :: 0 <= b < |taken| ==> taken[b] != [] && Within(taken[b], before)
  {}

  lemma ArrangedMore(a: seq<Span>, handed: seq<Span>, more: seq<Span>, taken: seq<seq<Span>>)
    requires Arranged(a, a, handed, taken) && Within(more, a)
    ensures Arranged(a, a, handed + more, taken)
  {
    hide InOrder, AllBefore;
  }

  // ------------------------------------------------------------------------ theorems

  lemma {:induction false} RunKept(events: seq<Js.Event>, endpoint: string)
    requires Distinct(Js.Submitted(events))
    ensures Kept(events, endpoint)
  {
    hide Kept, Run, Arrived, Js.Submitted, Distinct;
    if events == [] {
      StartsKept(endpoint);
    } else {
      var front, e := events[..|events| - 1], events[|events| - 1];
      assert events == front + [e];
      SubmittedPrefix(front, e);
      RunKept(front, endpoint);
      ArrivalsDistinct(front, endpoint);
      ArrivalsDistinct(events, endpoint);
      var s := Run(front, endpoint);
      if Quiet(s, e) {
        QuietStep(front, e, endpoint);
      } else if e.Resume? {
        ExportStep(front, e.which, e.session.value, endpoint);
      } else if e.FlushBegin? {
        TakeStep(front, endpoint);
      } else if e.session.Some? {
        FlushPostStep(front, e.which, e.session.value, endpoint);
      } else {
        LoseStep(front, e.which, endpoint);
      }
    }
  }

  lemma StartsKept(endpoint: string)
    ensures Kept([], endpoint)
  {}

  /** Over every interleaving of exports and flushes, for spans submitted once: what is posted stands in
      arrival order if and only if no flush, between taking the buffer and posting what it took, is
      overtaken by an export's non-empty batch or by a batch taken later. */
  lemma PostedInOrderExactly(events: seq<Js.Event>, endpoint: string)
    requires Distinct(Js.Submitted(events))
    ensures var s := Run(events, endpoint);
      && Within(Handed(s.exporter.handed), Arrived(s.past))
      && (InOrder(Arrived(s.past), Handed(s.exporter.handed)) <==> !SomeFlushOvertaken(events, endpoint))
  {
    hide Run, Arrived, Handed, InOrder, SomeFlushOvertaken, AllBefore, ArrivedBefore;
    RunKept(events, endpoint);
    var s := Run(events, endpoint);
    PrefixWithin(ArrivedBefore(s.past), Arrived(s.past));
  }

  // ------------------------------------------------------------------------ endpoints

  /** Where the last export that found a session with an endpoint was told to go; before that, where the
      exporter was configured to. */
  function LastNamed(events: seq<Js.Event>, endpoint: string): string {
    if events == [] then endpoint
    else
      var front, e := events[..|events| - 1], events[|events| - 1];
      if e.Resume? && e.which < |Run(front, endpoint).inFlight| && e.session.Some? && e.session.value != ""
      then StripSlashes(e.session.value) + "/v1/traces" else LastNamed(front, endpoint)
  }

  lemma {:induction false} EndpointIsLastNamed(events: seq<Js.Event>, endpoint: string)
    ensures Run(events, endpoint).exporter.endpoint == LastNamed(events, endpoint)
  {
    hide StripSlashes, AfterHold, AfterDrain;
    if events != [] {
      var front, e := events[..|events| - 1], events[|events| - 1];
      EndpointIsLastNamed(front, endpoint);
      DrainKeepsEndpoint(Run(front, endpoint).exporter);
      if e.Resume? && e.which < |Run(front, endpoint).inFlight| {
        HoldKeepsEndpoint(Run(front, endpoint).exporter, Run(front, endpoint).inFlight[e.which]);
      }
    }
  }

  lemma DrainKeepsEndpoint(x: Exporter)
    ensures AfterDrain(x).endpoint == x.endpoint
  {}

  lemma HoldKeepsEndpoint(x: Exporter, spans: seq<Span>)
    ensures AfterHold(x, spans).endpoint == x.endpoint
  {}

  /** An export's batch always goes to its session's endpoint. */
  lemma ExportEndpoint(events: seq<Js.Event>, k: nat, session: string, endpoint: string)
    requires k < |Run(events, endpoint).inFlight|
    ensures var s, exported := Run(events, endpoint), Run(events + [Js.Resume(k, Some(session))], endpoint);
      exported.exporter.handed ==
        s.exporter.handed + [Post(EndpointOf(session, LastNamed(events, endpoint)), s.exporter.pending + s.inFlight[k])]
  {
    hide Run, LastNamed, StripSlashes;
    EndpointIsLastNamed(events, endpoint);
    StepOn(events, Js.Resume(k, Some(session)), endpoint);
  }

  /** A flush's batch goes where the last export's session pointed, so to its own session's endpoint if and
      only if that session names none or names the same one. */
  lemma FlushEndpointExactly(events: seq<Js.Event>, k: nat, session: string, endpoint: string)
    requires k < |Run(events, endpoint).taken|
    ensures var s, flushed := Run(events, endpoint), Run(events + [Js.FlushResume(k, Some(session))], endpoint);
      && |flushed.exporter.handed| == |s.exporter.handed| + 1
      && flushed.exporter.handed == s.exporter.handed + [Post(LastNamed(events, endpoint), s.taken[k])]
      && (flushed.exporter.handed[|s.exporter.handed|].endpoint == EndpointOf(session, LastNamed(events, endpoint)) <==>
            (session == "" || StripSlashes(session) + "/v1/traces" == LastNamed(events, endpoint)))
  {
    hide Run, LastNamed, StripSlashes, AfterDrain;
    EndpointIsLastNamed(events, endpoint);
    StepOn(events, Js.FlushResume(k, Some(session)), endpoint);
  }
}
