// Where every ended span goes, how much waits, and that traces stay whole.
module SamplingTheorems {
  import opened SamplingSpec

  ghost predicate Distinct(order: seq<int>) {
    forall i, j :: 0 <= i < j < |order| ==> order[i] != order[j]
  }

  /** The dict is a dict, and every buffer holds its own trace's non-root spans, at least one. */
  ghost predicate Buffers(s: State) {
    && Distinct(s.order) && (forall t :: t in s.order <==> t in s.at)
    && forall t :: t in s.at ==> s.at[t] != [] && forall x :: x in s.at[t] ==> x.trace == t && !x.isRoot
  }

  function Limit(maxTraces: int): nat {
    if maxTraces > 1 then maxTraces else 1
  }

  // ------------------------------------------------------------- dict operations

  lemma {:induction false} RemoveMembers(order: seq<int>, t: int)
    requires Distinct(order)
    ensures Distinct(Remove(order, t)) && (forall x :: x in Remove(order, t) <==> x in order && x != t)
    ensures |Remove(order, t)| == if t in order then |order| - 1 else |order|
  {
    if order != [] {
      RemoveMembers(order[1..], t);
      assert order == [order[0]] + order[1..];
      if order[0] != t {
        var r := Remove(order[1..], t);
        forall j | 0 <= j < |r| ensures r[j] != order[0] { assert r[j] in r; }
      }
    }
  }

  lemma {:induction false} WaitingUnchanged(order: seq<int>, a: map<int, seq<Span>>, b: map<int, seq<Span>>)
    requires forall t :: t in order ==> Held(a, t) == Held(b, t)
    ensures Waiting(order, a) == Waiting(order, b)
  {
    hide Held;
    if order != [] {
      assert order[0] in order;
      WaitingUnchanged(order[1..], a, b);
    }
  }

  lemma {:induction false} WaitingConcat(x: seq<int>, y: seq<int>, at: map<int, seq<Span>>)
    ensures Waiting(x + y, at) == Waiting(x, at) + Waiting(y, at)
  {
    hide Held;
    if x == [] {
      assert x + y == y;
    } else {
      WaitingConcat(x[1..], y, at);
      assert (x + y)[0] == x[0] && (x + y)[1..] == x[1..] + y;
      var first, rest, others := Held(at, x[0]), Waiting(x[1..], at), Waiting(y, at);
      assert first + (rest + others) == (first + rest) + others;
    }
  }

  lemma {:induction false} SplitAt(order: seq<int>, t: int) returns (x: seq<int>, y: seq<int>)
    requires t in order && Distinct(order)
    ensures order == x + [t] + y && t !in x && t !in y && Remove(order, t) == x + y
  {
    if order[0] == t {
      x, y := [], order[1..];
    } else {
      x, y := SplitAt(order[1..], t);
      x := [order[0]] + x;
      assert order == [order[0]] + order[1..];
    }
  }

  lemma MultisetMiddle(a: seq<Span>, b: seq<Span>, c: seq<Span>)
    ensures multiset(a + b + c) == multiset(a + c) + multiset(b)
  {}

  /** Taking a trace out takes exactly its spans out of what waits. */
  lemma WaitingWithout(order: seq<int>, at: map<int, seq<Span>>, t: int)
    requires t in order && t in at && Distinct(order)
    ensures multiset(Waiting(order, at)) == multiset(Waiting(Remove(order, t), at - {t})) + multiset(at[t])
  {
    var x, y := SplitAt(order, t);
    WaitingConcat(x + [t], y, at);
    WaitingConcat(x, [t], at);
    WaitingConcat(x, y, at - {t});
    WaitingUnchanged(x, at, at - {t});
    WaitingUnchanged(y, at, at - {t});
    assert [t][1..] == [] && Waiting([t], at) == at[t] + [];
    MultisetMiddle(Waiting(x, at), at[t], Waiting(y, at));
  }

  lemma WaitingNew(order: seq<int>, a: map<int, seq<Span>>, b: map<int, seq<Span>>, t: int)
    requires t !in order && t in b && forall x :: x in order ==> Held(a, x) == Held(b, x)
    ensures Waiting(order + [t], b) == Waiting(order, a) + b[t]
  {
    WaitingConcat(order, [t], b);
    WaitingUnchanged(order, a, b);
    assert [t][1..] == [] && Waiting([t], b) == b[t] + [];
  }

  lemma {:induction false} WaitingAppend(s: State, span: Span)
    requires Buffers(s)
    ensures multiset(Waiting(Append(s, span).order, Append(s, span).at)) == multiset(Waiting(s.order, s.at)) + multiset{span}
  {
    hide Waiting;
    var a, t := Append(s, span), span.trace;
    if t in s.at {
      WaitingWithout(s.order, s.at, t);
      WaitingWithout(s.order, a.at, t);
      assert a.at - {t} == s.at - {t};
      var rest := multiset(Waiting(Remove(s.order, t), s.at - {t}));
      assert multiset(a.at[t]) == multiset(s.at[t]) + multiset{span};
      Regroup(rest, multiset(s.at[t]), multiset{span});
    } else {
      WaitingNew(s.order, s.at, a.at, t);
    }
  }

  lemma Regroup(a: multiset<Span>, b: multiset<Span>, c: multiset<Span>)
    ensures a + (b + c) == a + b + c
  {}

  // ----------------------------------------------------------- what a call keeps

  lemma AppendKeeps(s: State, span: Span)
    requires Buffers(s) && !span.isRoot
    ensures Buffers(Append(s, span))
    ensures |Append(s, span).order| <= |s.order| + 1
    ensures span.trace !in s.at ==> |Append(s, span).order| == |s.order| + 1 && Append(s, span).order[|s.order|] == span.trace
  {
    var a := Append(s, span);
    if span.trace in s.at {
      forall x | x in a.at[span.trace] ensures x.trace == span.trace && !x.isRoot {
        assert x in s.at[span.trace] || x == span;
      }
    }
  }

  ghost function Accounted(s: State): multiset<Span> {
    multiset(s.forwarded) + multiset(s.sampledOut) + multiset(s.evicted) + multiset(Waiting(s.order, s.at))
  }

  /** Eviction moves whole oldest traces from waiting to evicted, reaches the bound, and leaves the
      trace it was told to skip if that is not the oldest of several. */
  lemma {:induction false} EvictKeeps(s: State, maxTraces: int, skip: int)
    requires Buffers(s) && skip in s.at
    requires |s.order| > 1 ==> s.order[|s.order| - 1] == skip || |s.order| <= maxTraces
    ensures var e := EvictOver(s, maxTraces, skip);
      && Buffers(e) && |e.order| <= Limit(maxTraces)
      && skip in e.at && e.at[skip] == s.at[skip]
      && Accounted(e) == Accounted(s)
      && e.forwarded == s.forwarded && e.sampledOut == s.sampledOut
    decreases |s.order|
  {
    if |s.order| <= maxTraces || (s.order[0] == skip && |s.order| == 1) {
    } else {
      assert skip in s.order;
      var oldest := s.order[0];
      assert |s.order| > 1;
      var next := s.(order := s.order[1..], at := s.at - {oldest}, evicted := s.evicted + s.at[oldest]);
      assert Buffers(next) by {
        forall t ensures t in next.order <==> t in next.at { TailMember(s.order, t); }
      }
      WaitingWithout(s.order, s.at, oldest);
      assert Remove(s.order, oldest) == s.order[1..];
      Shift(multiset(s.forwarded) + multiset(s.sampledOut), multiset(s.evicted), multiset(s.at[oldest]),
            multiset(Waiting(next.order, next.at)));
      EvictKeeps(next, maxTraces, skip);
    }
  }

  lemma TailMember(order: seq<int>, t: int)
    requires order != [] && Distinct(order)
    ensures t in order[1..] <==> t in order && t != order[0]
  {}

  lemma Shift(a: multiset<Span>, b: multiset<Span>, c: multiset<Span>, d: multiset<Span>)
    ensures a + (b + c) + d == a + b + (d + c)
  {}

  ghost predicate Inv(c: Config, calls: seq<Call>, s: State) {
    && Buffers(s) && |s.order| <= Limit(c.maxTraces)
    && multiset(Ended(calls)) == Accounted(s)
  }

  lemma EndedAppend(calls: seq<Call>, call: Call)
    ensures multiset(Ended(calls + [call])) == multiset(Ended(calls)) + multiset{call.span}
  {
    assert Ended(calls + [call]) == Ended(calls) + [call.span];
  }

  lemma ChildCall(c: Config, calls: seq<Call>, s: State, call: Call)
    requires Inv(c, calls, s) && c.mode != All && !call.span.isRoot
    ensures Inv(c, calls + [call], OnEnd(c, s, call))
    ensures call.span.trace in OnEnd(c, s, call).at
    ensures OnEnd(c, s, call).at[call.span.trace] == Append(s, call.span).at[call.span.trace]
  {
    hide EvictOver, Waiting;
    var a := Append(s, call.span);
    AppendKeeps(s, call.span);
    WaitingAppend(s, call.span);
    EndedAppend(calls, call);
    EvictKeeps(a, c.maxTraces, call.span.trace);
  }

  /** What a root's call does, before anything is counted: its trace leaves the dict. */
  lemma RootTakesItsTrace(c: Config, s: State, call: Call)
    requires Buffers(s) && c.mode != All && call.span.isRoot
    ensures var a, e, t := Append(s, call.span), OnEnd(c, s, call), call.span.trace;
      && Buffers(e) && |e.order| <= |s.order| && t in a.order && t in a.at && Distinct(a.order)
      && e.order == Remove(a.order, t) && e.at == a.at - {t} && e.evicted == s.evicted
      && e.forwarded == (if Keep(c, call.span, call.draw) then s.forwarded + a.at[t] else s.forwarded)
      && e.sampledOut == (if Keep(c, call.span, call.draw) then s.sampledOut else s.sampledOut + a.at[t])
  {
    hide Keep;
    var a, e, t := Append(s, call.span), OnEnd(c, s, call), call.span.trace;
    assert Distinct(a.order) && t in a.order && forall x :: x in a.order <==> x in a.at;
    RemoveMembers(a.order, t);
    forall x | x in e.at ensures e.at[x] == s.at[x] && x in s.at {}
  }

  lemma RootCall(c: Config, calls: seq<Call>, s: State, call: Call)
    requires Inv(c, calls, s) && c.mode != All && call.span.isRoot
    ensures Inv(c, calls + [call], OnEnd(c, s, call))
  {
    hide Waiting, Remove, OnEnd, Append, Keep, Buffers, Distinct, Ended;
    WaitingAppend(s, call.span);
    EndedAppend(calls, call);
    RootTakesItsTrace(c, s, call);
    var a, e, t := Append(s, call.span), OnEnd(c, s, call), call.span.trace;
    WaitingWithout(a.order, a.at, t);
    var rest := multiset(Waiting(e.order, e.at));
    if Keep(c, call.span, call.draw) {
      MoveFirst(multiset(s.forwarded), multiset(a.at[t]), multiset(s.sampledOut), multiset(s.evicted), rest);
    } else {
      MoveSecond(multiset(s.forwarded), multiset(a.at[t]), multiset(s.sampledOut), multiset(s.evicted), rest);
    }
    var waited := multiset(Waiting(s.order, s.at));
    Regroup(multiset(s.forwarded) + multiset(s.sampledOut) + multiset(s.evicted), waited, multiset{call.span});
  }

  lemma MoveFirst(f: multiset<Span>, w: multiset<Span>, o: multiset<Span>, e: multiset<Span>, r: multiset<Span>)
    ensures f + w + o + e + r == f + o + e + (r + w)
  {}

  lemma MoveSecond(f: multiset<Span>, w: multiset<Span>, o: multiset<Span>, e: multiset<Span>, r: multiset<Span>)
    ensures f + (o + w) + e + r == f + o + e + (r + w)
  {}

  lemma {:induction false} RunKeeps(c: Config, calls: seq<Call>)
    requires c.mode != All
    ensures Inv(c, calls, Run(c, calls))
  {
    hide OnEnd, Accounted;
    if calls == [] {
      assert Accounted(START) == multiset{} by { NothingYet(); }
    } else {
      var front, last := calls[..|calls| - 1], calls[|calls| - 1];
      RunKeeps(c, front);
      assert calls == front + [last];
      if last.span.isRoot {
        RootCall(c, front, Run(c, front), last);
      } else {
        ChildCall(c, front, Run(c, front), last);
      }
    }
  }

  lemma NothingYet()
    ensures Accounted(START) == multiset{}
  {}

  lemma {:induction false} AllForwardsEverything(c: Config, calls: seq<Call>)
    requires c.mode == All
    ensures Run(c, calls) == START.(forwarded := Ended(calls))
  {
    if calls != [] {
      var front := calls[..|calls| - 1];
      AllForwardsEverything(c, front);
      assert Ended(calls) == Ended(front) + [calls[|calls| - 1].span];
    } else {
      assert Ended(calls) == [];
    }
  }

  // --------------------------------------------------------------------- theorems

  /** Every ended span is in exactly one place, as often as it ended, and no more than
      max(1, maxTraces) incomplete traces wait between calls. */
  lemma EverySpanInOnePlace(c: Config, calls: seq<Call>)
    ensures var s := Run(c, calls);
      && multiset(Ended(calls)) == multiset(s.forwarded) + multiset(s.sampledOut) + multiset(s.evicted)
           + multiset(Waiting(s.order, s.at))
      && |s.at| <= Limit(c.maxTraces)
  {
    hide Run, Waiting;
    if c.mode == All {
      AllForwardsEverything(c, calls);
      assert Waiting([], map[]) == [] by { NothingYet(); NoWaiting(); }
      var f := multiset(Ended(calls));
      assert f + multiset{} + multiset{} + multiset{} == f;
    } else {
      RunKeeps(c, calls);
      DictSize(Run(c, calls).order, Run(c, calls).at);
    }
  }

  lemma NoWaiting()
    ensures Waiting([], map[]) == []
  {}

  lemma {:induction false} DictSize(order: seq<int>, at: map<int, seq<Span>>)
    requires Distinct(order) && forall t :: t in order <==> t in at
    ensures |at| == |order|
  {
    if order == [] {
      assert at == map[];
    } else {
      var rest := at - {order[0]};
      forall t ensures t in order[1..] <==> t in rest { TailMember(order, t); }
      assert order[0] in order;
      DictSize(order[1..], rest);
      assert order[0] in at && at == rest[order[0] := at[order[0]]];
    }
  }

  /** Eviction takes whole traces from the old end, in order, and no more than it must. */
  lemma {:induction false} EvictsOldestFirst(s: State, maxTraces: int, skip: int) returns (k: nat)
    requires Buffers(s)
    ensures var e := EvictOver(s, maxTraces, skip);
      && k <= |s.order| && e.order == s.order[k..] && e.evicted == s.evicted + Waiting(s.order[..k], s.at)
      && (k > 0 ==> |s.order| - k + 1 > maxTraces)
    decreases |s.order|
  {
    hide Buffers, Held, Distinct;
    k := 0;
    if |s.order| <= maxTraces || s.order == [] || (s.order[0] == skip && |s.order| == 1) {
      assert s.evicted + Waiting(s.order[..0], s.at) == s.evicted;
    } else {
      var oldest := s.order[0];
      var next := s.(order := s.order[1..], at := s.at - {oldest}, evicted := s.evicted + Held(s.at, oldest));
      OldestGone(s, next);
      k := EvictsOldestFirst(next, maxTraces, skip);
      var rest := s.order[1..][..k];
      OthersUntouched(s, k, next.at);
      assert s.order[..k + 1][0] == oldest && s.order[..k + 1][1..] == rest;
      assert s.evicted + Held(s.at, oldest) + Waiting(rest, s.at) == s.evicted + (Held(s.at, oldest) + Waiting(rest, s.at));
      k := k + 1;
    }
  }

  lemma OldestGone(s: State, next: State)
    requires Buffers(s) && s.order != [] && next.order == s.order[1..] && next.at == s.at - {s.order[0]}
    ensures Buffers(next)
  {
    forall t ensures t in next.order <==> t in next.at { TailMember(s.order, t); }
  }

  lemma OthersUntouched(s: State, k: nat, at: map<int, seq<Span>>)
    requires Buffers(s) && s.order != [] && k <= |s.order| - 1 && at == s.at - {s.order[0]}
    ensures Waiting(s.order[1..][..k], at) == Waiting(s.order[1..][..k], s.at)
  {
    WaitingUnchanged(s.order[1..][..k], at, s.at);
  }

  /** The trace just appended to is never the one evicted. */
  lemma AppendedTraceStays(c: Config, calls: seq<Call>, call: Call)
    requires c.mode != All && !call.span.isRoot
    ensures var before, after := Run(c, calls), Run(c, calls + [call]);
      && call.span.trace in after.at
      && after.at[call.span.trace]
           == Held(before.at, call.span.trace) + [call.span]
  {
    hide OnEnd;
    RunKeeps(c, calls);
    ChildCall(c, calls, Run(c, calls), call);
    assert (calls + [call])[..|calls|] == calls;
    assert Run(c, calls + [call]) == OnEnd(c, Run(c, calls), call);
  }

  // ---------------------------------------------------------------- whole traces

  lemma {:induction false} OfTraceConcat(a: seq<Span>, b: seq<Span>, t: int)
    ensures OfTrace(a + b, t) == OfTrace(a, t) + OfTrace(b, t)
  {
    if b == [] {
      assert a + b == a;
    } else {
      assert (a + b)[..|a + b| - 1] == a + b[..|b| - 1];
      OfTraceConcat(a, b[..|b| - 1], t);
    }
  }

  lemma {:induction false} OfOneTrace(spans: seq<Span>, u: int, t: int)
    requires forall x :: x in spans ==> x.trace == u
    ensures OfTrace(spans, t) == if u == t then spans else []
  {
    if spans != [] {
      OfOneTrace(spans[..|spans| - 1], u, t);
    }
  }

  /** What eviction does to one trace: nothing, or its spans all go. */
  lemma {:induction false} EvictOneTrace(s: State, maxTraces: int, skip: int, t: int)
    requires Buffers(s)
    ensures var e := EvictOver(s, maxTraces, skip);
      && (OfTrace(e.evicted, t) == OfTrace(s.evicted, t) ==> Held(e.at, t) == Held(s.at, t))
      && |OfTrace(e.evicted, t)| >= |OfTrace(s.evicted, t)|
      && (t !in s.at ==> OfTrace(e.evicted, t) == OfTrace(s.evicted, t))
    decreases |s.order|
  {
    if |s.order| <= maxTraces || s.order == [] || (s.order[0] == skip && |s.order| == 1) {
    } else {
      var oldest := s.order[0];
      var gone := s.at[oldest];
      var next := s.(order := s.order[1..], at := s.at - {oldest}, evicted := s.evicted + gone);
      assert Buffers(next) by {
        forall u ensures u in next.order <==> u in next.at { TailMember(s.order, u); }
      }
      EvictOneTrace(next, maxTraces, skip, t);
      OfTraceConcat(s.evicted, gone, t);
      OfOneTrace(gone, oldest, t);
    }
  }

  ghost predicate NoRootOf(calls: seq<Call>, t: int) {
    forall x :: x in calls && x.span.trace == t ==> !x.span.isRoot
  }

  /** Until its root ends, a trace that was never evicted waits whole and in order. */
  lemma {:induction false} WaitsWhole(c: Config, calls: seq<Call>, t: int)
    requires c.mode != All && NoRootOf(calls, t) && OfTrace(Run(c, calls).evicted, t) == []
    ensures var s := Run(c, calls);
      && Held(s.at, t) == OfTrace(Ended(calls), t)
      && OfTrace(s.forwarded, t) == [] && OfTrace(s.sampledOut, t) == []
  {
    hide EvictOver, OfTrace, OnEnd, Buffers, Accounted;
    if calls == [] {
      NoSpans(t);
    } else {
      var front, last := calls[..|calls| - 1], calls[|calls| - 1];
      assert last in calls && forall x :: x in front ==> x in calls;
      var s, span := Run(c, front), last.span;
      RunKeeps(c, front);
      EvictedGrows(c, s, front, last, t);
      WaitsWhole(c, front, t);
      assert Ended(calls) == Ended(front) + [span];
      OfTraceConcat(Ended(front), [span], t);
      OfOneTrace([span], span.trace, t);
      if !span.isRoot {
        ChildOfUnevicted(c, s, last, t);
      } else {
        RootOfOther(c, s, last, t);
      }
    }
  }

  lemma ChildOfUnevicted(c: Config, s: State, call: Call, t: int)
    requires c.mode != All && Buffers(s) && !call.span.isRoot
    ensures var e := OnEnd(c, s, call);
      && e.forwarded == s.forwarded && e.sampledOut == s.sampledOut
      && (OfTrace(e.evicted, t) == OfTrace(s.evicted, t) ==>
            Held(e.at, t) == Held(s.at, t) + if call.span.trace == t then [call.span] else [])
  {
    hide OfTrace, EvictOver, Buffers;
    var a := Append(s, call.span);
    AppendKeeps(s, call.span);
    EvictOneTrace(a, c.maxTraces, call.span.trace, t);
    EvictKeepsOthers(a, c.maxTraces, call.span.trace);
    assert [] + [call.span] == [call.span];
  }

  lemma NoSpans(t: int)
    ensures OfTrace([], t) == []
  {}

  lemma {:induction false} EvictKeepsOthers(s: State, maxTraces: int, skip: int)
    ensures EvictOver(s, maxTraces, skip).forwarded == s.forwarded
    ensures EvictOver(s, maxTraces, skip).sampledOut == s.sampledOut
    decreases |s.order|
  {
    if |s.order| <= maxTraces || s.order == [] || (s.order[0] == skip && |s.order| == 1) {
    } else {
      var oldest := s.order[0];
      var gone := Held(s.at, oldest);
      EvictKeepsOthers(s.(order := s.order[1..], at := s.at - {oldest}, evicted := s.evicted + gone), maxTraces, skip);
    }
  }

  /** Another trace's root leaves this trace alone. */
  lemma RootOfOther(c: Config, s: State, call: Call, t: int)
    requires c.mode != All && Buffers(s) && call.span.isRoot && call.span.trace != t
    ensures var e := OnEnd(c, s, call);
      && Held(e.at, t) == Held(s.at, t) && OfTrace(e.evicted, t) == OfTrace(s.evicted, t)
      && OfTrace(e.forwarded, t) == OfTrace(s.forwarded, t)
      && OfTrace(e.sampledOut, t) == OfTrace(s.sampledOut, t)
  {
    hide OfTrace;
    var a, u := Append(s, call.span), call.span.trace;
    var whole := a.at[u];
    forall x | x in whole ensures x.trace == u {
      assert u in s.at ==> x in s.at[u] || x == call.span;
    }
    OfOneTrace(whole, u, t);
    OfTraceConcat(s.forwarded, whole, t);
    OfTraceConcat(s.sampledOut, whole, t);
  }

  lemma EvictedGrows(c: Config, s: State, front: seq<Call>, call: Call, t: int)
    requires c.mode != All && Inv(c, front, s)
    ensures |OfTrace(OnEnd(c, s, call).evicted, t)| >= |OfTrace(s.evicted, t)|
  {
    hide OfTrace, EvictOver;
    if !call.span.isRoot {
      AppendKeeps(s, call.span);
      EvictOneTrace(Append(s, call.span), c.maxTraces, call.span.trace, t);
    }
  }

  ghost predicate NoneOf(calls: seq<Call>, t: int) {
    forall x :: x in calls ==> x.span.trace != t
  }

  /** Once nothing waits for a trace, calls for other traces leave its outcome alone. */
  lemma {:induction false} OthersLeaveOutcome(c: Config, calls: seq<Call>, n: nat, t: int)
    requires c.mode != All && n <= |calls| && NoneOf(calls[n..], t) && t !in Run(c, calls[..n]).at
    ensures var s, e := Run(c, calls[..n]), Run(c, calls);
      && t !in e.at && OfTrace(e.evicted, t) == OfTrace(s.evicted, t)
      && OfTrace(e.forwarded, t) == OfTrace(s.forwarded, t)
      && OfTrace(e.sampledOut, t) == OfTrace(s.sampledOut, t)
    decreases |calls|
  {
    hide OfTrace, EvictOver;
    if n == |calls| {
      assert calls[..n] == calls;
    } else {
      var front, last := calls[..|calls| - 1], calls[|calls| - 1];
      assert last in calls[n..] && front[..n] == calls[..n];
      forall x | x in front[n..] ensures x.span.trace != t { assert x in calls[n..]; }
      OthersLeaveOutcome(c, front, n, t);
      var s := Run(c, front);
      RunKeeps(c, front);
      if last.span.isRoot {
        RootOfOther(c, s, last, t);
        RootCall(c, front, s, last);
        assert t !in Append(s, last.span).at;
      } else {
        AppendKeeps(s, last.span);
        EvictOneTrace(Append(s, last.span), c.maxTraces, last.span.trace, t);
        EvictKeepsOthers(Append(s, last.span), c.maxTraces, last.span.trace);
        EvictAddsNoTrace(Append(s, last.span), c.maxTraces, last.span.trace, t);
      }
    }
  }

  lemma {:induction false} EvictAddsNoTrace(s: State, maxTraces: int, skip: int, t: int)
    ensures t !in s.at ==> t !in EvictOver(s, maxTraces, skip).at
    decreases |s.order|
  {
    if |s.order| <= maxTraces || s.order == [] || (s.order[0] == skip && |s.order| == 1) {
    } else {
      var oldest := s.order[0];
      var gone := Held(s.at, oldest);
      EvictAddsNoTrace(s.(order := s.order[1..], at := s.at - {oldest}, evicted := s.evicted + gone), maxTraces, skip, t);
    }
  }

  /** A trace that was never evicted and whose root ends last is forwarded whole, in the order its
      spans ended, or not at all, and always whole when the root failed. */
  lemma TraceWholeOrAbsent(c: Config, before: seq<Call>, root: Call, after: seq<Call>)
    requires c.mode != All && root.span.isRoot
    requires NoRootOf(before, root.span.trace) && NoneOf(after, root.span.trace)
    requires OfTrace(Run(c, before).evicted, root.span.trace) == []
    ensures var t, s := root.span.trace, Run(c, before + [root] + after);
      var mine := OfTrace(Ended(before), t) + [root.span];
      && OfTrace(s.evicted, t) == [] && t !in s.at
      && (if Keep(c, root.span, root.draw) then OfTrace(s.forwarded, t) == mine && OfTrace(s.sampledOut, t) == []
          else OfTrace(s.forwarded, t) == [] && OfTrace(s.sampledOut, t) == mine)
      && (root.span.isError ==> OfTrace(s.forwarded, t) == mine)
  {
    hide OfTrace;
    var t := root.span.trace;
    var calls := before + [root] + after;
    var s := Run(c, before);
    RunKeeps(c, before);
    WaitsWhole(c, before, t);
    var n := |before| + 1;
    assert calls[..n] == before + [root] && calls[n..] == after && (before + [root])[..|before|] == before;
    var mid := Run(c, calls[..n]);
    assert mid == OnEnd(c, s, root);
    var whole := Append(s, root.span).at[t];
    assert whole == Held(s.at, t) + [root.span];
    forall x | x in whole ensures x.trace == t {
      assert t in s.at ==> x in s.at[t] || x == root.span;
    }
    OfOneTrace(whole, t, t);
    OfTraceConcat(s.forwarded, whole, t);
    OfTraceConcat(s.sampledOut, whole, t);
    OthersLeaveOutcome(c, calls, n, t);
  }

  /** The same, mode by mode. A trace with a failed root goes out whole. With a successful one it is left out
      whole in `errors_only`, whatever the draw and the rate, and in `percentage` goes out whole exactly
      when the draw is below the rate. */
  lemma DecidedByMode(c: Config, before: seq<Call>, root: Call, after: seq<Call>)
    requires c.mode != All && root.span.isRoot
    requires NoRootOf(before, root.span.trace) && NoneOf(after, root.span.trace)
    requires OfTrace(Run(c, before).evicted, root.span.trace) == []
    ensures var t, s := root.span.trace, Run(c, before + [root] + after);
      var mine := OfTrace(Ended(before), t) + [root.span];
      && (root.span.isError || (c.mode == Percentage && root.draw < c.rate) ==>
            OfTrace(s.forwarded, t) == mine && OfTrace(s.sampledOut, t) == [])
      && (!root.span.isError && c.mode == ErrorsOnly ==> OfTrace(s.forwarded, t) == [] && OfTrace(s.sampledOut, t) == mine)
      && (!root.span.isError && c.mode == Percentage && root.draw >= c.rate ==>
            OfTrace(s.forwarded, t) == [] && OfTrace(s.sampledOut, t) == mine)
  {
    hide OfTrace, Run, NoRootOf, NoneOf;
    TraceWholeOrAbsent(c, before, root, after);
  }

  /** A failed root is never sampled out. */
  lemma {:induction false} ErrorsNeverSampledOut(c: Config, calls: seq<Call>)
    ensures forall x :: x in Run(c, calls).sampledOut && x.isRoot ==> !x.isError
  {
    hide EvictOver;
    if calls != [] {
      var front, last := calls[..|calls| - 1], calls[|calls| - 1];
      ErrorsNeverSampledOut(c, front);
      if c.mode != All {
        var s := Run(c, front);
        RunKeeps(c, front);
        EvictKeepsOthers(Append(s, last.span), c.maxTraces, last.span.trace);
        if last.span.isRoot {
          var whole := Append(s, last.span).at[last.span.trace];
          forall x | x in whole ensures x == last.span || !x.isRoot {
            assert last.span.trace in s.at ==> x in s.at[last.span.trace] || x == last.span;
          }
        }
      }
    }
  }
}
