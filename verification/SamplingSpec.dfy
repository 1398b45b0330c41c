// Tail sampling: spans wait per trace until the trace's root ends, and are then forwarded or dropped
// together; the oldest incomplete traces are evicted beyond a bound.
module SamplingSpec {

  /** An ended span. `tag` tells spans of one trace apart. */
  datatype Span = Span(trace: int, isRoot: bool, isError: bool, tag: nat)

  datatype Mode = All | ErrorsOnly | Percentage

  datatype Config = Config(mode: Mode, rate: real, maxTraces: int)

  /** `order` and `at` are the insertion-ordered buffer dict; the rest records where spans went. */
  datatype State = State(
    order: seq<int>, at: map<int, seq<Span>>,
    forwarded: seq<Span>, sampledOut: seq<Span>, evicted: seq<Span>)

  const START: State := State([], map[], [], [], [])

  /** One call: the span that ended and the random draw in case one is needed. */
  datatype Call = Call(span: Span, draw: real)

  function Append(s: State, span: Span): State {
    if span.trace in s.at then s.(at := s.at[span.trace := s.at[span.trace] + [span]])
    else s.(order := s.order + [span.trace], at := s.at[span.trace := [span]])
  }

  function EvictOver(s: State, maxTraces: int, skip: int): State
    decreases |s.order|
  {
    if |s.order| <= maxTraces || s.order == [] || (s.order[0] == skip && |s.order| == 1) then s
    else
      var oldest := s.order[0];
      EvictOver(s.(order := s.order[1..], at := s.at - {oldest}, evicted := s.evicted + Held(s.at, oldest)), maxTraces, skip)
  }

  function Remove(order: seq<int>, trace: int): seq<int> {
    if order == [] then []
    else if order[0] == trace then order[1..]
    else [order[0]] + Remove(order[1..], trace)
  }

  predicate Keep(c: Config, root: Span, draw: real) {
    root.isError || (c.mode == Percentage && draw < c.rate)
  }

  function OnEnd(c: Config, s: State, call: Call): State {
    var span := call.span;
    if c.mode == All then s.(forwarded := s.forwarded + [span])
    else
      var a := Append(s, span);
      if !span.isRoot then EvictOver(a, c.maxTraces, span.trace)
      else
        var whole := a.at[span.trace];
        var popped := a.(order := Remove(a.order, span.trace), at := a.at - {span.trace});
        if Keep(c, span, call.draw) then popped.(forwarded := popped.forwarded + whole)
        else popped.(sampledOut := popped.sampledOut + whole)
  }

  function Run(c: Config, calls: seq<Call>): State {
    if calls == [] then START else OnEnd(c, Run(c, calls[..|calls| - 1]), calls[|calls| - 1])
  }

  function Ended(calls: seq<Call>): seq<Span> {
    seq(|calls|, i requires 0 <= i < |calls| => calls[i].span)
  }

  function Held(at: map<int, seq<Span>>, t: int): seq<Span> {
    if t in at then at[t] else []
  }

  /** All spans waiting, oldest trace first. */
  ghost function Waiting(order: seq<int>, at: map<int, seq<Span>>): seq<Span> {
    if order == [] then [] else Held(at, order[0]) + Waiting(order[1..], at)
  }

  function OfTrace(spans: seq<Span>, t: int): seq<Span> {
    if spans == [] then []
    else
      var front, last := OfTrace(spans[..|spans| - 1], t), spans[|spans| - 1];
      if last.trace == t then front + [last] else front
  }
}
