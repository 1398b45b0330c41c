// `SamplingSpanProcessor`, updated in place. Calls are taken one at a time: the source holds a lock
// over the buffers.
module SamplingProcess {
  import opened SamplingSpec
  import opened SamplingTheorems

  class SamplingSpanProcessor {
    const config: Config
    var order: seq<int>
    var at: map<int, seq<Span>>
    var forwarded: seq<Span>         // what the wrapped processor received
    ghost var sampledOut: seq<Span>
    ghost var evicted: seq<Span>

    constructor (config: Config)
      ensures this.config == config && Abs() == START
    {
      this.config := config;
      order, at, forwarded := [], map[], [];
      sampledOut, evicted := [], [];
    }

    ghost function Abs(): State
      reads this
    {
      State(order, at, forwarded, sampledOut, evicted)
    }

    method EvictIfOverCapacity(skip: int)
      modifies this`order, this`at, this`evicted
      ensures Abs() == EvictOver(old(Abs()), config.maxTraces, skip)
    {
      while |order| > config.maxTraces && order != []
        invariant forwarded == old(forwarded) && sampledOut == old(sampledOut)
        invariant EvictOver(Abs(), config.maxTraces, skip) == EvictOver(old(Abs()), config.maxTraces, skip)
        decreases |order|
      {
        var oldest := order[0];
        if oldest == skip && |order| == 1 { break; }
        evicted := evicted + Held(at, oldest);
        order, at := order[1..], at - {oldest};
      }
    }

    method OnEnd(span: Span, draw: real)
      requires Buffers(Abs())
      modifies this
      ensures Abs() == SamplingSpec.OnEnd(config, old(Abs()), Call(span, draw))
    {
      if config.mode == All {
        forwarded := forwarded + [span];
        return;
      }
      if span.trace !in at {
        order, at := order + [span.trace], at[span.trace := []];
      }
      assert at[span.trace] + [span] == Held(old(at), span.trace) + [span];
      at := at[span.trace := at[span.trace] + [span]];
      assert [] + [span] == [span];
      assert at == old(at)[span.trace := Held(old(at), span.trace) + [span]];
      assert Abs() == Append(old(Abs()), span);
      if !span.isRoot {
        EvictIfOverCapacity(span.trace);
        return;
      }
      var spans := at[span.trace];
      order, at := Remove(order, span.trace), at - {span.trace};
      if Keep(config, span, draw) {
        ghost var before := forwarded;
        for i := 0 to |spans|
          invariant forwarded == before + spans[..i]
          invariant order == Remove(Append(old(Abs()), span).order, span.trace)
          invariant at == Append(old(Abs()), span).at - {span.trace}
          invariant sampledOut == old(sampledOut) && evicted == old(evicted)
        {
          forwarded := forwarded + [spans[i]];
        }
        assert spans[..|spans|] == spans;
      } else {
        sampledOut := sampledOut + spans;
      }
    }
  }
}
