// The normalizer process: `SpanBatch` and `Normalizer`, updated in place, refining the state machine.
module NormalizerProcess {
  import opened Text
  import DedupToken
  import opened NormalizerSpec
  import opened Polling
  import opened NormalizerLoop

  /** The open batch. A partition can have offsets here and no rows: its messages were all dead-lettered. */
  class SpanBatch {
    const maxRows: nat
    const maxSeconds: real
    const topic: string
    var rows: seq<SpanRow>
    var offsets: DedupToken.Ranges
    var openedAt: real

    constructor (maxRows: nat, maxSeconds: real, topic: string, now: real)
      ensures this.maxRows == maxRows && this.maxSeconds == maxSeconds && this.topic == topic
      ensures rows == [] && offsets == map[] && openedAt == now
    {
      this.maxRows, this.maxSeconds, this.topic := maxRows, maxSeconds, topic;
      rows, offsets, openedAt := [], map[], now;
    }

    method AddRow(row: SpanRow)
      modifies this`rows
      ensures rows == old(rows) + [row]
    {
      rows := rows + [row];
    }

    method Track(partition: nat, offset: nat)
      modifies this`offsets
      ensures offsets == DedupToken.Track(old(offsets), partition, offset)
    {
      if partition !in offsets {
        offsets := offsets[partition := DedupToken.Bounds(offset, offset)];
      } else {
        var lo, hi := offsets[partition].lo, offsets[partition].hi;
        if offset < lo { lo := offset; }
        if hi < offset { hi := offset; }
        offsets := offsets[partition := DedupToken.Bounds(lo, hi)];
      }
    }

    predicate ShouldFlush(now: real)
      reads this
    {
      || (rows != [] && |rows| >= maxRows)
      || (offsets != map[] && now - openedAt >= maxSeconds)
    }

    function Token(): string
      reads this
    {
      DedupToken.Token(topic, offsets)
    }

    method Reset(now: real)
      modifies this
      ensures rows == [] && offsets == map[] && openedAt == now
    {
      rows, offsets, openedAt := [], map[], now;
    }
  }

  /** What the process talks to: its consumer's position, the group's committed offsets, the span
      store with its remembered tokens, and the dead letters. */
  class Cluster {
    var position: seq<nat>
    var committed: seq<nat>
    var store: Store
    var dead: seq<DeadLetter>

    method InsertSpans(rows: seq<SpanRow>, token: string)
      modifies this`store
      ensures store == Insert(old(store), rows, token)
    {
      if rows == [] { return; }
      if token !in store.tokens {
        store := Store(store.table + rows, store.tokens + {token});
      }
    }
  }

  class Normalizer {
    const w: World
    const batch: SpanBatch
    const cluster: Cluster
    const stopWhenIdle: Option<real>
    var spanCount: nat
    var running: bool
    ghost var failed: bool

    constructor (w: World, batch: SpanBatch, cluster: Cluster, stopWhenIdle: Option<real>)
      ensures this.w == w && this.batch == batch && this.cluster == cluster && this.stopWhenIdle == stopWhenIdle
      ensures spanCount == 0 && running && !failed
    {
      this.w, this.batch, this.cluster, this.stopWhenIdle := w, batch, cluster, stopWhenIdle;
      spanCount, running, failed := 0, true, false;
    }

    ghost predicate Valid()
      reads this, batch, cluster
    {
      && batch.topic == w.topic
      && (batch.offsets == map[] ==> batch.rows == [])
      && |cluster.position| == |cluster.committed| == |w.logs|
      && forall p :: 0 <= p < |w.logs| ==> cluster.position[p] <= |w.logs[p]|
    }

    ghost function Knobs(): Limits
      reads this, batch
    {
      Limits(batch.maxRows, batch.maxSeconds, stopWhenIdle)
    }

    ghost function Abs(): State
      reads this, batch, cluster
    {
      State(cluster.position, cluster.committed, batch.rows, batch.offsets, cluster.store, cluster.dead, failed)
    }

    method DeadLetterMessage(reason: Reason, partition: nat, offset: nat, payload: Payload)
      modifies batch`offsets, cluster`dead
      ensures cluster.dead == old(cluster.dead) + [DeadLetter(reason, partition, offset, payload)]
      ensures batch.offsets == DedupToken.Track(old(batch.offsets), partition, offset)
    {
      cluster.dead := cluster.dead + [DeadLetter(reason, partition, offset, payload)];
      batch.Track(partition, offset);
    }

    /** One message: its good spans join the batch, its bad ones (or the whole message) are
        dead-lettered, and its offset is tracked either way. A message without a partition or an
        offset changes nothing. */
    method Handle(partition: Option<nat>, offset: Option<nat>, payload: Payload)
      requires partition.Some? && offset.Some? ==>
        Logged(w, partition.value, offset.value) && w.logs[partition.value][offset.value] == payload
      modifies this`spanCount, batch`rows, batch`offsets, cluster`dead
      ensures partition.None? || offset.None? ==>
        batch.rows == old(batch.rows) && batch.offsets == old(batch.offsets) && cluster.dead == old(cluster.dead)
      ensures partition.Some? && offset.Some? ==>
        && batch.rows == old(batch.rows) + MessageRows(w, partition.value, offset.value)
        && cluster.dead == old(cluster.dead) + MessageDead(w, partition.value, offset.value)
        && batch.offsets == DedupToken.Track(old(batch.offsets), partition.value, offset.value)
        && spanCount == old(spanCount) + |MessageRows(w, partition.value, offset.value)|
    {
      if partition.None? || offset.None? { return; }
      var p, o := partition.value, offset.value;
      match w.codec.decode(payload)
      case DecodeError => DeadLetterMessage(DecodeFailed, p, o, payload);
      case UnexpectedError => DeadLetterMessage(Unexpected, p, o, payload);
      case Spans(spans) =>
        for i := 0 to |spans|
          invariant batch.rows == old(batch.rows) + RowsOf(w.codec, spans[..i], p, o)
          invariant cluster.dead == old(cluster.dead) + Rejects(w.codec, spans[..i], p, o, payload)
          invariant spanCount == old(spanCount) + |RowsOf(w.codec, spans[..i], p, o)|
          invariant batch.offsets == old(batch.offsets)
                 || batch.offsets == DedupToken.Track(old(batch.offsets), p, o)
        {
          assert spans[..i + 1][..i] == spans[..i];
          match ToRow(w.codec, spans[i], p, o)
          case Some(row) =>
            batch.AddRow(row);
            spanCount := spanCount + 1;
          case None =>
            DeadLetterMessage(NormalizeFailed, p, o, payload);
        }
        assert spans[..|spans|] == spans;
        batch.Track(p, o);
    }

    /** Insert, and only then commit. `raised` reports an exception out of either. */
    method Flush(outcome: Outcome, now: real) returns (raised: bool)
      requires Valid()
      modifies batch, cluster`store, cluster`committed, this`failed
      ensures Valid() && Abs() == FlushSpec(w, old(Abs()), outcome)
      ensures raised <==> old(batch.offsets) != map[] && outcome != Done
      ensures !raised ==> failed == old(failed) && batch.offsets == map[]
      ensures batch.openedAt == if old(batch.offsets) != map[] && !raised then now else old(batch.openedAt)
    {
      raised := false;
      if batch.offsets == map[] { return; }
      match outcome
      case InsertRaised(applied) =>
        if applied { cluster.InsertSpans(batch.rows, batch.Token()); }
        raised, failed := true, true;
      case CommitRaised(applied) =>
        cluster.InsertSpans(batch.rows, batch.Token());
        if applied { cluster.committed := cluster.position; }
        raised, failed := true, true;
      case Done =>
        cluster.InsertSpans(batch.rows, batch.Token());
        cluster.committed := cluster.position;
        batch.Reset(now);
    }

    /** Poll returned the next message of `p`: the consumer moves past it and it is handled. */
    method Receive(p: nat)
      requires Valid() && p < |w.logs| && cluster.position[p] < |w.logs[p]|
      modifies this`spanCount, batch`rows, batch`offsets, cluster`dead, cluster`position
      ensures Valid() && Abs() == DeliverSpec(w, old(Abs()), p)
      ensures spanCount == old(spanCount) + |MessageRows(w, p, old(cluster.position[p]))|
    {
      var o := cluster.position[p];
      cluster.position := cluster.position[p := o + 1];
      Handle(Some(p), Some(o), w.logs[p][o]);
    }

    /** One turn of the loop: the polled message handled, then a flush if one is due. A partition end skips
        the flush check, and a broker error ends the loop without touching the batch. */
    method Turn(tick: Tick, idle: Option<real>) returns (raised: bool, idleSince: Option<real>, ghost events: seq<Event>)
      requires Valid() && running && !failed
      modifies this, batch, cluster
      ensures Valid() && Abs() == NormalizerSpec.Run(w, old(Abs()), events) && (!raised ==> !failed)
      ensures events == TickEvents(w, Knobs(), old(Abs()), old(batch.openedAt), tick)
      ensures raised == Raises(Knobs(), events, tick)
      ensures batch.openedAt == if EndsInFlush(events) && !raised then tick.now else old(batch.openedAt)
      ensures idleSince == IdleSince(Knobs(), idle, tick) && running == !IdleTooLong(Knobs(), idle, tick)
    {
      hide NormalizerSpec.Run, DeliverSpec, FlushSpec, DedupToken.Track, MessageRows, MessageDead;
      raised, idleSince, events := false, idle, [];
      RunNone(w, Abs());
      match tick.polled {
        case EndOfPartition =>
          idleSince := None;
          return;
        case BrokerError =>
          idleSince, raised := None, true;
          return;
        case Message(p) =>
          idleSince := None;
          if p < |w.logs| && cluster.position[p] < |w.logs[p]| {
            Receive(p);
            events := [Deliver(p)];
            RunOne(w, old(Abs()), Deliver(p));
            DeliverStep(w, old(Abs()), p);
          }
        case Nothing =>
          if stopWhenIdle.Some? {
            if idleSince.None? || idleSince.value == 0.0 { idleSince := Some(tick.now); }
            if tick.now - idleSince.value >= stopWhenIdle.value { running := false; }
          }
      }
      if batch.ShouldFlush(tick.now) {
        ghost var before := Abs();
        raised := Flush(tick.outcome, tick.now);
        RunOne(w, before, Event.Flush(tick.outcome));
        FlushStep(w, before, tick.outcome);
        RunConcat(w, old(Abs()), events, [Event.Flush(tick.outcome)]);
        events := events + [Event.Flush(tick.outcome)];
      }
    }

    /** The loop and its shutdown flush: the turns' events in order, up to the first that raises or the end
        of idle polls, and then one last flush, whose failure is raised too. */
    method Run(script: seq<Tick>, last: Outcome, end: real) returns (raised: bool, ghost events: seq<Event>)
      requires Valid() && running && !failed
      modifies this, batch, cluster
      ensures Valid() && Abs() == NormalizerSpec.Run(w, old(Abs()), events)
      ensures events == Looped(w, Knobs(), old(Abs()), old(batch.openedAt), script).events + [Event.Flush(last)]
      ensures raised <==>
        || Looped(w, Knobs(), old(Abs()), old(batch.openedAt), script).raised
        || (batch.offsets != map[] && last != Done)
      ensures last == Done ==> batch.offsets == map[]
    {
      events, raised := [], false;
      var idleSince: Option<real>, i := None, 0;
      ghost var start, openedAt := Abs(), batch.openedAt;
      while running && !raised && i < |script|
        invariant 0 <= i <= |script| && Valid() && (!raised ==> !failed)
        invariant Abs() == NormalizerSpec.Run(w, start, events)
        invariant Looped(w, Knobs(), start, openedAt, script[..i]) == Loop(events, batch.openedAt, idleSince, running, raised)
        decreases |script| - i
      {
        ghost var turn: seq<Event>;
        assert script[..i + 1][..i] == script[..i];
        raised, idleSince, turn := Turn(script[i], idleSince);
        RunConcat(w, start, events, turn);
        events := events + turn;
        i := i + 1;
      }
      LoopIsOver(w, Knobs(), start, openedAt, script, i);
      ghost var before := Abs();
      var failing := Flush(last, end);
      raised := raised || failing;
      RunOne(w, before, Event.Flush(last));
      FlushStep(w, before, last);
      RunConcat(w, start, events, [Event.Flush(last)]);
      events := events + [Event.Flush(last)];
    }
  }

  lemma {:induction false} LoopIsOver(w: World, limits: Limits, start: State, openedAt: real, script: seq<Tick>, n: nat)
    requires n <= |script|
    requires var l := Looped(w, limits, start, openedAt, script[..n]); n < |script| ==> !l.running || l.raised
    ensures Looped(w, limits, start, openedAt, script) == Looped(w, limits, start, openedAt, script[..n])
  {
    hide TickEvents, NormalizerSpec.Run;
    if n == |script| {
      assert script[..n] == script;
    } else {
      var front := script[..|script| - 1];
      assert front[..n] == script[..n];
      LoopIsOver(w, limits, start, openedAt, front, n);
    }
  }

  lemma FlushStep(w: World, s: State, outcome: Outcome)
    ensures Step(w, s, Event.Flush(outcome)) == FlushSpec(w, s, outcome)
  {}

  lemma RunNone(w: World, s: State)
    ensures NormalizerSpec.Run(w, s, []) == s
  {}

  lemma DeliverStep(w: World, s: State, p: nat)
    requires !s.failed && p < |w.logs| && p < |s.position| && s.position[p] < |w.logs[p]|
    ensures Step(w, s, Deliver(p)) == DeliverSpec(w, s, p)
  {}

  lemma RunOne(w: World, s: State, e: Event)
    ensures NormalizerSpec.Run(w, s, [e]) == Step(w, s, e)
  {
    assert [e][..0] == [];
  }
}
