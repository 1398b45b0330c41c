// The archiver process, updated in place, refining the state machine.
module ArchiverProcess {
  import opened Framing
  import ArchiveKey
  import opened Otlp
  import opened ArchiverSpec
  import opened Polling
  import opened ArchiverLoop

  /** The open batch: one future object per tenant and partition. */
  class ArchiveBatch {
    const maxMessages: nat
    const maxSeconds: real
    const maxBytes: nat
    var groups: Groups
    var count: nat
    var size: nat
    var openedAt: real

    constructor (maxMessages: nat, maxSeconds: real, maxBytes: nat, now: real)
      ensures this.maxMessages == maxMessages && this.maxSeconds == maxSeconds && this.maxBytes == maxBytes
      ensures groups == EMPTY && count == 0 && size == 0 && openedAt == now
    {
      this.maxMessages, this.maxSeconds, this.maxBytes := maxMessages, maxSeconds, maxBytes;
      groups, count, size, openedAt := EMPTY, 0, 0, now;
    }

    method Add(tenant: string, payload: Bytes, partition: nat, offset: nat)
      modifies this`groups, this`count, this`size
      ensures groups == ArchiverSpec.Add(old(groups), Part(tenant, payload), partition, offset)
      ensures count == old(count) + 1 && size == old(size) + |payload|
    {
      var key := GroupKey(tenant, partition);
      if key !in groups.at {
        groups := Groups(groups.order + [key], groups.at[key := Group([payload], offset, offset)]);
      } else {
        var group := groups.at[key];
        var first, last := group.first, group.last;
        if offset < first { first := offset; }
        if last < offset { last := offset; }
        groups := Groups(groups.order, groups.at[key := Group(group.payloads + [payload], first, last)]);
      }
      count, size := count + 1, size + |payload|;
    }

    predicate Full(now: real)
      reads this
    {
      count >= maxMessages || size >= maxBytes || (count > 0 && now - openedAt >= maxSeconds)
    }

    method Reset(now: real)
      modifies this
      ensures groups == EMPTY && count == 0 && size == 0 && openedAt == now
    {
      groups, count, size, openedAt := EMPTY, 0, 0, now;
    }
  }

  /** Broker and object store. */
  class Outside {
    var position: seq<nat>
    var committed: seq<nat>
    var objects: Store

    method Put(name: string, payloads: seq<Bytes>)
      modifies this`objects
      ensures objects == old(objects)[name := payloads]
    {
      objects := objects[name := payloads];
    }
  }

  method ReadTenant(attributes: seq<Attribute>) returns (tenant: string)
    ensures tenant == FirstTenant(attributes)
  {
    tenant := UNKNOWN;
    for i := 0 to |attributes|
      invariant tenant == UNKNOWN && FirstTenant(attributes) == FirstTenant(attributes[i..])
    {
      if NamesTenant(attributes[i]) {
        return attributes[i].value.s;
      }
      assert attributes[i..][1..] == attributes[i + 1..];
    }
    assert attributes[|attributes|..] == [];
  }

  /** Cuts a decoded message along tenant lines; tenants come out in the order they are first met. */
  method SplitByTenant(w: World, rss: seq<ResourceSpans>) returns (parts: seq<Part>)
    ensures parts == Serialized(w, rss, Tenants(rss))
  {
    hide Tenants, Owned;
    var order, byTenant := GroupByTenant(rss);
    parts := [];
    for i := 0 to |order|
      invariant parts == Serialized(w, rss, order[..i])
    {
      assert order[..i + 1][..i] == order[..i];
      assert order[i] in byTenant;
      parts := parts + [Part(order[i], w.serialize(byTenant[order[i]]))];
    }
    assert order[..|order|] == order;
  }

  /** An insertion-ordered dict: each tenant's ResourceSpans, in order. */
  method GroupByTenant(rss: seq<ResourceSpans>) returns (order: seq<string>, byTenant: map<string, seq<ResourceSpans>>)
    ensures order == Tenants(rss) && forall t :: t in byTenant <==> t in order
    ensures forall t :: (if t in byTenant then byTenant[t] else []) == Owned(rss, t)
  {
    order, byTenant := [], map[];
    for i := 0 to |rss|
      invariant order == Tenants(rss[..i])
      invariant forall t :: t in byTenant <==> t in order
      invariant forall t :: (if t in byTenant then byTenant[t] else []) == Owned(rss[..i], t)
    {
      var tenant := ReadTenant(rss[i].attributes);
      assert rss[..i + 1][..i] == rss[..i];
      if tenant !in byTenant {
        order := order + [tenant];
        byTenant := byTenant[tenant := []];
      }
      byTenant := byTenant[tenant := byTenant[tenant] + [rss[i]]];
    }
    assert rss[..|rss|] == rss;
  }

  class Archiver {
    const w: World
    const batch: ArchiveBatch
    const outside: Outside
    var running: bool
    var objectsWritten: nat
    ghost var base: seq<nat>
    ghost var failed: bool

    constructor (w: World, batch: ArchiveBatch, outside: Outside)
      ensures this.w == w && this.batch == batch && this.outside == outside
      ensures running && !failed && base == outside.position
    {
      this.w, this.batch, this.outside := w, batch, outside;
      running, objectsWritten, failed, base := true, 0, false, outside.position;
    }

    ghost predicate Valid()
      reads this, batch, outside
    {
      && Listed(batch.groups) && |outside.position| == |w.logs|
    }

    ghost function Knobs(): Limits
      reads this, batch
    {
      Limits(batch.maxMessages, batch.maxSeconds, batch.maxBytes)
    }

    ghost function Held(): Fill
      reads this, batch
    {
      Fill(batch.count, batch.size, batch.openedAt)
    }

    ghost function Abs(): State
      reads this, batch, outside
    {
      State(outside.position, outside.committed, base, batch.groups, outside.objects, failed)
    }

    /** One put per group, in order. Stops where a put raises, or at a group with a payload too long
        to frame, which raises just the same. */
    method PutGroups(hour: ArchiveKey.UtcHour, outcome: Outcome) returns (puts: nat)
      requires Valid() && batch.groups.at != map[]
      modifies outside`objects, this`objectsWritten
      ensures puts == PutsDone(batch.groups, outcome, 0)
      ensures outside.objects == PutFirst(old(outside.objects), batch.groups, hour, puts)
      ensures objectsWritten == old(objectsWritten) + puts
    {
      hide PutFirst, ObjectName;
      var groups := batch.groups;
      puts := 0;
      SomeKey(groups);
      FirstPut(outside.objects, groups, hour);
      while puts < |groups.order|
        invariant puts <= |groups.order|
        invariant outside.objects == PutFirst(old(outside.objects), groups, hour, puts)
        invariant objectsWritten == old(objectsWritten) + puts
        invariant PutsDone(groups, outcome, 0) == PutsDone(groups, outcome, puts)
      {
        var key := groups.order[puts];
        var blob := Frame(groups.at[key].payloads);
        if blob.None? || (outcome.PutRaised? && (outcome.puts == puts || puts == |groups.order| - 1)) {
          return;
        }
        NextPut(old(outside.objects), groups, hour, puts);
        outside.Put(ObjectName(key, groups.at[key], hour), groups.at[key].payloads);
        objectsWritten := objectsWritten + 1;
        puts := puts + 1;
      }
    }

    /** One object per group, and only then the commit. */
    method Flush(hour: ArchiveKey.UtcHour, outcome: Outcome, now: real) returns (raised: bool)
      requires Valid()
      modifies batch, outside`objects, outside`committed, this`base, this`failed, this`objectsWritten
      ensures Valid() && Abs() == FlushSpec(w, old(Abs()), hour, Effective(old(batch.groups), outcome))
      ensures raised <==> old(batch.groups.at) != map[] && Effective(old(batch.groups), outcome) != Done
      ensures Held() == if raised then old(Held()) else Fill(0, 0, now)
      ensures !raised ==> failed == old(failed)
    {
      hide PutFirst;
      raised := false;
      if batch.groups.at == map[] {
        batch.Reset(now);
        base := outside.position;
        return;
      }
      PutsDoneStops(batch.groups, outcome, 0);
      SomeKey(batch.groups);
      var puts := PutGroups(hour, outcome);
      if puts < |batch.groups.order| {
        raised, failed := true, true;
        return;
      }
      if outcome.CommitRaised? {
        if outcome.applied { outside.committed := outside.position; }
        raised, failed := true, true;
        return;
      }
      outside.committed := outside.position;
      base := outside.position;
      batch.Reset(now);
    }

    method AddParts(parts: seq<Part>, p: nat, o: nat)
      modifies batch
      ensures batch.groups == AddAll(old(batch.groups), parts, p, o)
      ensures Held() == old(Held()).(count := old(batch.count) + |parts|, size := old(batch.size) + TotalBytes(parts))
    {
      for i := 0 to |parts|
        invariant batch.groups == AddAll(old(batch.groups), parts[..i], p, o)
        invariant batch.count == old(batch.count) + i && batch.openedAt == old(batch.openedAt)
        invariant batch.size == old(batch.size) + TotalBytes(parts[..i])
      {
        assert parts[..i + 1][..i] == parts[..i];
        batch.Add(parts[i].tenant, parts[i].payload, p, o);
      }
      assert parts[..|parts|] == parts;
    }

    /** Poll returned the next message of `p`: the consumer moves past it and its parts join the batch. */
    method Receive(p: nat)
      requires Valid() && p < |w.logs| && outside.position[p] < |w.logs[p]|
      modifies batch, outside`position
      ensures Valid() && Abs() == DeliverSpec(w, old(Abs()), p)
      ensures var parts := Parts(w, w.logs[p][old(outside.position[p])]);
        Held() == old(Held()).(count := old(batch.count) + |parts|, size := old(batch.size) + TotalBytes(parts))
    {
      var o := outside.position[p];
      outside.position := outside.position[p := o + 1];
      var payload := w.logs[p][o];
      if payload == [] { return; }
      var parts: seq<Part>;
      match w.parse(payload) {
        case None => parts := [Part(UNKNOWN, payload)];
        case Some(rss) => parts := SplitByTenant(w, rss);
      }
      AddParts(parts, p, o);
      AddAllListed(old(batch.groups), parts, p, o);
    }

    /** One turn of the loop: the polled message's parts join the batch, then a flush if one is due. A
        partition end skips the flush check, and a broker error ends the loop. */
    method Turn(tick: Tick) returns (raised: bool, ghost events: seq<Event>)
      requires Valid() && running && !failed
      modifies this, batch, outside
      ensures Valid() && Abs() == ArchiverSpec.Run(w, old(Abs()), events) && running && (!raised ==> !failed)
      ensures events == TickEvents(w, Knobs(), old(Abs()), old(Held()), tick)
      ensures raised <==> tick.polled.BrokerError? || FlushRaises(w, old(Abs()), events)
      ensures Held() == FilledAfter(w, Knobs(), old(Abs()), old(Held()), tick)
    {
      hide ArchiverSpec.Run, DeliverSpec, FlushSpec, Effective, Parts;
      raised, events := false, [];
      RunNone(w, Abs());
      match tick.polled {
        case EndOfPartition => return;
        case BrokerError =>
          raised := true;
          return;
        case Nothing =>
        case Message(p) =>
          if p < |w.logs| && outside.position[p] < |w.logs[p]| {
            Receive(p);
            events := [Deliver(p)];
            RunOne(w, old(Abs()), Deliver(p));
            DeliverStep(w, old(Abs()), p);
          }
      }
      if batch.Full(tick.now) {
        ghost var before := Abs();
        ghost var flush := Event.Flush(tick.hour, Effective(batch.groups, tick.outcome));
        raised := Flush(tick.hour, tick.outcome, tick.now);
        RunOne(w, before, flush);
        FlushStep(w, before, tick.hour, flush.outcome);
        RunConcat(w, old(Abs()), events, [flush]);
        assert (events + [flush])[..|events|] == events;
        events := events + [flush];
      }
    }

    /** The loop and its final flush: the turns' events in order, up to the first that raises, and then one
        last flush. */
    method Run(script: seq<Tick>, hour: ArchiveKey.UtcHour, last: Outcome, end: real) returns (raised: bool, ghost events: seq<Event>)
      requires Valid() && running && !failed
      modifies this, batch, outside
      ensures Valid() && Abs() == ArchiverSpec.Run(w, old(Abs()), events)
      ensures var turns := Looped(w, Knobs(), old(Abs()), old(Held()), script);
        var t := ArchiverSpec.Run(w, old(Abs()), turns.events);
        && events == turns.events + [Event.Flush(hour, Effective(t.groups, last))]
        && (raised <==> turns.raised || (t.groups.at != map[] && Effective(t.groups, last) != Done))
    {
      events, raised := [], false;
      var i := 0;
      ghost var start, held := Abs(), Held();
      while running && !raised && i < |script|
        invariant 0 <= i <= |script| && Valid() && running && (!raised ==> !failed)
        invariant Abs() == ArchiverSpec.Run(w, start, events)
        invariant Looped(w, Knobs(), start, held, script[..i]) == Loop(events, Held(), raised)
        decreases |script| - i
      {
        ghost var turn: seq<Event>;
        assert script[..i + 1][..i] == script[..i];
        raised, turn := Turn(script[i]);
        RunConcat(w, start, events, turn);
        events := events + turn;
        i := i + 1;
      }
      LoopIsOver(w, Knobs(), start, held, script, i);
      ghost var before := Abs();
      ghost var flush := Event.Flush(hour, Effective(batch.groups, last));
      var failing := Flush(hour, last, end);
      raised := raised || failing;
      RunOne(w, before, flush);
      FlushStep(w, before, hour, flush.outcome);
      RunConcat(w, start, events, [flush]);
      events := events + [flush];
    }
  }

  lemma {:induction false} LoopIsOver(w: World, limits: Limits, start: State, fill: Fill, script: seq<Tick>, n: nat)
    requires n <= |script| && Listed(start.groups)
    requires n < |script| ==> Looped(w, limits, start, fill, script[..n]).raised
    ensures Looped(w, limits, start, fill, script) == Looped(w, limits, start, fill, script[..n])
  {
    hide TickEvents, ArchiverSpec.Run;
    if n == |script| {
      assert script[..n] == script;
    } else {
      var front := script[..|script| - 1];
      assert front[..n] == script[..n];
      LoopIsOver(w, limits, start, fill, front, n);
    }
  }

  lemma RunNone(w: World, s: State)
    requires Listed(s.groups)
    ensures ArchiverSpec.Run(w, s, []) == s
  {}

  lemma DeliverStep(w: World, s: State, p: nat)
    requires Listed(s.groups) && !s.failed && Available(w, s, p)
    ensures Step(w, s, Deliver(p)) == DeliverSpec(w, s, p)
  {}

  lemma FlushStep(w: World, s: State, hour: ArchiveKey.UtcHour, outcome: Outcome)
    requires Listed(s.groups)
    ensures Step(w, s, Event.Flush(hour, outcome)) == FlushSpec(w, s, hour, outcome)
  {}

  lemma SomeKey(g: Groups)
    requires Listed(g) && g.at != map[]
    ensures g.order != []
  {
    var k :| k in g.at;
    assert k in g.order;
  }

  lemma FirstPut(store: Store, g: Groups, hour: ArchiveKey.UtcHour)
    requires Listed(g)
    ensures PutFirst(store, g, hour, 0) == store
  {}

  lemma NextPut(store: Store, g: Groups, hour: ArchiveKey.UtcHour, n: nat)
    requires Listed(g) && n < |g.order|
    ensures g.order[n] in g.at
    ensures PutFirst(store, g, hour, n + 1)
         == PutFirst(store, g, hour, n)[ObjectName(g.order[n], g.at[g.order[n]], hour) := g.at[g.order[n]].payloads]
  {}

  lemma RunOne(w: World, s: State, e: Event)
    requires Listed(s.groups)
    ensures ArchiverSpec.Run(w, s, [e]) == Step(w, s, e)
  {
    assert [e][..0] == [];
  }
}
