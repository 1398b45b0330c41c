// The raw archiver as a crashable state machine over an object store with overwriting puts.
//
// An object's content is its list of payloads; `Framing` gives the bytes and shows they determine it.
module ArchiverSpec {
  import opened Basics
  import opened Text
  import opened Framing
  import opened ArchiveKey
  import opened Otlp

  /** Partition logs and the protobuf library. `parse` is `None` when it raises. */
  datatype World = World(
    logs: seq<seq<Bytes>>,
    parse: Bytes -> Option<seq<ResourceSpans>>,
    serialize: seq<ResourceSpans> -> Bytes)

  datatype Part = Part(tenant: string, payload: Bytes)

  // ------------------------------------------------------------- one message

  /** Tenants in order of first appearance. */
  function Tenants(rss: seq<ResourceSpans>): seq<string> {
    if rss == [] then []
    else
      var front, t := Tenants(rss[..|rss| - 1]), FirstTenant(rss[|rss| - 1].attributes);
      if t in front then front else front + [t]
  }

  /** One tenant's ResourceSpans, in order. */
  function Owned(rss: seq<ResourceSpans>, tenant: string): seq<ResourceSpans> {
    if rss == [] then []
    else
      var front, last := Owned(rss[..|rss| - 1], tenant), rss[|rss| - 1];
      if FirstTenant(last.attributes) == tenant then front + [last] else front
  }

  function Serialized(w: World, rss: seq<ResourceSpans>, tenants: seq<string>): seq<Part> {
    if tenants == [] then []
    else
      Serialized(w, rss, tenants[..|tenants| - 1]) +
      [Part(tenants[|tenants| - 1], w.serialize(Owned(rss, tenants[|tenants| - 1])))]
  }

  /** What one message contributes: nothing when empty, itself under `unknown` when undecodable,
      else one payload per tenant. */
  function Parts(w: World, payload: Bytes): seq<Part> {
    if payload == [] then []
    else
      match w.parse(payload)
      case None => [Part(UNKNOWN, payload)]
      case Some(rss) => Serialized(w, rss, Tenants(rss))
  }

  function PayloadsOf(parts: seq<Part>, tenant: string): seq<Bytes> {
    if parts == [] then []
    else
      var front, last := PayloadsOf(parts[..|parts| - 1], tenant), parts[|parts| - 1];
      if last.tenant == tenant then front + [last.payload] else front
  }

  /** One tenant's payloads in message o of partition p. */
  function PartsAt(w: World, t: string, p: nat, o: nat): seq<Bytes> {
    if p < |w.logs| && o < |w.logs[p]| then PayloadsOf(Parts(w, w.logs[p][o]), t) else []
  }

  /** One tenant's payloads in messages lo, ..., end - 1 of partition p, in offset order. */
  function Range(w: World, t: string, p: nat, lo: nat, end: nat): seq<Bytes> {
    if lo >= end then [] else Range(w, t, p, lo, end - 1) + PartsAt(w, t, p, end - 1)
  }

  // ------------------------------------------------------------------ the batch

  datatype GroupKey = GroupKey(tenant: string, partition: nat)

  datatype Group = Group(payloads: seq<Bytes>, first: nat, last: nat)

  /** An insertion-ordered dict: the keys in order, and the mapping. */
  datatype Groups = Groups(order: seq<GroupKey>, at: map<GroupKey, Group>)

  const EMPTY: Groups := Groups([], map[])

  function Add(g: Groups, part: Part, p: nat, o: nat): Groups {
    var k := GroupKey(part.tenant, p);
    if k !in g.at then Groups(g.order + [k], g.at[k := Group([part.payload], o, o)])
    else
      var was := g.at[k];
      Groups(g.order, g.at[k := Group(was.payloads + [part.payload], Min(was.first, o), Max(was.last, o))])
  }

  function AddAll(g: Groups, parts: seq<Part>, p: nat, o: nat): Groups {
    if parts == [] then g
    else Add(AddAll(g, parts[..|parts| - 1], p, o), parts[|parts| - 1], p, o)
  }

  // ------------------------------------------------------------------ the steps

  type Store = map<string, seq<Bytes>>

  datatype State = State(
    position: seq<nat>,
    committed: seq<nat>,
    base: seq<nat>,       // the position when the open batch began
    groups: Groups,
    store: Store,
    failed: bool)

  datatype Outcome =
    | Done
    | PutRaised(puts: nat)          // the put after this many raised
    | CommitRaised(applied: bool)   // the commit raised, having taken effect or not

  datatype Event = Deliver(partition: nat) | Flush(hour: UtcHour, outcome: Outcome) | Restart

  function Initial(w: World): State {
    var zeros := seq(|w.logs|, _ => 0);
    State(zeros, zeros, zeros, EMPTY, map[], false)
  }

  function ObjectName(k: GroupKey, g: Group, hour: UtcHour): string {
    Key(k.tenant, hour, k.partition, g.first, g.last)
  }

  ghost predicate Listed(g: Groups) {
    forall k :: k in g.order <==> k in g.at
  }

  /** Puts of the first n groups. */
  function PutFirst(store: Store, g: Groups, hour: UtcHour, n: nat): Store
    requires Listed(g) && n <= |g.order|
  {
    if n == 0 then store
    else
      var k := g.order[n - 1];
      PutFirst(store, g, hour, n - 1)[ObjectName(k, g.at[k], hour) := g.at[k].payloads]
  }

  function DeliverSpec(w: World, s: State, p: nat): State
    requires p < |w.logs| && p < |s.position| && s.position[p] < |w.logs[p]|
  {
    var o := s.position[p];
    s.(position := s.position[p := o + 1], groups := AddAll(s.groups, Parts(w, w.logs[p][o]), p, o))
  }

  /** A flush with nothing grouped commits nothing and only starts a new batch. */
  function FlushSpec(w: World, s: State, hour: UtcHour, outcome: Outcome): State
    requires Listed(s.groups)
  {
    if s.groups.at == map[] then s.(base := s.position, groups := EMPTY)
    else
      var n := |s.groups.order|;
      match outcome
      case PutRaised(puts) => s.(store := PutFirst(s.store, s.groups, hour, Min(puts, n - 1)), failed := true)
      case CommitRaised(applied) =>
        s.(store := PutFirst(s.store, s.groups, hour, n),
           committed := if applied then s.position else s.committed, failed := true)
      case Done =>
        s.(store := PutFirst(s.store, s.groups, hour, n), committed := s.position, base := s.position, groups := EMPTY)
  }

  function Step(w: World, s: State, e: Event): State
    requires Listed(s.groups)
  {
    match e
    case Deliver(p) =>
      if !s.failed && p < |w.logs| && p < |s.position| && s.position[p] < |w.logs[p]|
      then DeliverSpec(w, s, p) else s
    case Flush(hour, outcome) => FlushSpec(w, s, hour, outcome)
    case Restart => s.(position := s.committed, base := s.committed, groups := EMPTY, failed := false)
  }

  lemma {:induction false} AddAllListed(g: Groups, parts: seq<Part>, p: nat, o: nat)
    requires Listed(g)
    ensures Listed(AddAll(g, parts, p, o))
  {
    if parts != [] {
      AddAllListed(g, parts[..|parts| - 1], p, o);
    }
  }

  lemma {:induction false} StepListed(w: World, s: State, e: Event)
    requires Listed(s.groups)
    ensures Listed(Step(w, s, e).groups)
  {
    if e.Deliver? && !s.failed && e.partition < |w.logs| && e.partition < |s.position|
       && s.position[e.partition] < |w.logs[e.partition]| {
      var o := s.position[e.partition];
      AddAllListed(s.groups, Parts(w, w.logs[e.partition][o]), e.partition, o);
    }
  }

  function Run(w: World, s: State, events: seq<Event>): (t: State)
    requires Listed(s.groups)
    ensures Listed(t.groups)
  {
    if events == [] then s
    else
      var t := Run(w, s, events[..|events| - 1]);
      StepListed(w, t, events[|events| - 1]);
      Step(w, t, events[|events| - 1])
  }

  lemma {:induction false} RunConcat(w: World, s: State, a: seq<Event>, b: seq<Event>)
    requires Listed(s.groups)
    ensures Run(w, s, a + b) == Run(w, Run(w, s, a), b)
  {
    hide Step;
    if b == [] {
      assert a + b == a;
    } else {
      var front := b[..|b| - 1];
      assert (a + b)[..|a + b| - 1] == a + front;
      RunConcat(w, s, a, front);
    }
  }

  // ------------------------------------------------------------- range algebra

  lemma {:induction false} RangeStep(w: World, t: string, p: nat, lo: nat, o: nat)
    requires lo <= o
    ensures Range(w, t, p, lo, o + 1) == Range(w, t, p, lo, o) + PartsAt(w, t, p, o)
  {
    hide PartsAt;
  }

  lemma {:induction false} RangeEmpty(w: World, t: string, p: nat, o: nat)
    ensures Range(w, t, p, o, o) == []
  {
    hide PartsAt;
  }

  lemma {:induction false} RangeSplit(w: World, t: string, p: nat, lo: nat, mid: nat, end: nat)
    requires lo <= mid <= end
    ensures Range(w, t, p, lo, end) == Range(w, t, p, lo, mid) + Range(w, t, p, mid, end)
    decreases end
  {
    hide PartsAt;
    if mid < end {
      RangeSplit(w, t, p, lo, mid, end - 1);
    }
  }

  lemma {:induction false} InRange(w: World, t: string, p: nat, lo: nat, end: nat, o: nat, b: Bytes)
    requires lo <= o < end && b in PartsAt(w, t, p, o)
    ensures b in Range(w, t, p, lo, end)
  {
    hide PartsAt;
    if o < end - 1 {
      InRange(w, t, p, lo, end - 1, o, b);
    }
  }

  lemma {:induction false} RangeOrigin(w: World, t: string, p: nat, lo: nat, end: nat, b: Bytes) returns (o: nat)
    requires b in Range(w, t, p, lo, end)
    ensures lo <= o < end && b in PartsAt(w, t, p, o)
  {
    hide PartsAt;
    if b in PartsAt(w, t, p, end - 1) {
      o := end - 1;
    } else {
      o := RangeOrigin(w, t, p, lo, end - 1, b);
    }
  }
}
