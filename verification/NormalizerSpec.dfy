// The Kafka -> ClickHouse normalizer as a crashable state machine.
//
// `World` is what a run cannot change: the topic, its partition logs (contiguous offsets from 0)
// and the normalizer. `State` is what it can: the consumer's position, the group's committed
// offsets, the open batch, the span store and the dead letters.
module NormalizerSpec {
  import opened Basics
  import opened Text
  import opened DedupToken

  type Payload = string
  type Attributes = map<string, string>

  datatype DecodedSpan = DecodedSpan(traceId: string, spanId: string, resource: Attributes, attributes: Attributes)

  datatype Decoded = Spans(spans: seq<DecodedSpan>) | DecodeError | UnexpectedError

  datatype SpanKey = SpanKey(tenant: string, project: string, traceId: string, spanId: string)

  datatype SpanRow = SpanRow(key: SpanKey, version: nat, partition: nat, offset: nat, columns: Attributes)

  datatype Reason = DecodeFailed | Unexpected | NormalizeFailed

  datatype DeadLetter = DeadLetter(reason: Reason, partition: nat, offset: nat, payload: Payload)

  /** The decoder and the row builder: deterministic, and free to fail on any input.
      `columns` gives every column that does not depend on the message's position. */
  datatype Codec = Codec(decode: Payload -> Decoded, columns: DecodedSpan -> Option<Attributes>, version: nat)

  datatype World = World(topic: string, logs: seq<seq<Payload>>, codec: Codec)

  datatype Store = Store(table: seq<SpanRow>, tokens: set<string>)

  datatype State = State(
    position: seq<nat>,
    committed: seq<nat>,
    rows: seq<SpanRow>,
    offsets: Ranges,
    store: Store,
    dead: seq<DeadLetter>,
    failed: bool)  // a flush has raised: only the shutdown flush and the end of the process remain

  // ------------------------------------------------------------ one message

  function OrLocal(resource: Attributes, name: string): string {
    if name in resource && resource[name] != "" then resource[name] else "local"
  }

  /** `SpanNormalizer.to_row`; `None` when it raises. */
  function ToRow(codec: Codec, span: DecodedSpan, partition: nat, offset: nat): Option<SpanRow> {
    match codec.columns(span)
    case None => None
    case Some(columns) =>
      var key := SpanKey(OrLocal(span.resource, "tenant.id"), OrLocal(span.resource, "project.id"),
                         span.traceId, span.spanId);
      Some(SpanRow(key, codec.version, partition, offset, columns))
  }

  /** What a row says of its span: whose it is, which span it is, and where it came from. */
  lemma RowReads(codec: Codec, span: DecodedSpan, partition: nat, offset: nat)
    requires ToRow(codec, span, partition, offset).Some?
    ensures var r := ToRow(codec, span, partition, offset).value; var of := span.resource;
      && r.key.tenant == (if "tenant.id" in of && of["tenant.id"] != "" then of["tenant.id"] else "local")
      && r.key.project == (if "project.id" in of && of["project.id"] != "" then of["project.id"] else "local")
      && r.key.traceId == span.traceId && r.key.spanId == span.spanId
      && r.version == codec.version && r.partition == partition && r.offset == offset
      && codec.columns(span) == Some(r.columns)
  {}

  function RowsOf(codec: Codec, spans: seq<DecodedSpan>, partition: nat, offset: nat): seq<SpanRow> {
    if spans == [] then []
    else
      var front := RowsOf(codec, spans[..|spans| - 1], partition, offset);
      match ToRow(codec, spans[|spans| - 1], partition, offset)
      case None => front
      case Some(row) => front + [row]
  }

  function Rejects(codec: Codec, spans: seq<DecodedSpan>, partition: nat, offset: nat, payload: Payload): seq<DeadLetter> {
    if spans == [] then []
    else
      var front := Rejects(codec, spans[..|spans| - 1], partition, offset, payload);
      match ToRow(codec, spans[|spans| - 1], partition, offset)
      case None => front + [DeadLetter(NormalizeFailed, partition, offset, payload)]
      case Some(_) => front
  }

  predicate Logged(w: World, p: nat, o: nat) {
    p < |w.logs| && o < |w.logs[p]|
  }

  /** The rows one message contributes. */
  function MessageRows(w: World, p: nat, o: nat): seq<SpanRow> {
    if !Logged(w, p, o) then []
    else
      match w.codec.decode(w.logs[p][o])
      case Spans(spans) => RowsOf(w.codec, spans, p, o)
      case _ => []
  }

  /** The dead letters one message contributes. */
  function MessageDead(w: World, p: nat, o: nat): seq<DeadLetter> {
    if !Logged(w, p, o) then []
    else
      var payload := w.logs[p][o];
      match w.codec.decode(payload)
      case Spans(spans) => Rejects(w.codec, spans, p, o, payload)
      case DecodeError => [DeadLetter(DecodeFailed, p, o, payload)]
      case UnexpectedError => [DeadLetter(Unexpected, p, o, payload)]
  }

  // ---------------------------------------------------------------- the steps

  datatype Outcome =
    | Done                          // insert and commit both returned
    | InsertRaised(applied: bool)   // the insert raised, having taken effect or not
    | CommitRaised(applied: bool)   // the commit raised, having taken effect or not

  datatype Event =
    | Deliver(partition: nat)       // poll returns that partition's next message and it is handled
    | Flush(outcome: Outcome)
    | Restart                       // the process ends, by crash or exit, and another starts

  function Initial(w: World, store: Store): State {
    var zeros := seq(|w.logs|, _ => 0);
    State(zeros, zeros, [], map[], store, [], false)
  }

  /** An insert under a token: a used token makes it a no-op, an empty batch never reaches the server. */
  function Insert(store: Store, rows: seq<SpanRow>, token: string): Store {
    if rows == [] || token in store.tokens then store
    else Store(store.table + rows, store.tokens + {token})
  }

  function DeliverSpec(w: World, s: State, p: nat): State
    requires p < |w.logs| && p < |s.position| && s.position[p] < |w.logs[p]|
  {
    var o := s.position[p];
    s.(position := s.position[p := o + 1],
       rows := s.rows + MessageRows(w, p, o),
       dead := s.dead + MessageDead(w, p, o),
       offsets := Track(s.offsets, p, o))
  }

  function FlushSpec(w: World, s: State, outcome: Outcome): State {
    if s.offsets == map[] then s
    else
      var inserted := Insert(s.store, s.rows, Token(w.topic, s.offsets));
      match outcome
      case Done => s.(store := inserted, committed := s.position, rows := [], offsets := map[])
      case InsertRaised(applied) => s.(store := if applied then inserted else s.store, failed := true)
      case CommitRaised(applied) =>
        s.(store := inserted, committed := if applied then s.position else s.committed, failed := true)
  }

  function Step(w: World, s: State, e: Event): State {
    match e
    case Deliver(p) =>
      if !s.failed && p < |w.logs| && p < |s.position| && s.position[p] < |w.logs[p]|
      then DeliverSpec(w, s, p) else s
    case Flush(outcome) => FlushSpec(w, s, outcome)
    case Restart => s.(position := s.committed, rows := [], offsets := map[], failed := false)
  }

  function Run(w: World, s: State, events: seq<Event>): State {
    if events == [] then s
    else Step(w, Run(w, s, events[..|events| - 1]), events[|events| - 1])
  }

  lemma {:induction false} RunConcat(w: World, s: State, a: seq<Event>, b: seq<Event>)
    ensures Run(w, s, a + b) == Run(w, Run(w, s, a), b)
  {
    if b == [] {
      assert a + b == a;
    } else {
      var front := b[..|b| - 1];
      assert (a + b)[..|a + b| - 1] == a + front;
      RunConcat(w, s, a, front);
    }
  }

  // -------------------------------------------------------------- window rows

  /** Rows of messages lo, ..., end - 1 of one partition. */
  ghost function RangeRows(w: World, p: nat, lo: nat, end: nat): multiset<SpanRow>
  {
    if lo >= end then multiset{}
    else RangeRows(w, p, lo, end - 1) + multiset(MessageRows(w, p, end - 1))
  }

  ghost function PartitionRows(w: World, ranges: Ranges, p: nat): multiset<SpanRow>
  {
    if p in ranges then RangeRows(w, p, ranges[p].lo, ranges[p].hi + 1) else multiset{}
  }

  /** Rows of all messages in the ranges of partitions below n. */
  ghost function WindowRows(w: World, ranges: Ranges, n: nat): multiset<SpanRow>
  {
    if n == 0 then multiset{} else WindowRows(w, ranges, n - 1) + PartitionRows(w, ranges, n - 1)
  }

  lemma {:induction false} InEither<T>(x: multiset<T>, y: multiset<T>, t: T)
    requires t in x || t in y
    ensures t in x + y
  {}

  lemma {:induction false} InRange(w: World, p: nat, lo: nat, end: nat, o: nat, r: SpanRow)
    requires lo <= o < end
    requires r in MessageRows(w, p, o)
    ensures r in RangeRows(w, p, lo, end)
  {
    hide MessageRows;
    if o < end - 1 {
      InRange(w, p, lo, end - 1, o, r);
    }
    InEither(RangeRows(w, p, lo, end - 1), multiset(MessageRows(w, p, end - 1)), r);
  }

  lemma {:induction false} InWindow(w: World, ranges: Ranges, n: nat, p: nat, o: nat, r: SpanRow)
    requires p < n && p in ranges && ranges[p].lo <= o <= ranges[p].hi
    requires r in MessageRows(w, p, o)
    ensures r in WindowRows(w, ranges, n)
  {
    hide MessageRows;
    if p == n - 1 {
      InRange(w, p, ranges[p].lo, ranges[p].hi + 1, o, r);
    } else {
      InWindow(w, ranges, n - 1, p, o, r);
    }
    InEither(WindowRows(w, ranges, n - 1), PartitionRows(w, ranges, n - 1), r);
  }

  lemma {:induction false} RangeOrigin(w: World, p: nat, lo: nat, end: nat, r: SpanRow) returns (o: nat)
    requires r in RangeRows(w, p, lo, end)
    ensures lo <= o < end && r in MessageRows(w, p, o)
  {
    hide MessageRows;
    if r in MessageRows(w, p, end - 1) {
      o := end - 1;
    } else {
      o := RangeOrigin(w, p, lo, end - 1, r);
    }
  }

  lemma {:induction false} WindowOrigin(w: World, ranges: Ranges, n: nat, r: SpanRow) returns (p: nat, o: nat)
    requires r in WindowRows(w, ranges, n)
    ensures p < n && p in ranges && ranges[p].lo <= o <= ranges[p].hi && r in MessageRows(w, p, o)
  {
    hide MessageRows;
    if r in WindowRows(w, ranges, n - 1) {
      p, o := WindowOrigin(w, ranges, n - 1, r);
    } else {
      p := n - 1;
      o := RangeOrigin(w, p, ranges[p].lo, ranges[p].hi + 1, r);
    }
  }

  lemma {:induction false} PartitionGrows(w: World, before: Ranges, p: nat, o: nat, q: nat)
    requires p in before ==> before[p].lo <= before[p].hi && before[p].hi + 1 == o
    ensures PartitionRows(w, Track(before, p, o), q)
         == if q == p then PartitionRows(w, before, q) + multiset(MessageRows(w, p, o)) else PartitionRows(w, before, q)
  {
    hide MessageRows;
    if q == p {
      var lo := if p in before then before[p].lo else o;
      assert Track(before, p, o)[p] == Bounds(lo, o);
      assert RangeRows(w, p, lo, o + 1) == RangeRows(w, p, lo, o) + multiset(MessageRows(w, p, o));
    }
  }

  lemma {:induction false} RegroupLast<T>(x: multiset<T>, y: multiset<T>, z: multiset<T>)
    ensures x + (y + z) == x + y + z
  {}

  /** Windows that differ in one partition's rows differ by those rows. */
  lemma {:induction false} WindowsDiffer(w: World, a: Ranges, b: Ranges, p: nat, m: multiset<SpanRow>, n: nat)
    requires forall q :: 0 <= q < n && q != p ==> PartitionRows(w, b, q) == PartitionRows(w, a, q)
    requires p < n ==> PartitionRows(w, b, p) == PartitionRows(w, a, p) + m
    ensures WindowRows(w, b, n) == if p < n then WindowRows(w, a, n) + m else WindowRows(w, a, n)
  {
    hide MessageRows;
    if n > 0 {
      var q := n - 1;
      WindowsDiffer(w, a, b, p, m, q);
      if p < q {
        SwapLast(WindowRows(w, a, q), m, PartitionRows(w, a, q));
      } else if p == q {
        RegroupLast(WindowRows(w, a, q), PartitionRows(w, a, q), m);
      }
    }
  }

  /** Handling the next message of partition p adds exactly its rows to the window. */
  lemma {:induction false} WindowGrows(w: World, before: Ranges, p: nat, o: nat)
    requires p < |w.logs|
    requires p in before ==> before[p].lo <= before[p].hi && before[p].hi + 1 == o
    ensures WindowRows(w, Track(before, p, o), |w.logs|)
         == WindowRows(w, before, |w.logs|) + multiset(MessageRows(w, p, o))
  {
    var after := Track(before, p, o);
    PartitionGrows(w, before, p, o, p);
    forall q | 0 <= q < |w.logs| && q != p ensures PartitionRows(w, after, q) == PartitionRows(w, before, q) {
      PartitionGrows(w, before, p, o, q);
    }
    WindowsDiffer(w, before, after, p, multiset(MessageRows(w, p, o)), |w.logs|);
  }

  lemma {:induction false} EmptyWindow(w: World, n: nat)
    ensures WindowRows(w, map[], n) == multiset{}
  {
    if n > 0 {
      EmptyWindow(w, n - 1);
    }
  }

  lemma {:induction false} RowPosition(codec: Codec, spans: seq<DecodedSpan>, p: nat, o: nat, r: SpanRow)
    requires r in RowsOf(codec, spans, p, o)
    ensures r.partition == p && r.offset == o && r.version == codec.version
  {
    var front := RowsOf(codec, spans[..|spans| - 1], p, o);
    if r in front {
      RowPosition(codec, spans[..|spans| - 1], p, o, r);
    }
  }

  lemma {:induction false} MessageRowPosition(w: World, p: nat, o: nat, r: SpanRow)
    requires r in MessageRows(w, p, o)
    ensures r.partition == p && r.offset == o && r.version == w.codec.version
  {
    RowPosition(w.codec, w.codec.decode(w.logs[p][o]).spans, p, o, r);
  }

  /** `r` is produced by some message of the log. */
  ghost predicate LogRow(w: World, r: SpanRow) {
    r in MessageRows(w, r.partition, r.offset)
  }
}
