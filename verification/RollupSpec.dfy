// The minute rollup: cells maintained incrementally by insert batches and background merges,
// against the one-shot aggregate over the latest version of every span.
module RollupSpec {
  import opened Basics
  import opened Text

  datatype SpanId = SpanId(tenant: string, project: string, trace: string, span: string)

  datatype Dims = Dims(service: string, mcpMethod: string, tool: string, category: string)

  /** A stored span version; the timestamp and the duration are in nanoseconds. */
  datatype Row = Row(
    id: SpanId, version: nat, timestamp: nat, dims: Dims,
    duration: nat, isError: bool, eligible: bool, helper: bool)

  const MINUTE: nat := 60_000_000_000
  const MINUTES_PER_DAY: nat := 1440

  /** Number of the minute, and of the day, a timestamp falls in. */
  function MinuteOf(timestamp: nat): nat { timestamp / MINUTE }
  function DayOf(timestamp: nat): nat { timestamp / (MINUTE * MINUTES_PER_DAY) }

  /** The rollup's sorting key: one cell per minute and combination of dimensions. */
  datatype CellKey = CellKey(tenant: string, project: string, minute: nat, dims: Dims)

  function KeyOf(r: Row): CellKey {
    CellKey(r.id.tenant, r.id.project, MinuteOf(r.timestamp), r.dims)
  }

  /** The partition a cell lives in. */
  function DayOfCell(k: CellKey): nat {
    k.minute / MINUTES_PER_DAY
  }

  // ---------------------------------------------------------------------- cells

  /** `latency` stands for the quantile state: the eligible durations themselves. */
  datatype Cell = Cell(
    calls: nat, errors: nat, latency: multiset<nat>, latencyCount: nat, latencyMax: nat,
    zeroDuration: nat, minTick: Option<nat>, helperClassified: nat, lastSeen: nat)

  const ZERO: Cell := Cell(0, 0, multiset{}, 0, 0, 0, None, 0, 0)

  function LeastTick(a: Option<nat>, b: Option<nat>): Option<nat> {
    match (a, b)
    case (None, _) => b
    case (_, None) => a
    case (Some(x), Some(y)) => Some(if x <= y then x else y)
  }

  function CountIf(b: bool): nat { if b then 1 else 0 }

  /** What one row contributes to its cell. */
  function Unit(r: Row): Cell {
    Cell(1, CountIf(r.isError),
         if r.eligible then multiset{r.duration} else multiset{},
         CountIf(r.eligible),
         if r.eligible then r.duration else 0,
         CountIf(r.eligible && r.duration == 0),
         if r.eligible && r.duration > 0 then Some(r.duration) else None,
         CountIf(r.helper), r.timestamp)
  }

  function Plus(a: Cell, b: Cell): Cell {
    Cell(a.calls + b.calls, a.errors + b.errors, a.latency + b.latency,
         a.latencyCount + b.latencyCount, Max(a.latencyMax, b.latencyMax),
         a.zeroDuration + b.zeroDuration, LeastTick(a.minTick, b.minTick),
         a.helperClassified + b.helperClassified, Max(a.lastSeen, b.lastSeen))
  }

  lemma PlusAssociative(a: Cell, b: Cell, c: Cell)
    ensures Plus(Plus(a, b), c) == Plus(a, Plus(b, c))
  {
    assert a.latency + b.latency + c.latency == a.latency + (b.latency + c.latency);
  }

  lemma PlusCommutes(a: Cell, b: Cell)
    ensures Plus(a, b) == Plus(b, a)
  {
    assert a.latency + b.latency == b.latency + a.latency;
  }

  lemma PlusZero(a: Cell)
    ensures Plus(a, ZERO) == a && Plus(ZERO, a) == a
  {
    assert a.latency + multiset{} == a.latency && multiset{} + a.latency == a.latency;
  }

  /** One cell of the one-shot aggregate. */
  function CellOf(rows: seq<Row>, k: CellKey): Cell {
    if rows == [] then ZERO
    else
      var front, last := CellOf(rows[..|rows| - 1], k), rows[|rows| - 1];
      if KeyOf(last) == k then Plus(front, Unit(last)) else front
  }

  // ---------------------------------------------------------------------- parts

  type Part = map<CellKey, Cell>

  function At(part: Part, k: CellKey): Cell {
    if k in part then part[k] else ZERO
  }

  /** The view's SELECT over one insert batch. */
  function GroupBatch(rows: seq<Row>): Part {
    map r | r in rows :: KeyOf(r) := CellOf(rows, KeyOf(r))
  }

  function MergeParts(a: Part, b: Part): Part {
    map k | k in a.Keys + b.Keys :: Plus(At(a, k), At(b, k))
  }

  /** A reader groups over all parts, merged or not. */
  function Read(parts: seq<Part>, k: CellKey): Cell {
    if parts == [] then ZERO else Plus(Read(parts[..|parts| - 1], k), At(parts[|parts| - 1], k))
  }

  // ------------------------------------------------------------- latest versions

  ghost predicate HasId(rows: seq<Row>, id: SpanId) {
    exists r :: r in rows && r.id == id
  }

  /** Position of a span in a list that has it once. */
  function IndexOf(view: seq<Row>, id: SpanId): (i: nat)
    ensures i <= |view|
    ensures i < |view| ==> view[i].id == id
    ensures i == |view| ==> forall r :: r in view ==> r.id != id
  {
    if view == [] then 0
    else if view[0].id == id then 0
    else
      var i := IndexOf(view[1..], id);
      assert forall r :: r in view ==> r == view[0] || r in view[1..];
      1 + i
  }

  function Supersede(view: seq<Row>, r: Row): seq<Row> {
    var i := IndexOf(view, r.id);
    if i == |view| then view + [r]
    else if r.version > view[i].version then view[i := r]
    else view
  }

  /** `argMax(..., normalization_version)` grouped by span. Among rows of one span that tie for the
      greatest version it keeps the first; the source leaves that choice open. */
  function Latest(rows: seq<Row>): seq<Row> {
    if rows == [] then [] else Supersede(Latest(rows[..|rows| - 1]), rows[|rows| - 1])
  }

  function OfDay(rows: seq<Row>, day: nat): seq<Row> {
    if rows == [] then []
    else
      var front, last := OfDay(rows[..|rows| - 1], day), rows[|rows| - 1];
      if DayOf(last.timestamp) == day then front + [last] else front
  }

  /** The recompute's inner SELECT: the day filter comes before the version choice. */
  function DayView(rows: seq<Row>, day: nat): seq<Row> {
    Latest(OfDay(rows, day))
  }

  ghost predicate DistinctIds(rows: seq<Row>) {
    forall i, j :: 0 <= i < j < |rows| ==> rows[i].id != rows[j].id
  }

  // ---------------------------------------------------------------------- states

  datatype Table = Table(raw: seq<Row>, parts: seq<Part>, staging: Option<Part>)

  const NEW: Table := Table([], [], None)

  datatype Event =
    | Insert(batch: seq<Row>)
    | Merge(i: nat, j: nat)          // a background merge of parts i < j
    | Stage(day: nat)                // staging rebuilt from the raw spans of one day
    | ReplacePartition(day: nat)     // that day's cells swapped for the staged ones
    | DropStaging

  function MergeAt(parts: seq<Part>, i: nat, j: nat): seq<Part>
    requires i < j < |parts|
  {
    parts[..i] + parts[i + 1..j] + parts[j + 1..] + [MergeParts(parts[i], parts[j])]
  }

  function Outside(part: Part, day: nat): Part {
    map k | k in part && DayOfCell(k) != day :: part[k]
  }

  function Inside(part: Part, day: nat): Part {
    map k | k in part && DayOfCell(k) == day :: part[k]
  }

  function WithoutDay(parts: seq<Part>, day: nat): seq<Part> {
    seq(|parts|, i requires 0 <= i < |parts| => Outside(parts[i], day))
  }

  function Step(t: Table, e: Event): Table {
    match e
    case Insert(batch) => t.(raw := t.raw + batch, parts := t.parts + [GroupBatch(batch)])
    case Merge(i, j) => if i < j < |t.parts| then t.(parts := MergeAt(t.parts, i, j)) else t
    case Stage(day) => t.(staging := Some(GroupBatch(DayView(t.raw, day))))
    case ReplacePartition(day) =>
      if t.staging.None? then t
      else t.(parts := WithoutDay(t.parts, day) + [Inside(t.staging.value, day)])
    case DropStaging => t.(staging := None)
  }

  function Run(t: Table, events: seq<Event>): Table {
    if events == [] then t else Step(Run(t, events[..|events| - 1]), events[|events| - 1])
  }
}
