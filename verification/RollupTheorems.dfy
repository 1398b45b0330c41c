// When the incrementally maintained rollup agrees with the one-shot aggregate, and how a staged
// recompute restores it.
module RollupTheorems {
  import opened Text
  import opened RollupSpec

  // ------------------------------------------------------- batches and merging

  lemma {:induction false} CellOfConcat(a: seq<Row>, b: seq<Row>, k: CellKey)
    ensures CellOf(a + b, k) == Plus(CellOf(a, k), CellOf(b, k))
  {
    hide Plus, Unit;
    if b == [] {
      assert a + b == a;
      PlusZero(CellOf(a, k));
    } else {
      var front, last := b[..|b| - 1], b[|b| - 1];
      assert (a + b)[..|a + b| - 1] == a + front;
      CellOfConcat(a, front, k);
      PlusAssociative(CellOf(a, k), CellOf(front, k), Unit(last));
    }
  }

  lemma {:induction false} NoRowNoCell(rows: seq<Row>, k: CellKey)
    requires forall r :: r in rows ==> KeyOf(r) != k
    ensures CellOf(rows, k) == ZERO
  {
    if rows != [] {
      NoRowNoCell(rows[..|rows| - 1], k);
    }
  }

  lemma GroupBatchAt(rows: seq<Row>, k: CellKey)
    ensures At(GroupBatch(rows), k) == CellOf(rows, k)
  {
    if k !in GroupBatch(rows) {
      NoRowNoCell(rows, k);
    }
  }

  lemma {:induction false} ReadConcat(a: seq<Part>, b: seq<Part>, k: CellKey)
    ensures Read(a + b, k) == Plus(Read(a, k), Read(b, k))
  {
    hide Plus;
    if b == [] {
      assert a + b == a;
      PlusZero(Read(a, k));
    } else {
      var front, last := b[..|b| - 1], b[|b| - 1];
      assert (a + b)[..|a + b| - 1] == a + front;
      ReadConcat(a, front, k);
      PlusAssociative(Read(a, k), Read(front, k), At(last, k));
    }
  }

  lemma {:induction false} ReadOne(p: Part, k: CellKey)
    ensures Read([p], k) == At(p, k)
  {
    assert [p][..0] == [];
    PlusZero(At(p, k));
  }

  lemma {:induction false} MergePartsAt(a: Part, b: Part, k: CellKey)
    ensures At(MergeParts(a, b), k) == Plus(At(a, k), At(b, k))
  {
    hide Plus;
    PlusZero(ZERO);
  }

  lemma Rearrange(a: Cell, x: Cell, b: Cell, y: Cell, c: Cell)
    ensures Plus(Plus(Plus(Plus(a, x), b), y), c) == Plus(Plus(Plus(a, b), c), Plus(x, y))
  {
    hide Plus;
    calc {
      Plus(Plus(Plus(Plus(a, x), b), y), c);
      { PlusAssociative(Plus(Plus(a, x), b), y, c); PlusCommutes(y, c); PlusAssociative(Plus(Plus(a, x), b), c, y); }
      Plus(Plus(Plus(Plus(a, x), b), c), y);
      { PlusAssociative(Plus(a, x), b, c); }
      Plus(Plus(Plus(a, x), Plus(b, c)), y);
      { PlusAssociative(a, x, Plus(b, c)); PlusCommutes(x, Plus(b, c)); PlusAssociative(a, Plus(b, c), x); }
      Plus(Plus(Plus(a, Plus(b, c)), x), y);
      { PlusAssociative(Plus(a, Plus(b, c)), x, y); PlusAssociative(a, b, c); }
      Plus(Plus(Plus(a, b), c), Plus(x, y));
    }
  }

  /** Merging any two parts changes nothing a reader can see. */
  lemma MergeInvisible(parts: seq<Part>, i: nat, j: nat, k: CellKey)
    requires i < j < |parts|
    ensures Read(MergeAt(parts, i, j), k) == Read(parts, k)
  {
    hide Plus, Read, MergeParts;
    var a, x, b, y, c := parts[..i], parts[i], parts[i + 1..j], parts[j], parts[j + 1..];
    assert parts == a + [x] + b + [y] + c;
    ReadConcat(a, [x], k); ReadConcat(a + [x], b, k); ReadConcat(a + [x] + b, [y], k);
    ReadConcat(a + [x] + b + [y], c, k);
    ReadConcat(a, b, k); ReadConcat(a + b, c, k); ReadConcat(a + b + c, [MergeParts(x, y)], k);
    ReadOne(x, k); ReadOne(y, k); ReadOne(MergeParts(x, y), k);
    MergePartsAt(x, y, k);
    Rearrange(Read(a, k), At(x, k), Read(b, k), At(y, k), Read(c, k));
  }

  // ----------------------------------------------------- incremental maintenance

  ghost predicate Maintenance(events: seq<Event>) {
    forall e :: e in events ==> e.Insert? || e.Merge?
  }

  function Inserted(events: seq<Event>): seq<Row> {
    if events == [] then []
    else
      var front, last := Inserted(events[..|events| - 1]), events[|events| - 1];
      if last.Insert? then front + last.batch else front
  }

  /** Inserts and merges, in any order and any batching, add exactly the inserted rows to every cell. */
  lemma {:induction false} MaintainedRun(t: Table, events: seq<Event>, k: CellKey)
    requires Maintenance(events)
    ensures var u := Run(t, events);
      && u.raw == t.raw + Inserted(events) && u.staging == t.staging
      && Read(u.parts, k) == Plus(Read(t.parts, k), CellOf(Inserted(events), k))
  {
    hide Plus, Read, CellOf, GroupBatch, MergeAt;
    if events == [] {
      PlusZero(Read(t.parts, k));
      NoRowNoCell([], k);
    } else {
      var front, last := events[..|events| - 1], events[|events| - 1];
      assert last in events;
      MaintainedRun(t, front, k);
      var u := Run(t, front);
      match last
      case Insert(batch) =>
        ReadConcat(u.parts, [GroupBatch(batch)], k);
        ReadOne(GroupBatch(batch), k);
        GroupBatchAt(batch, k);
        PlusAssociative(Read(t.parts, k), CellOf(Inserted(front), k), CellOf(batch, k));
        CellOfConcat(Inserted(front), batch, k);
        assert t.raw + Inserted(front) + batch == t.raw + (Inserted(front) + batch);
      case Merge(i, j) =>
        if i < j < |u.parts| { MergeInvisible(u.parts, i, j, k); }
    }
  }

  // ------------------------------------------------------------ latest versions

  /** Each span of `rows` once, at its greatest version. */
  ghost predicate IsLatestOf(view: seq<Row>, rows: seq<Row>) {
    && DistinctIds(view)
    && (forall r :: r in view ==> r in rows && forall x :: x in rows && x.id == r.id ==> x.version <= r.version)
    && (forall x :: x in rows ==> HasId(view, x.id))
  }

  lemma SupersedeKeepsLatest(view: seq<Row>, rows: seq<Row>, r: Row)
    requires IsLatestOf(view, rows)
    ensures IsLatestOf(Supersede(view, r), rows + [r])
  {
    var i := IndexOf(view, r.id);
    var next := Supersede(view, r);
    forall x | x in next
      ensures x in rows + [r] && forall y :: y in rows + [r] && y.id == x.id ==> y.version <= x.version
    {
      if x == r {
        forall y | y in rows && y.id == r.id ensures y.version <= r.version {
          assert HasId(view, y.id);
          assert view[i] in view;
        }
      } else {
        assert x in view;
      }
    }
    forall x | x in rows + [r] ensures HasId(next, x.id) {
      if x.id == r.id {
        assert if i < |view| then next[i] in next && next[i].id == r.id else next[|view|] in next;
      } else {
        assert x in rows;
        var y :| y in view && y.id == x.id;
        var j :| 0 <= j < |view| && view[j] == y;
        assert next[j] == y;
      }
    }
  }

  /** `Latest` is the latest-version view. */
  lemma {:induction false} LatestIsLatest(rows: seq<Row>)
    ensures IsLatestOf(Latest(rows), rows)
  {
    hide Supersede;
    if rows != [] {
      var front, last := rows[..|rows| - 1], rows[|rows| - 1];
      LatestIsLatest(front);
      SupersedeKeepsLatest(Latest(front), front, last);
      assert rows == front + [last];
    }
  }

  /** Appending spans that are new leaves the old view alone and appends them. */
  lemma {:induction false} LatestOfFresh(rows: seq<Row>, more: seq<Row>)
    requires DistinctIds(more) && forall r :: r in more ==> !HasId(rows, r.id)
    ensures Latest(rows + more) == Latest(rows) + more
  {
    if more == [] {
      assert rows + more == rows;
    } else {
      var front, last := more[..|more| - 1], more[|more| - 1];
      assert last in more && (rows + more)[..|rows + more| - 1] == rows + front;
      forall r | r in front ensures r in more {}
      LatestOfFresh(rows, front);
      LatestIsLatest(rows);
      var view := Latest(rows) + front;
      forall r | r in view ensures r.id != last.id {
        if r in Latest(rows) {
          assert HasId(rows, r.id);
        }
      }
      assert Latest(rows + more) == Supersede(view, last);
    }
  }

  lemma {:induction false} RepeatedSpanShortens(rows: seq<Row>)
    ensures |Latest(rows)| <= |rows|
    ensures !DistinctIds(rows) ==> |Latest(rows)| < |rows|
  {
    if rows != [] {
      var front, last := rows[..|rows| - 1], rows[|rows| - 1];
      RepeatedSpanShortens(front);
      if !DistinctIds(rows) && DistinctIds(front) {
        var i :| 0 <= i < |front| && front[i].id == last.id;
        LatestIsLatest(front);
        assert front[i] in front && HasId(Latest(front), last.id);
      }
    }
  }

  // ------------------------------------------------------------------- exactness

  ghost function Keys(rows: seq<Row>): seq<CellKey> {
    seq(|rows|, i requires 0 <= i < |rows| => KeyOf(rows[i]))
  }

  lemma {:induction false} CallsCount(rows: seq<Row>, k: CellKey)
    ensures CellOf(rows, k).calls == multiset(Keys(rows))[k]
  {
    if rows != [] {
      var front := rows[..|rows| - 1];
      CallsCount(front, k);
      assert Keys(rows) == Keys(front) + [KeyOf(rows[|rows| - 1])];
    }
  }

  /** A cell's rows that pass a test, in order. */
  function Matching(rows: seq<Row>, k: CellKey, test: Row -> bool): seq<Row> {
    if rows == [] then []
    else
      var front, last := Matching(rows[..|rows| - 1], k, test), rows[|rows| - 1];
      if KeyOf(last) == k && test(last) then front + [last] else front
  }

  function Durations(rows: seq<Row>): seq<nat> {
    seq(|rows|, i requires 0 <= i < |rows| => rows[i].duration)
  }

  predicate Any(r: Row) { true }
  predicate Failed(r: Row) { r.isError }
  predicate Timed(r: Row) { r.eligible }
  predicate Instant(r: Row) { r.eligible && r.duration == 0 }
  predicate Ticks(r: Row) { r.eligible && r.duration > 0 }
  predicate Helped(r: Row) { r.helper }

  /** The counting columns, read one by one: each counts the cell's rows of its kind, and the latency
      state holds the durations of exactly the eligible ones. */
  lemma {:induction false} CellCounts(rows: seq<Row>, k: CellKey)
    ensures var c := CellOf(rows, k);
      && c.calls == |Matching(rows, k, Any)| && c.errors == |Matching(rows, k, Failed)|
      && c.latencyCount == |Matching(rows, k, Timed)| && c.latency == multiset(Durations(Matching(rows, k, Timed)))
      && c.zeroDuration == |Matching(rows, k, Instant)|
      && c.helperClassified == |Matching(rows, k, Helped)|
  {
    if rows != [] {
      var front, last := rows[..|rows| - 1], rows[|rows| - 1];
      CellCounts(front, k);
      var timed := Matching(front, k, Timed);
      assert Durations(timed + [last]) == Durations(timed) + [last.duration];
    }
  }

  /** The extreme columns: the greatest eligible duration, the least positive one, and the last
      timestamp, each attained by a row of the cell. */
  lemma {:induction false} CellExtremes(rows: seq<Row>, k: CellKey)
    ensures var c := CellOf(rows, k);
      && (forall r :: r in rows && KeyOf(r) == k && r.eligible ==> r.duration <= c.latencyMax)
      && (c.latencyMax > 0 ==> exists r :: r in rows && KeyOf(r) == k && r.eligible && r.duration == c.latencyMax)
      && (forall r :: r in rows && KeyOf(r) == k && Ticks(r) ==> c.minTick.Some? && c.minTick.value <= r.duration)
      && (c.minTick.Some? ==> exists r :: r in rows && KeyOf(r) == k && Ticks(r) && r.duration == c.minTick.value)
      && (forall r :: r in rows && KeyOf(r) == k ==> r.timestamp <= c.lastSeen)
      && (c.lastSeen > 0 ==> exists r :: r in rows && KeyOf(r) == k && r.timestamp == c.lastSeen)
  {
    if rows != [] {
      var front, last := rows[..|rows| - 1], rows[|rows| - 1];
      CellExtremes(front, k);
      assert rows == front + [last];
      assert last in rows && forall r :: r in rows <==> r in front || r == last;
    }
  }

  ghost predicate SameCells(a: seq<Row>, b: seq<Row>) {
    forall k :: CellOf(a, k) == CellOf(b, k)
  }

  /** Cells that agree everywhere count the same number of spans. */
  lemma SameCellsSameTotal(a: seq<Row>, b: seq<Row>)
    requires SameCells(a, b)
    ensures |a| == |b|
  {
    hide CellOf;
    forall k ensures multiset(Keys(a))[k] == multiset(Keys(b))[k] {
      CallsCount(a, k);
      CallsCount(b, k);
    }
    assert multiset(Keys(a)) == multiset(Keys(b));
    assert |multiset(Keys(a))| == |a| && |multiset(Keys(b))| == |b|;
  }

  lemma ReadIsAggregate(events: seq<Event>, k: CellKey)
    requires Maintenance(events)
    ensures Run(NEW, events).raw == Inserted(events)
    ensures Read(Run(NEW, events).parts, k) == CellOf(Inserted(events), k)
  {
    hide Plus, CellOf;
    MaintainedRun(NEW, events, k);
    PlusZero(CellOf(Inserted(events), k));
    assert [] + Inserted(events) == Inserted(events);
  }

  lemma LatestExactIffDistinct(rows: seq<Row>)
    ensures SameCells(rows, Latest(rows)) <==> DistinctIds(rows)
  {
    hide CellOf;
    if DistinctIds(rows) {
      LatestOfFresh([], rows);
      assert [] + rows == rows;
    } else {
      RepeatedSpanShortens(rows);
      if SameCells(rows, Latest(rows)) {
        SameCellsSameTotal(rows, Latest(rows));
        assert false;
      }
    }
  }

  /** For any batching of a span log and any merging, the rollup equals the one-shot aggregate over the
      latest-version view exactly when no span was inserted twice. */
  lemma RollupExact(events: seq<Event>)
    requires Maintenance(events)
    ensures (forall k :: Read(Run(NEW, events).parts, k) == CellOf(Latest(Run(NEW, events).raw), k))
       <==> DistinctIds(Run(NEW, events).raw)
  {
    hide CellOf, Run, Read, Latest, Inserted;
    var t := Run(NEW, events);
    ReadIsAggregate(events, CellKey("", "", 0, Dims("", "", "", "")));
    forall k ensures Read(t.parts, k) == CellOf(t.raw, k) {
      ReadIsAggregate(events, k);
    }
    LatestExactIffDistinct(t.raw);
    if SameCells(t.raw, Latest(t.raw)) {
      forall k ensures Read(t.parts, k) == CellOf(Latest(t.raw), k) {
        assert CellOf(t.raw, k) == CellOf(Latest(t.raw), k);
      }
    } else {
      var k :| CellOf(t.raw, k) != CellOf(Latest(t.raw), k);
      assert Read(t.parts, k) == CellOf(t.raw, k);
    }
  }

  /** Whatever was replayed, the rollup never counts fewer spans in total than the one-shot aggregate. */
  lemma {:induction false} ReplaysOnlyInflate(events: seq<Event>)
    requires Maintenance(events)
    ensures var t := Run(NEW, events);
      && (forall k :: Read(t.parts, k).calls == multiset(Keys(t.raw))[k])
      && (forall k :: CellOf(Latest(t.raw), k).calls == multiset(Keys(Latest(t.raw)))[k])
      && |multiset(Keys(t.raw))| >= |multiset(Keys(Latest(t.raw)))|
  {
    hide CellOf, KeyOf, Read, Latest;
    var t := Run(NEW, events);
    forall k ensures Read(t.parts, k).calls == multiset(Keys(t.raw))[k] {
      ReadIsAggregate(events, k);
      CallsCount(t.raw, k);
    }
    forall k ensures CellOf(Latest(t.raw), k).calls == multiset(Keys(Latest(t.raw)))[k] {
      CallsCount(Latest(t.raw), k);
    }
    RepeatedSpanShortens(t.raw);
  }

  // ------------------------------------------------------------------- recompute

  /** Days are unions of whole minutes: a cell lives in the partition of its rows' day. */
  lemma CellDay(r: Row)
    ensures DayOfCell(KeyOf(r)) == DayOf(r.timestamp)
  {
    var m := r.timestamp / MINUTE;
    var d := m / MINUTES_PER_DAY;
    assert m * MINUTE <= r.timestamp < (m + 1) * MINUTE;
    assert d * MINUTES_PER_DAY <= m < (d + 1) * MINUTES_PER_DAY;
    assert d * (MINUTE * MINUTES_PER_DAY) <= r.timestamp < (d + 1) * (MINUTE * MINUTES_PER_DAY);
  }

  lemma {:induction false} OfDayConcat(a: seq<Row>, b: seq<Row>, day: nat)
    ensures OfDay(a + b, day) == OfDay(a, day) + OfDay(b, day)
  {
    if b == [] {
      assert a + b == a;
    } else {
      assert (a + b)[..|a + b| - 1] == a + b[..|b| - 1];
      OfDayConcat(a, b[..|b| - 1], day);
    }
  }

  lemma {:induction false} OfDayMembers(rows: seq<Row>, day: nat)
    ensures forall r :: r in OfDay(rows, day) <==> r in rows && DayOf(r.timestamp) == day
  {
    if rows != [] {
      OfDayMembers(rows[..|rows| - 1], day);
      assert rows == rows[..|rows| - 1] + [rows[|rows| - 1]];
    }
  }

  /** The rollup of a day is what staging would now give. */
  ghost predicate DayExact(t: Table, day: nat) {
    forall k :: DayOfCell(k) == day ==> Read(t.parts, k) == CellOf(DayView(t.raw, day), k)
  }

  /** The rows of the day are of spans that the day did not have, each once. */
  ghost predicate FreshForDay(raw: seq<Row>, more: seq<Row>, day: nat) {
    DistinctIds(OfDay(more, day)) && forall r :: r in OfDay(more, day) ==> !HasId(OfDay(raw, day), r.id)
  }

  lemma FreshDayView(raw: seq<Row>, more: seq<Row>, day: nat)
    requires FreshForDay(raw, more, day)
    ensures DayView(raw + more, day) == DayView(raw, day) + OfDay(more, day)
  {
    OfDayConcat(raw, more, day);
    LatestOfFresh(OfDay(raw, day), OfDay(more, day));
  }

  /** Rows of other days do not reach a day's cells. */
  lemma {:induction false} CellOfDay(rows: seq<Row>, day: nat, k: CellKey)
    requires DayOfCell(k) == day
    ensures CellOf(rows, k) == CellOf(OfDay(rows, day), k)
  {
    hide Plus, Unit, KeyOf, DayOf, DayOfCell;
    if rows != [] {
      var front, last := rows[..|rows| - 1], rows[|rows| - 1];
      CellOfDay(front, day, k);
      CellDay(last);
      var view := OfDay(rows, day);
      if DayOf(last.timestamp) == day {
        assert view[..|view| - 1] == OfDay(front, day);
      }
    }
  }

  /** New spans, in any batches and with any merges, keep a day exact. */
  lemma {:induction false} FreshInsertsKeepExact(t: Table, events: seq<Event>, day: nat)
    requires DayExact(t, day) && Maintenance(events) && FreshForDay(t.raw, Inserted(events), day)
    ensures DayExact(Run(t, events), day)
  {
    hide Plus, CellOf, Read, DayOfCell, DayView;
    var u, more := Run(t, events), Inserted(events);
    FreshDayView(t.raw, more, day);
    forall k | DayOfCell(k) == day ensures Read(u.parts, k) == CellOf(DayView(u.raw, day), k) {
      MaintainedRun(t, events, k);
      CellOfDay(more, day, k);
      CellOfConcat(DayView(t.raw, day), OfDay(more, day), k);
    }
  }

  lemma {:induction false} ReadWithoutDay(parts: seq<Part>, day: nat, k: CellKey)
    ensures Read(WithoutDay(parts, day), k) == if DayOfCell(k) == day then ZERO else Read(parts, k)
  {
    hide Plus, DayOfCell;
    if parts != [] {
      var front := parts[..|parts| - 1];
      ReadWithoutDay(front, day, k);
      var w := WithoutDay(parts, day);
      assert w[..|w| - 1] == WithoutDay(front, day);
      PlusZero(ZERO);
    }
  }

  /** What a replace makes of every cell. */
  lemma ReplacedCells(t: Table, day: nat, staged: seq<Row>, k: CellKey)
    requires t.staging == Some(GroupBatch(staged))
    ensures Read(Step(t, ReplacePartition(day)).parts, k)
         == if DayOfCell(k) == day then CellOf(staged, k) else Read(t.parts, k)
  {
    hide Plus, Read, CellOf, DayOfCell, GroupBatch, WithoutDay;
    var swapped := Inside(t.staging.value, day);
    ReadConcat(WithoutDay(t.parts, day), [swapped], k);
    ReadOne(swapped, k);
    ReadWithoutDay(t.parts, day, k);
    GroupBatchAt(staged, k);
    if DayOfCell(k) == day {
      assert At(swapped, k) == At(t.staging.value, k);
      PlusZero(CellOf(staged, k));
    } else {
      assert At(swapped, k) == ZERO;
      PlusZero(Read(t.parts, k));
    }
  }

  lemma SomeCellCounts(rows: seq<Row>, r: Row)
    requires r in rows
    ensures CellOf(rows, KeyOf(r)).calls > 0
  {
    CallsCount(rows, KeyOf(r));
    var i :| 0 <= i < |rows| && rows[i] == r;
    assert Keys(rows)[i] == KeyOf(r);
    assert KeyOf(r) in multiset(Keys(rows));
  }

  ghost function AfterRecompute(t: Table, between: seq<Event>, day: nat): Table {
    Step(Run(Step(t, Stage(day)), between), ReplacePartition(day))
  }

  /** A staged recompute swaps one day for what staging saw of it, and touches no other day. */
  lemma RecomputeCells(t: Table, between: seq<Event>, day: nat, k: CellKey)
    requires Maintenance(between)
    ensures AfterRecompute(t, between, day).raw == t.raw + Inserted(between)
    ensures Read(AfterRecompute(t, between, day).parts, k)
         == if DayOfCell(k) == day then CellOf(DayView(t.raw, day), k)
            else Plus(Read(t.parts, k), CellOf(Inserted(between), k))
  {
    hide Plus, Read, CellOf, DayOfCell, GroupBatch, WithoutDay, DayView;
    var staged := Step(t, Stage(day));
    MaintainedRun(staged, between, k);
    ReplacedCells(Run(staged, between), day, DayView(t.raw, day), k);
  }

  /** Against that day's own view: if everything inserted for the day between staging and replace is new
      spans, the recompute leaves the day as a fresh staging would exactly when there was no such row. */
  lemma RecomputeKeepsUp(t: Table, between: seq<Event>, day: nat)
    requires Maintenance(between) && FreshForDay(t.raw, Inserted(between), day)
    ensures DayExact(AfterRecompute(t, between, day), day) <==> OfDay(Inserted(between), day) == []
  {
    hide Plus, Read, CellOf, DayOfCell, DayView, Step, Run, KeyOf, DayOf;
    var u, more := AfterRecompute(t, between, day), OfDay(Inserted(between), day);
    var before := DayView(t.raw, day);
    FreshDayView(t.raw, Inserted(between), day);
    forall k ensures CellOf(before + more, k) == Plus(CellOf(before, k), CellOf(more, k)) {
      CellOfConcat(before, more, k);
    }
    forall k | DayOfCell(k) == day ensures Read(u.parts, k) == CellOf(before, k) && u.raw == t.raw + Inserted(between) {
      RecomputeCells(t, between, day, k);
    }
    if more == [] {
      assert before + more == before;
      RecomputeCells(t, between, day, CellKey("", "", 0, Dims("", "", "", "")));
    } else {
      var r := more[0];
      OfDayMembers(Inserted(between), day);
      CellDay(r);
      var k := KeyOf(r);
      SomeCellCounts(more, r);
      PlusCalls(CellOf(before, k), CellOf(more, k));
      assert Read(u.parts, k) == CellOf(before, k) != CellOf(DayView(u.raw, day), k);
    }
  }

  lemma PlusCalls(a: Cell, b: Cell)
    ensures Plus(a, b).calls == a.calls + b.calls
  {}

  // ------------------------------------------------------------------ window reads

  function From(rows: seq<Row>, start: nat): seq<Row> {
    if rows == [] then []
    else
      var front, last := From(rows[..|rows| - 1], start), rows[|rows| - 1];
      if last.timestamp >= start then front + [last] else front
  }

  /** A cell as read with `bucket >= toStartOfMinute(since)`. */
  ghost function ReadSince(parts: seq<Part>, since: nat, k: CellKey): Cell {
    if k.minute >= MinuteOf(since) then Read(parts, k) else ZERO
  }

  lemma MinuteStart(timestamp: nat, minute: nat)
    ensures MinuteOf(timestamp) >= minute <==> timestamp >= minute * MINUTE
  {}

  lemma {:induction false} CellsFrom(rows: seq<Row>, minute: nat, k: CellKey)
    ensures CellOf(From(rows, minute * MINUTE), k) == if k.minute >= minute then CellOf(rows, k) else ZERO
  {
    hide Plus, Unit, MinuteOf;
    if rows != [] {
      var front, last := rows[..|rows| - 1], rows[|rows| - 1];
      CellsFrom(front, minute, k);
      MinuteStart(last.timestamp, minute);
      var f := From(rows, minute * MINUTE);
      if last.timestamp >= minute * MINUTE {
        assert f[..|f| - 1] == From(front, minute * MINUTE);
      }
    }
  }

  /** Reading the rollup at `since` gives the raw aggregate from the start of that minute. */
  lemma {:induction false} WindowReadsWholeMinutes(parts: seq<Part>, rows: seq<Row>, since: nat, k: CellKey)
    requires Read(parts, k) == CellOf(rows, k)
    ensures ReadSince(parts, since, k) == CellOf(From(rows, MinuteOf(since) * MINUTE), k)
  {
    CellsFrom(rows, MinuteOf(since), k);
  }

  lemma {:induction false} FromShrinks(rows: seq<Row>, a: nat, b: nat)
    requires a <= b
    ensures |From(rows, b)| <= |From(rows, a)|
    ensures |From(rows, b)| == |From(rows, a)| ==> forall r :: r in rows ==> !(a <= r.timestamp < b)
    ensures (forall r :: r in rows ==> !(a <= r.timestamp < b)) ==> From(rows, b) == From(rows, a)
  {
    if rows != [] {
      var front, last := rows[..|rows| - 1], rows[|rows| - 1];
      FromShrinks(front, a, b);
      assert rows == front + [last];
      assert last in rows;
    }
  }

  /** It is the aggregate from `since` itself exactly when nothing happened earlier in that minute. */
  lemma WindowExact(parts: seq<Part>, rows: seq<Row>, since: nat)
    requires forall k :: Read(parts, k) == CellOf(rows, k)
    ensures (forall k :: ReadSince(parts, since, k) == CellOf(From(rows, since), k))
       <==> (forall r :: r in rows ==> !(MinuteOf(since) * MINUTE <= r.timestamp < since))
  {
    hide CellOf, Read, MinuteOf;
    var start := MinuteOf(since) * MINUTE;
    assert start <= since by { MinuteStart(since, MinuteOf(since)); }
    FromShrinks(rows, start, since);
    forall k ensures ReadSince(parts, since, k) == CellOf(From(rows, start), k) {
      WindowReadsWholeMinutes(parts, rows, since, k);
    }
    if forall k :: ReadSince(parts, since, k) == CellOf(From(rows, since), k) {
      forall k ensures CellOf(From(rows, start), k) == CellOf(From(rows, since), k) {
        assert ReadSince(parts, since, k) == CellOf(From(rows, start), k);
      }
      assert SameCells(From(rows, start), From(rows, since));
      SameCellsSameTotal(From(rows, start), From(rows, since));
    }
  }
}
