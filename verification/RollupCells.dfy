// What a reader of one rollup cell sees, in the columns of the raw table: no key function, no minute arithmetic.
module RollupCells {
  import opened Basics
  import opened Text
  import opened RollupSpec
  import opened RollupTheorems

  /** The raw row lies in the tenant's project, in that minute (nanoseconds), and has those dimensions. */
  predicate InScope(r: Row, tenant: string, project: string, minute: nat, dims: Dims) {
    && r.id.tenant == tenant && r.id.project == project
    && minute * 60_000_000_000 <= r.timestamp < (minute + 1) * 60_000_000_000
    && r.dims.service == dims.service && r.dims.mcpMethod == dims.mcpMethod
    && r.dims.tool == dims.tool && r.dims.category == dims.category
  }

  /** The rows of the scope that pass a test, in order. */
  function Scoped(rows: seq<Row>, tenant: string, project: string, minute: nat, dims: Dims, test: Row -> bool): seq<Row> {
    if rows == [] then []
    else
      var front, last := Scoped(rows[..|rows| - 1], tenant, project, minute, dims, test), rows[|rows| - 1];
      if InScope(last, tenant, project, minute, dims) && test(last) then front + [last] else front
  }

  lemma KeyIsScope(r: Row, tenant: string, project: string, minute: nat, dims: Dims)
    ensures KeyOf(r) == CellKey(tenant, project, minute, dims) <==> InScope(r, tenant, project, minute, dims)
  {
    var a, b := r.dims, dims;
    assert a == b <==> (a.service == b.service && a.mcpMethod == b.mcpMethod && a.tool == b.tool && a.category == b.category);
  }

  lemma {:induction false} MatchingIsScoped(rows: seq<Row>, tenant: string, project: string, minute: nat, dims: Dims,
      test: Row -> bool)
    ensures Matching(rows, CellKey(tenant, project, minute, dims), test) == Scoped(rows, tenant, project, minute, dims, test)
  {
    hide KeyOf, InScope;
    if rows != [] {
      MatchingIsScoped(rows[..|rows| - 1], tenant, project, minute, dims, test);
      KeyIsScope(rows[|rows| - 1], tenant, project, minute, dims);
    }
  }

  /** Each counting column of the cell counts the scope's rows of its kind: all, failed, timed, instant, or
      classified by a helper; the latency state holds the timed ones' durations. */
  ghost predicate CountsScope(c: Cell, rows: seq<Row>, tenant: string, project: string, minute: nat, dims: Dims) {
    var timed := Scoped(rows, tenant, project, minute, dims, Timed);
    && c.calls == |Scoped(rows, tenant, project, minute, dims, Any)|
    && c.errors == |Scoped(rows, tenant, project, minute, dims, Failed)|
    && c.latencyCount == |timed| && c.latency == multiset(Durations(timed))
    && c.zeroDuration == |Scoped(rows, tenant, project, minute, dims, Instant)|
    && c.helperClassified == |Scoped(rows, tenant, project, minute, dims, Helped)|
  }

  /** Each extreme column bounds the scope's rows and is attained by one of them. */
  ghost predicate BoundsScope(c: Cell, rows: seq<Row>, tenant: string, project: string, minute: nat, dims: Dims) {
    && (forall r :: r in rows && InScope(r, tenant, project, minute, dims) ==>
          && r.timestamp <= c.lastSeen
          && (r.eligible ==> r.duration <= c.latencyMax)
          && (r.eligible && r.duration > 0 ==> c.minTick.Some? && c.minTick.value <= r.duration))
    && (c.lastSeen > 0 ==> exists r :: r in rows && InScope(r, tenant, project, minute, dims) && r.timestamp == c.lastSeen)
    && (c.latencyMax > 0 ==>
          exists r :: r in rows && InScope(r, tenant, project, minute, dims) && r.eligible && r.duration == c.latencyMax)
    && (c.minTick.Some? ==> c.minTick.value > 0)
    && (c.minTick.Some? ==>
          exists r :: r in rows && InScope(r, tenant, project, minute, dims) && r.eligible && r.duration == c.minTick.value)
  }

  /** One cell of an aggregate over raw rows. */
  lemma CellMeans(rows: seq<Row>, tenant: string, project: string, minute: nat, dims: Dims)
    ensures CountsScope(CellOf(rows, CellKey(tenant, project, minute, dims)), rows, tenant, project, minute, dims)
    ensures BoundsScope(CellOf(rows, CellKey(tenant, project, minute, dims)), rows, tenant, project, minute, dims)
  {
    hide CellOf, KeyOf, InScope, Scoped, Matching, Durations;
    var k := CellKey(tenant, project, minute, dims);
    CellCounts(rows, k);
    CellExtremes(rows, k);
    MatchingIsScoped(rows, tenant, project, minute, dims, Any);
    MatchingIsScoped(rows, tenant, project, minute, dims, Failed);
    MatchingIsScoped(rows, tenant, project, minute, dims, Timed);
    MatchingIsScoped(rows, tenant, project, minute, dims, Instant);
    MatchingIsScoped(rows, tenant, project, minute, dims, Helped);
    forall r ensures KeyOf(r) == k <==> InScope(r, tenant, project, minute, dims) {
      KeyIsScope(r, tenant, project, minute, dims);
    }
  }

  /** After inserts and merges in any order and batching, a reader of a tenant's project, a minute and
      dimensions sees exactly what was inserted for them. */
  lemma MaintainedCell(events: seq<Event>, tenant: string, project: string, minute: nat, dims: Dims)
    requires Maintenance(events)
    ensures var c := Read(Run(NEW, events).parts, CellKey(tenant, project, minute, dims));
      && CountsScope(c, Inserted(events), tenant, project, minute, dims)
      && BoundsScope(c, Inserted(events), tenant, project, minute, dims)
  {
    hide CellOf, Plus, Run, CountsScope, BoundsScope, Inserted;
    var k := CellKey(tenant, project, minute, dims);
    MaintainedRun(NEW, events, k);
    assert Read(NEW.parts, k) == ZERO;
    PlusZero(CellOf(Inserted(events), k));
    CellMeans(Inserted(events), tenant, project, minute, dims);
  }

  /** A day's rows are those of its 24 hours, and its cells those of its 1440 minutes. */
  lemma DayMeans(rows: seq<Row>, day: nat, r: Row, k: CellKey)
    ensures r in OfDay(rows, day) <==> r in rows && day * 86_400_000_000_000 <= r.timestamp < (day + 1) * 86_400_000_000_000
    ensures DayOfCell(k) == day <==> day * 1440 <= k.minute < (day + 1) * 1440
  {
    hide OfDay, Latest;
    OfDayMembers(rows, day);
  }
}
