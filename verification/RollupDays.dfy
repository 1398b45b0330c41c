// The recompute works day by day and picks versions within a day. When that gives the aggregate over the
// latest version of every span, and what happens to spans that moved to another day.
module RollupDays {
  import opened Basics
  import opened RollupSpec
  import opened RollupTheorems

  // ------------------------------------------------- one view or one view per day

  ghost predicate OneDayPerSpan(rows: seq<Row>) {
    forall a, b :: a in rows && b in rows && a.id == b.id ==> DayOf(a.timestamp) == DayOf(b.timestamp)
  }

  lemma OfDayOne(r: Row, day: nat)
    ensures OfDay([r], day) == if DayOf(r.timestamp) == day then [r] else []
  {
    hide DayOf;
    assert [r][..0] == [];
  }

  lemma OfDayAround(a: seq<Row>, x: Row, c: seq<Row>, day: nat)
    ensures OfDay(a + [x] + c, day)
         == OfDay(a, day) + (if DayOf(x.timestamp) == day then [x] else []) + OfDay(c, day)
  {
    hide OfDay, DayOf;
    OfDayConcat(a + [x], c, day);
    OfDayConcat(a, [x], day);
    OfDayOne(x, day);
  }

  /** Replacing a row by another of its day replaces it in that day's list and in no other. */
  lemma OfDayReplaced(view: seq<Row>, i: nat, r: Row, day: nat)
    requires i < |view| && DayOf(view[i].timestamp) == DayOf(r.timestamp)
    ensures var m := |OfDay(view[..i], day)|;
      if DayOf(r.timestamp) == day then
        && m < |OfDay(view, day)| && OfDay(view, day)[m] == view[i]
        && OfDay(view[i := r], day) == OfDay(view, day)[m := r]
      else OfDay(view[i := r], day) == OfDay(view, day)
  {
    hide DayOf, OfDay;
    var a, x, c := view[..i], view[i], view[i + 1..];
    assert view == a + [x] + c && view[i := r] == a + [r] + c;
    OfDayAround(a, x, c, day);
    OfDayAround(a, r, c, day);
  }

  lemma OfDaySuperseded(view: seq<Row>, r: Row, day: nat)
    requires DistinctIds(view)
    requires forall x :: x in view && x.id == r.id ==> DayOf(x.timestamp) == DayOf(r.timestamp)
    ensures OfDay(Supersede(view, r), day)
         == if DayOf(r.timestamp) == day then Supersede(OfDay(view, day), r) else OfDay(view, day)
  {
    hide DayOf, OfDay;
    var i := IndexOf(view, r.id);
    OfDayMembers(view, day);
    if i == |view| {
      OfDayConcat(view, [r], day);
      OfDayOne(r, day);
    } else {
      assert view[i] in view;
      OfDayReplaced(view, i, r, day);
      if DayOf(r.timestamp) == day {
        var v := OfDay(view, day);
        IndexUnique(view, day, v, |OfDay(view[..i], day)|, IndexOf(v, r.id));
      }
    }
  }

  lemma {:induction false} OfDayDistinct(view: seq<Row>, day: nat)
    requires DistinctIds(view)
    ensures DistinctIds(OfDay(view, day))
  {
    hide DayOf;
    if view != [] {
      var front := view[..|view| - 1];
      OfDayDistinct(front, day);
      OfDayMembers(front, day);
    }
  }

  lemma IndexUnique(view: seq<Row>, day: nat, v: seq<Row>, m: nat, n: nat)
    requires DistinctIds(view) && v == OfDay(view, day)
    requires m < |v| && n <= |v| && n == IndexOf(v, v[m].id)
    ensures n == m
  {
    OfDayDistinct(view, day);
    assert v[m] in v;
  }

  lemma {:induction false} DayViewsAgree(rows: seq<Row>, day: nat)
    requires OneDayPerSpan(rows)
    ensures OfDay(Latest(rows), day) == DayView(rows, day)
  {
    hide DayOf, Supersede;
    if rows != [] {
      var front, last := rows[..|rows| - 1], rows[|rows| - 1];
      assert last in rows && forall r :: r in front ==> r in rows;
      DayViewsAgree(front, day);
      LatestIsLatest(front);
      OfDaySuperseded(Latest(front), last, day);
      var d := OfDay(rows, day);
      if DayOf(last.timestamp) == day {
        assert d[..|d| - 1] == OfDay(front, day);
      }
    }
  }

  // ---------------------------------------------------------- cells ignore row order

  lemma ThreeCells(a: seq<Row>, x: Row, c: seq<Row>, k: CellKey)
    ensures CellOf(a + [x] + c, k) == Plus(CellOf(a + c, k), CellOf([x], k))
  {
    hide CellOf, Plus;
    CellOfConcat(a + [x], c, k);
    CellOfConcat(a, [x], k);
    CellOfConcat(a, c, k);
    PlusAssociative(CellOf(a, k), CellOf([x], k), CellOf(c, k));
    PlusCommutes(CellOf([x], k), CellOf(c, k));
    PlusAssociative(CellOf(a, k), CellOf(c, k), CellOf([x], k));
  }

  lemma Drop<T>(a: seq<T>, x: T, c: seq<T>, rest: seq<T>)
    requires multiset(a + [x] + c) == multiset(rest + [x])
    ensures multiset(a + c) == multiset(rest)
  {
    assert multiset(a + [x] + c) == multiset(a + c) + multiset{x};
    assert multiset(rest + [x]) == multiset(rest) + multiset{x};
    CancelOne(multiset(a + c), multiset(rest), x);
  }

  lemma {:induction false} CellOfPermuted(a: seq<Row>, b: seq<Row>, k: CellKey)
    requires multiset(a) == multiset(b)
    ensures CellOf(a, k) == CellOf(b, k)
    decreases |a|
  {
    hide CellOf, Plus;
    if a == [] {
      assert |multiset(b)| == 0 && b == [];
    } else {
      var front, x := a[..|a| - 1], a[|a| - 1];
      assert a == front + [x];
      var l, r := TakeOut(b, front, x);
      CellOfPermuted(front, l + r, k);
      ThreeCells(l, x, r, k);
      CellOfConcat(front, [x], k);
    }
  }

  lemma TakeOut(b: seq<Row>, rest: seq<Row>, x: Row) returns (l: seq<Row>, r: seq<Row>)
    requires multiset(b) == multiset(rest + [x])
    ensures b == l + [x] + r && multiset(l + r) == multiset(rest)
  {
    assert (rest + [x])[|rest|] == x && x in multiset(rest + [x]) && x in b;
    var i :| 0 <= i < |b| && b[i] == x;
    l, r := b[..i], b[i + 1..];
    assert b == l + [x] + r;
    Drop(l, x, r, rest);
  }

  // ------------------------------------------------- one day against the latest versions

  /** Every span with a version on the day has its latest version there. */
  ghost predicate LatestStays(rows: seq<Row>, day: nat) {
    forall r, x :: r in rows && DayOf(r.timestamp) == day && x in Latest(rows) && x.id == r.id ==> DayOf(x.timestamp) == day
  }

  lemma SupersedeMembers(view: seq<Row>, r: Row, x: Row)
    requires DistinctIds(view)
    ensures x in Supersede(view, r) <==>
      || (x in view && (x.id == r.id ==> r.version <= x.version))
      || (x == r && forall y :: y in view && y.id == r.id ==> y.version < r.version)
  {
    var i, next := IndexOf(view, r.id), Supersede(view, r);
    if i < |view| {
      assert view[i] in view && next[i] in next;
      if x in view && x.id != r.id {
        var j :| 0 <= j < |view| && view[j] == x;
        assert next[j] == x;
      }
    } else {
      assert next[|view|] == r;
    }
  }

  /** A latest version is the latest of its own day. */
  lemma {:induction false} LatestIsLatestOfItsDay(rows: seq<Row>, day: nat, x: Row)
    requires x in Latest(rows) && DayOf(x.timestamp) == day
    ensures x in DayView(rows, day)
  {
    hide DayOf, Supersede;
    var front, last := rows[..|rows| - 1], rows[|rows| - 1];
    var view, dayView := Latest(front), Latest(OfDay(front, day));
    LatestIsLatest(front);
    LatestIsLatest(OfDay(front, day));
    SupersedeMembers(view, last, x);
    if x in view {
      LatestIsLatestOfItsDay(front, day, x);
    }
    if DayOf(last.timestamp) == day {
      assert OfDay(rows, day)[..|OfDay(rows, day)| - 1] == OfDay(front, day);
      SupersedeMembers(dayView, last, x);
      OfDayMembers(front, day);
      forall y | y in dayView && y.id == last.id ensures y in front && HasId(view, y.id) {}
    }
  }

  lemma IdsDetermine(view: seq<Row>, x: Row, y: Row)
    requires DistinctIds(view) && x in view && y in view && x.id == y.id
    ensures x == y
  {}

  lemma DistinctRowsCount(view: seq<Row>, x: Row)
    requires DistinctIds(view)
    ensures multiset(view)[x] == if x in view then 1 else 0
  {
    if x in view {
      var i :| 0 <= i < |view| && view[i] == x;
      assert view == view[..i] + [x] + view[i + 1..];
      assert x !in view[..i] && x !in view[i + 1..];
    }
  }

  lemma SubsetOfSameLength(a: seq<Row>, b: seq<Row>)
    requires DistinctIds(a) && DistinctIds(b) && forall x :: x in a ==> x in b
    ensures |a| == |b| <==> multiset(a) == multiset(b)
  {
    forall x ensures multiset(a)[x] <= multiset(b)[x] {
      DistinctRowsCount(a, x);
      DistinctRowsCount(b, x);
    }
    assert multiset(b) == multiset(a) + (multiset(b) - multiset(a));
    assert |multiset(b)| == |multiset(a)| + |multiset(b) - multiset(a)|;
  }

  lemma OffDayCells(rows: seq<Row>, day: nat, k: CellKey)
    requires DayOfCell(k) != day && forall r :: r in rows ==> DayOf(r.timestamp) == day
    ensures CellOf(rows, k) == ZERO
  {
    forall r | r in rows ensures KeyOf(r) != k { CellDay(r); }
    NoRowNoCell(rows, k);
  }

  /** What staging picks for a day and what the latest versions have of it: equal in every cell if and
      only if no span of the day has its latest version on another day. */
  lemma DayViewExact(rows: seq<Row>, day: nat)
    ensures SameCells(OfDay(Latest(rows), day), DayView(rows, day)) <==> LatestStays(rows, day)
  {
    hide DayOf, CellOf, Supersede, DayOfCell;
    var a, b := OfDay(Latest(rows), day), DayView(rows, day);
    LatestIsLatest(rows);
    LatestIsLatest(OfDay(rows, day));
    OfDayDistinct(Latest(rows), day);
    OfDayMembers(Latest(rows), day);
    OfDayMembers(rows, day);
    forall x | x in a ensures x in b { LatestIsLatestOfItsDay(rows, day, x); }
    SubsetOfSameLength(a, b);
    if LatestStays(rows, day) {
      forall y | y in b ensures y in a {
        assert HasId(Latest(rows), y.id);
        var x :| x in Latest(rows) && x.id == y.id;
        IdsDetermine(b, x, y);
      }
      SubsetOfSameLength(b, a);
      SubsetOfSameLength(a, b);
      SameMembers(a, b);
      forall k ensures CellOf(a, k) == CellOf(b, k) { CellOfPermuted(a, b, k); }
    }
    if SameCells(a, b) {
      SameCellsSameTotal(a, b);
      forall r, x | r in rows && DayOf(r.timestamp) == day && x in Latest(rows) && x.id == r.id ensures DayOf(x.timestamp) == day {
        assert HasId(b, r.id);
        var y :| y in b && y.id == r.id;
        assert y in multiset(b) && y in multiset(a) && y in a;
        IdsDetermine(Latest(rows), x, y);
      }
    }
  }

  lemma SameMembers(a: seq<Row>, b: seq<Row>)
    requires DistinctIds(a) && DistinctIds(b) && forall x :: x in a <==> x in b
    ensures multiset(a) == multiset(b)
  {
    forall x ensures multiset(a)[x] == multiset(b)[x] {
      DistinctRowsCount(a, x);
      DistinctRowsCount(b, x);
    }
  }

  /** A reader of the cell sees the aggregate over the latest version of every span. */
  ghost predicate CellMatches(t: Table, k: CellKey) {
    Read(t.parts, k) == CellOf(Latest(t.raw), k)
  }

  ghost predicate MatchesLatest(t: Table, day: nat) {
    forall k :: DayOfCell(k) == day ==> CellMatches(t, k)
  }

  /** A day that is as staging would give it matches the latest versions if and only if none of its spans
      has moved to another day. */
  lemma ExactDayMatchesLatest(t: Table, day: nat)
    requires DayExact(t, day)
    ensures MatchesLatest(t, day) <==> LatestStays(t.raw, day)
  {
    hide DayOf, CellOf, DayOfCell, Read, LatestStays;
    var a, b := OfDay(Latest(t.raw), day), DayView(t.raw, day);
    DayViewExact(t.raw, day);
    OfDayMembers(Latest(t.raw), day);
    DayViewDays(t.raw, day);
    forall k ensures DayOfCell(k) == day ==> CellOf(Latest(t.raw), k) == CellOf(a, k) {
      if DayOfCell(k) == day { CellOfDay(Latest(t.raw), day, k); }
    }
    forall k ensures DayOfCell(k) != day ==> CellOf(a, k) == CellOf(b, k) {
      if DayOfCell(k) != day {
        OffDayCells(a, day, k);
        OffDayCells(b, day, k);
      }
    }
  }

  lemma DayViewDays(rows: seq<Row>, day: nat)
    ensures forall r :: r in DayView(rows, day) ==> DayOf(r.timestamp) == day
  {
    hide DayOf;
    LatestIsLatest(OfDay(rows, day));
    OfDayMembers(rows, day);
  }

  /** A staged recompute with no insert to its day in between makes the day match the latest versions if
      and only if no span of the day has moved away; with only new spans inserted, and none of the day's
      spans moved, it does if and only if nothing was inserted to the day. */
  lemma RecomputeExact(t: Table, between: seq<Event>, day: nat)
    requires Maintenance(between) && FreshForDay(t.raw, Inserted(between), day)
    ensures var u := AfterRecompute(t, between, day);
      && (OfDay(Inserted(between), day) == [] ==> (MatchesLatest(u, day) <==> LatestStays(u.raw, day)))
      && (LatestStays(u.raw, day) ==> (MatchesLatest(u, day) <==> OfDay(Inserted(between), day) == []))
  {
    hide AfterRecompute, LatestStays, DayView, CellOf, Read, DayOfCell;
    var u := AfterRecompute(t, between, day);
    RecomputeKeepsUp(t, between, day);
    if DayExact(u, day) {
      ExactDayMatchesLatest(u, day);
    } else if LatestStays(u.raw, day) {
      StaysIsDayView(u, day);
    }
  }

  lemma StaysIsDayView(t: Table, day: nat)
    requires LatestStays(t.raw, day)
    ensures MatchesLatest(t, day) <==> DayExact(t, day)
  {
    hide DayOf, CellOf, DayOfCell, Read, LatestStays, DayView;
    DayViewExact(t.raw, day);
    forall k | DayOfCell(k) == day ensures CellOf(Latest(t.raw), k) == CellOf(DayView(t.raw, day), k) {
      CellOfDay(Latest(t.raw), day, k);
    }
  }

  // --------------------------------------------------------------------- all days

  lemma StaysEverywhere(rows: seq<Row>)
    ensures (forall day :: LatestStays(rows, day)) <==> OneDayPerSpan(rows)
  {
    hide DayOf, Latest;
    LatestIsLatest(rows);
    if forall day :: LatestStays(rows, day) {
      forall a, b | a in rows && b in rows && a.id == b.id ensures DayOf(a.timestamp) == DayOf(b.timestamp) {
        assert HasId(Latest(rows), a.id);
        var x :| x in Latest(rows) && x.id == a.id;
        assert LatestStays(rows, DayOf(a.timestamp)) && LatestStays(rows, DayOf(b.timestamp));
      }
    }
  }

  /** Choosing versions per day and over the whole table is the same, on every day, if and only if no
      span has versions on two days. */
  lemma DayViewsCompose(rows: seq<Row>)
    ensures (forall day :: OfDay(Latest(rows), day) == DayView(rows, day)) <==> OneDayPerSpan(rows)
  {
    hide DayOf, OfDay, Latest, LatestStays, CellOf, OneDayPerSpan;
    StaysEverywhere(rows);
    if OneDayPerSpan(rows) {
      forall day ensures OfDay(Latest(rows), day) == DayView(rows, day) { DayViewsAgree(rows, day); }
    }
    if forall day :: OfDay(Latest(rows), day) == DayView(rows, day) {
      forall day ensures LatestStays(rows, day) {
        DayViewExact(rows, day);
        assert OfDay(Latest(rows), day) == DayView(rows, day);
      }
    }
  }

  /** One day after another, with nothing inserted meanwhile. */
  ghost function RecomputeAll(t: Table, days: seq<nat>): Table {
    if days == [] then t
    else Step(AfterRecompute(RecomputeAll(t, days[..|days| - 1]), [], days[|days| - 1]), DropStaging)
  }

  lemma {:induction false} RecomputeAllCells(t: Table, days: seq<nat>, k: CellKey)
    ensures RecomputeAll(t, days).raw == t.raw
    ensures Read(RecomputeAll(t, days).parts, k) ==
      if DayOfCell(k) in days then CellOf(DayView(t.raw, DayOfCell(k)), k) else Read(t.parts, k)
  {
    hide AfterRecompute, DayView, CellOf, Read, DayOfCell, Plus;
    if days != [] {
      var front, last := days[..|days| - 1], days[|days| - 1];
      RecomputeAllCells(t, front, k);
      RecomputeCells(RecomputeAll(t, front), [], last, k);
      assert Inserted([]) == [] && t.raw + [] == t.raw;
      PlusZero(Read(RecomputeAll(t, front).parts, k));
      NothingInserted(k);
      assert days == front + [last];
    }
  }

  lemma NothingInserted(k: CellKey)
    ensures Maintenance([]) && Inserted([]) == [] && CellOf([], k) == ZERO
  {}

  ghost predicate CoversDays(rows: seq<Row>, days: seq<nat>) {
    forall r :: r in rows ==> DayOf(r.timestamp) in days
  }

  /** After recomputing every day of a maintained rollup, every cell equals the aggregate over the latest
      version of every span if and only if no span has versions on two days. */
  lemma RebuildExact(events: seq<Event>, days: seq<nat>)
    requires Maintenance(events) && CoversDays(Run(NEW, events).raw, days)
    ensures var t := Run(NEW, events);
      RecomputeAll(t, days).raw == t.raw && ((forall k :: CellMatches(RecomputeAll(t, days), k)) <==> OneDayPerSpan(t.raw))
  {
    hide DayOf, CellMatches, DayOfCell, LatestStays, OneDayPerSpan, Latest, RecomputeAll, Run, Inserted;
    var t := Run(NEW, events);
    var u := RecomputeAll(t, days);
    StaysEverywhere(t.raw);
    SomeKey(t, days);
    forall day ensures MatchesLatest(u, day) <==> LatestStays(t.raw, day) {
      RebuiltDay(events, days, day);
    }
    CellsByDay(u);
  }

  lemma CellsByDay(t: Table)
    ensures (forall day :: MatchesLatest(t, day)) <==> (forall k :: CellMatches(t, k))
  {
    hide CellMatches, DayOfCell;
    if forall day :: MatchesLatest(t, day) {
      forall k ensures CellMatches(t, k) {
        assert MatchesLatest(t, DayOfCell(k));
      }
    }
  }

  lemma SomeKey(t: Table, days: seq<nat>)
    ensures RecomputeAll(t, days).raw == t.raw
  {
    RecomputeAllCells(t, days, CellKey("", "", 0, Dims("", "", "", "")));
  }

  lemma RebuiltDay(events: seq<Event>, days: seq<nat>, day: nat)
    requires Maintenance(events) && CoversDays(Run(NEW, events).raw, days)
    ensures MatchesLatest(RecomputeAll(Run(NEW, events), days), day) <==> LatestStays(Run(NEW, events).raw, day)
  {
    hide DayOf, CellOf, DayOfCell, Read, LatestStays, RecomputeAll, Run, Inserted;
    var t := Run(NEW, events);
    var u := RecomputeAll(t, days);
    SomeKey(t, days);
    forall k | DayOfCell(k) == day ensures Read(u.parts, k) == CellOf(DayView(t.raw, day), k) {
      RecomputeAllCells(t, days, k);
      if day !in days {
        ReadIsAggregate(events, k);
        EmptyDay(t.raw, days, day, k);
      }
    }
    assert DayExact(u, day);
    ExactDayMatchesLatest(u, day);
  }

  lemma EmptyDay(rows: seq<Row>, days: seq<nat>, day: nat, k: CellKey)
    requires CoversDays(rows, days) && day !in days && DayOfCell(k) == day
    ensures CellOf(rows, k) == ZERO && CellOf(DayView(rows, day), k) == ZERO
  {
    hide DayOf, CellOf, DayOfCell;
    NoneOfDay(rows, day);
    CellOfDay(rows, day, k);
    NothingInserted(k);
  }

  lemma {:induction false} NoneOfDay(rows: seq<Row>, day: nat)
    requires forall r :: r in rows ==> DayOf(r.timestamp) != day
    ensures OfDay(rows, day) == []
  {
    hide DayOf;
    if rows != [] {
      assert rows[|rows| - 1] in rows && forall r :: r in rows[..|rows| - 1] ==> r in rows;
      NoneOfDay(rows[..|rows| - 1], day);
    }
  }

  const DAY: nat := 86_400_000_000_000

  /** A replay that moves a span over midnight: recomputed day by day, the span counts on both days, and
      in its old cell the latest versions have nothing. */
  lemma MovedSpanCountsTwice(id: SpanId, dims: Dims)
    ensures var a, b := Row(id, 1, 0, dims, 0, false, false, false), Row(id, 2, DAY, dims, 0, false, false, false);
      var t := Run(NEW, [Insert([a]), Insert([b])]); var u := RecomputeAll(t, [0, 1]);
      && t.raw == [a, b] && Latest(t.raw) == [b]
      && Read(u.parts, KeyOf(a)).calls == 1 && Read(u.parts, KeyOf(b)).calls == 1
      && CellOf(Latest(t.raw), KeyOf(a)).calls == 0
  {
    var a, b := Row(id, 1, 0, dims, 0, false, false, false), Row(id, 2, DAY, dims, 0, false, false, false);
    ApartByADay(a, b);
    hide Run, Latest, DayView, Read, CellOf, RecomputeAll, KeyOf, DayOfCell, DayOf;
    TwoInserts(a, b);
    TwoDays(a, b);
    var t := Run(NEW, [Insert([a]), Insert([b])]);
    RecomputeAllCells(t, [0, 1], KeyOf(a));
    RecomputeAllCells(t, [0, 1], KeyOf(b));
    CellDay(a);
    CellDay(b);
    OneRow(a, KeyOf(a));
    OneRow(b, KeyOf(b));
    OneRow(b, KeyOf(a));
  }

  lemma ApartByADay(a: Row, b: Row)
    requires a.timestamp == 0 && b.timestamp == DAY
    ensures DayOf(a.timestamp) == 0 && DayOf(b.timestamp) == 1 && KeyOf(a) != KeyOf(b)
  {}

  lemma TwoInserts(a: Row, b: Row)
    ensures Run(NEW, [Insert([a]), Insert([b])]).raw == [a, b]
  {
    var events := [Insert([a]), Insert([b])];
    assert events[..1] == [Insert([a])] && events[..1][..0] == [];
    assert Run(NEW, events[..1]).raw == [] + [a];
  }

  lemma TwoDays(a: Row, b: Row)
    requires a.id == b.id && a.version < b.version && DayOf(a.timestamp) == 0 && DayOf(b.timestamp) == 1
    ensures Latest([a, b]) == [b] && DayView([a, b], 0) == [a] && DayView([a, b], 1) == [b]
  {
    assert [a, b][..1] == [a] && [a][..0] == [] && [b][..0] == [];
    assert Latest([a]) == [a] && Latest([b]) == [b];
    assert OfDay([a], 0) == [a] && OfDay([a], 1) == [];
  }

  lemma OneRow(r: Row, k: CellKey)
    ensures CellOf([r], k).calls == if KeyOf(r) == k then 1 else 0
  {
    assert [r][..0] == [];
  }
}
