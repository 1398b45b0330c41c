// The read side chooses latest versions among the rows of its time window. When that shows the window of
// the latest versions.
module LatestWindow {
  import opened RollupSpec
  import opened RollupTheorems
  import opened RollupDays

  /** The latest-version read: the time filter comes before the version choice. */
  function WindowView(rows: seq<Row>, since: nat): seq<Row> {
    Latest(From(rows, since))
  }

  /** No span with a version in the window has its latest version before it. */
  ghost predicate NoneMovedOut(rows: seq<Row>, since: nat) {
    forall r, x :: r in rows && r.timestamp >= since && x in Latest(rows) && x.id == r.id ==> x.timestamp >= since
  }

  lemma {:induction false} FromMembers(rows: seq<Row>, since: nat)
    ensures forall x :: x in From(rows, since) <==> x in rows && x.timestamp >= since
    ensures DistinctIds(rows) ==> DistinctIds(From(rows, since))
  {
    if rows != [] {
      var front, last := rows[..|rows| - 1], rows[|rows| - 1];
      FromMembers(front, since);
      assert rows == front + [last];
    }
  }

  /** A latest version in the window is the latest in the window. */
  lemma {:induction false} LatestIsLatestInWindow(rows: seq<Row>, since: nat, x: Row)
    requires x in Latest(rows) && x.timestamp >= since
    ensures x in WindowView(rows, since)
  {
    hide Supersede;
    var front, last := rows[..|rows| - 1], rows[|rows| - 1];
    var view, window := Latest(front), WindowView(front, since);
    LatestIsLatest(front);
    LatestIsLatest(From(front, since));
    SupersedeMembers(view, last, x);
    if x in view {
      LatestIsLatestInWindow(front, since, x);
    }
    if last.timestamp >= since {
      assert From(rows, since)[..|From(rows, since)| - 1] == From(front, since);
      SupersedeMembers(window, last, x);
      FromMembers(front, since);
      forall y | y in window && y.id == last.id ensures y in front && HasId(view, y.id) {}
    }
  }

  /** What the read shows and what the latest versions have in the window: the same rows, and equal in every
      aggregate, if and only if no span of the window has its latest version before it. */
  lemma WindowViewExact(rows: seq<Row>, since: nat)
    ensures (forall x :: x in WindowView(rows, since) <==> x in From(Latest(rows), since)) <==> NoneMovedOut(rows, since)
    ensures SameCells(From(Latest(rows), since), WindowView(rows, since)) <==> NoneMovedOut(rows, since)
  {
    hide CellOf, Supersede, Latest, From;
    var a, b := From(Latest(rows), since), WindowView(rows, since);
    LatestIsLatest(rows);
    LatestIsLatest(From(rows, since));
    FromMembers(Latest(rows), since);
    FromMembers(rows, since);
    forall x | x in a ensures x in b { LatestIsLatestInWindow(rows, since, x); }
    if NoneMovedOut(rows, since) {
      forall y | y in b ensures y in a {
        assert HasId(Latest(rows), y.id);
        var x :| x in Latest(rows) && x.id == y.id;
        IdsDetermine(b, x, y);
      }
      SameMembers(a, b);
      forall k ensures CellOf(a, k) == CellOf(b, k) { CellOfPermuted(a, b, k); }
    }
    if SameCells(a, b) {
      SameCellsSameTotal(a, b);
      SubsetOfSameLength(a, b);
      forall x | x in b ensures x in a { assert x in multiset(b) && x in multiset(a); }
    }
    if forall x | x in b :: x in a {
      forall r, x | r in rows && r.timestamp >= since && x in Latest(rows) && x.id == r.id ensures x.timestamp >= since {
        assert r in From(rows, since) && HasId(b, r.id);
        var y :| y in b && y.id == r.id;
        IdsDetermine(Latest(rows), x, y);
      }
    }
  }

  /** The input that goes wrong: a replay moves a span's start back over the window's edge, and the window
      shows the version it replaced. */
  lemma MovedOutShowsOld(was: Row, corrected: Row, since: nat)
    requires was.id == corrected.id && was.version < corrected.version
    requires corrected.timestamp < since <= was.timestamp
    ensures Latest([was, corrected]) == [corrected]
    ensures WindowView([was, corrected], since) == [was] && From(Latest([was, corrected]), since) == []
  {
    var one, two := [was], [was, corrected];
    assert one[..0] == [] && two[..1] == one && [corrected][..0] == [];
    assert From(one, since) == [] + [was] == one && From(two, since) == one;
    assert Latest(one) == Supersede([], was) == [] + [was];
    assert Latest(two) == Supersede(one, corrected) == one[0 := corrected];
    assert From([corrected], since) == [];
  }
}
