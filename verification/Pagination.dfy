// The trace list: newest first, paged by a (start time, trace id) keyset cursor.
module Pagination {
  import opened Strings
  import opened Text

  /** What a page position depends on. A trace list has at most one row per trace id. */
  datatype Trace = Trace(start: int, id: string)

  // --------------------------------------------------------------- the total order

  /** `ORDER BY start_time DESC, trace_id DESC`: `a` is listed ahead of `b`. The cursor clause selects
      exactly the traces the cursor's position is ahead of. */
  predicate Ahead(a: Trace, b: Trace) {
    b.start < a.start || (b.start == a.start && Before(b.id, a.id))
  }

  lemma AheadIrreflexive(a: Trace)
    ensures !Ahead(a, a)
  {
    BeforeIrreflexive(a.id);
  }

  lemma AheadTransitive(a: Trace, b: Trace, c: Trace)
    requires Ahead(a, b) && Ahead(b, c)
    ensures Ahead(a, c)
  {
    if a.start == b.start == c.start {
      BeforeTransitive(c.id, b.id, a.id);
    }
  }

  lemma AheadTotal(a: Trace, b: Trace)
    ensures Ahead(a, b) || a == b || Ahead(b, a)
  {
    BeforeTotal(a.id, b.id);
  }

  // -------------------------------------------------------------------- the listing

  ghost predicate First(data: set<Trace>, t: Trace) {
    t in data && forall x :: x in data && x != t ==> Ahead(t, x)
  }

  lemma {:induction false} FirstExists(data: set<Trace>)
    requires data != {}
    ensures exists t :: First(data, t)
  {
    hide Ahead;
    var a :| a in data;
    var rest := data - {a};
    if rest == {} {
      assert data == {a};
      assert First(data, a);
    } else {
      FirstExists(rest);
      var t :| First(rest, t);
      AheadTotal(a, t);
      if Ahead(a, t) {
        forall x | x in data && x != a ensures Ahead(a, x) {
          if x != t { AheadTransitive(a, t, x); }
        }
        assert First(data, a);
      } else {
        assert First(data, t);
      }
    }
  }

  ghost function FirstOf(data: set<Trace>): (t: Trace)
    requires data != {}
    ensures First(data, t)
  {
    FirstExists(data);
    var t :| First(data, t);
    t
  }

  /** All matching traces, newest first. */
  ghost function Listing(data: set<Trace>): (list: seq<Trace>)
    ensures |list| == |data|
  {
    if data == {} then [] else [FirstOf(data)] + Listing(data - {FirstOf(data)})
  }

  ghost predicate Descending(list: seq<Trace>) {
    forall i, j :: 0 <= i < j < |list| ==> Ahead(list[i], list[j])
  }

  lemma {:induction false} ListingSorted(data: set<Trace>)
    ensures Descending(Listing(data)) && forall t :: t in Listing(data) <==> t in data
  {
    hide Ahead;
    if data != {} {
      var t := FirstOf(data);
      ListingSorted(data - {t});
      var rest := Listing(data - {t});
      forall j | 0 <= j < |rest| ensures Ahead(t, rest[j]) {
        assert rest[j] in rest;
      }
    }
  }

  lemma {:induction false} SortedUnique(a: seq<Trace>, b: seq<Trace>)
    requires Descending(a) && Descending(b) && forall t :: t in a <==> t in b
    ensures a == b
  {
    hide Ahead;
    assert a != [] ==> a[0] in b;
    assert b != [] ==> b[0] in a;
    if a != [] {
      if a[0] != b[0] {
        var i :| 0 <= i < |b| && b[i] == a[0];
        var j :| 0 <= j < |a| && a[j] == b[0];
        AheadTransitive(a[0], b[0], a[0]);
        AheadIrreflexive(a[0]);
        assert false;
      }
      forall t ensures t in a[1..] <==> t in b[1..] {
        TailMembers(a, t);
        TailMembers(b, t);
      }
      SortedUnique(a[1..], b[1..]);
    }
  }

  lemma TailMembers(a: seq<Trace>, t: Trace)
    requires a != [] && Descending(a)
    ensures t in a[1..] <==> t in a && t != a[0]
  {
    AheadIrreflexive(a[0]);
  }

  // ------------------------------------------------------------------------ cursors

  /** JSON values, as far as cursors go. Base64 and JSON text are taken as invertible. */
  datatype Json = JString(s: string) | JNumber | JList(items: seq<Json>)

  /** `isoformat` and `fromisoformat`; the latter is `None` when it raises. */
  datatype Clock = Clock(iso: int -> string, fromIso: string -> Option<int>)

  ghost predicate Faithful(clock: Clock) {
    forall t :: clock.fromIso(clock.iso(t)) == Some(t)
  }

  function Encode(clock: Clock, t: Trace): Json {
    JList([JString(clock.iso(t.start)), JString(t.id)])
  }

  /** `None` is the ValueError every malformed cursor becomes. */
  function Decode(clock: Clock, raw: Json): Option<Trace> {
    if !raw.JList? || |raw.items| != 2 || !raw.items[0].JString? || !raw.items[1].JString? || raw.items[1].s == ""
    then None
    else
      match clock.fromIso(raw.items[0].s)
      case None => None
      case Some(start) => Some(Trace(start, raw.items[1].s))
  }

  /** A cursor comes back as the position it was made from, unless the trace id is empty: that one is
      issued and then refused. */
  lemma CursorRoundTrip(clock: Clock, t: Trace)
    requires Faithful(clock)
    ensures Decode(clock, Encode(clock, t)) == Some(t) <==> t.id != ""
    ensures t.id == "" ==> Decode(clock, Encode(clock, t)) == None
  {
    assert clock.fromIso(clock.iso(t.start)) == Some(t.start);
  }

  // -------------------------------------------------------------------------- pages

  /** The rows a request selects from: all, or those behind the cursor. */
  ghost function Below(data: set<Trace>, cursor: Option<Trace>): set<Trace> {
    match cursor
    case None => data
    case Some(c) => set t | t in data && Ahead(c, t)
  }

  datatype Page = Page(items: seq<Trace>, next: Option<Json>)

  /** One request: `limit + 1` rows are fetched to learn whether there is more. */
  ghost function Fetch(clock: Clock, data: set<Trace>, limit: nat, cursor: Option<Trace>): Page
    requires limit >= 1
  {
    var all := Listing(Below(data, cursor));
    var rows := if |all| > limit + 1 then all[..limit + 1] else all;
    if |rows| > limit then Page(rows[..limit], Some(Encode(clock, rows[limit - 1]))) else Page(rows, None)
  }

  datatype End =
    | Finished      // the last page carried no cursor
    | Refused       // a cursor we issued was rejected
    | Unfinished    // the reader stopped asking

  datatype Visit = Visit(pages: seq<seq<Trace>>, end: End)

  /** Following `next_cursor`, each request seeing the data as it is then. */
  ghost function Follow(clock: Clock, snapshots: seq<set<Trace>>, limit: nat, cursor: Option<Trace>): Visit
    requires limit >= 1
    decreases |snapshots|
  {
    if snapshots == [] then Visit([], Unfinished)
    else
      var page := Fetch(clock, snapshots[0], limit, cursor);
      match page.next
      case None => Visit([page.items], Finished)
      case Some(raw) =>
        match Decode(clock, raw)
        case None => Visit([page.items], Refused)
        case Some(c) =>
          var rest := Follow(clock, snapshots[1..], limit, Some(c));
          Visit([page.items] + rest.pages, rest.end)
  }

  function Concat(pages: seq<seq<Trace>>): seq<Trace> {
    if pages == [] then [] else pages[0] + Concat(pages[1..])
  }

  // ------------------------------------------------------------------ unchanged data

  /** A list cut into pages; the empty list is one empty page. */
  function Chunks(list: seq<Trace>, limit: nat): (chunks: seq<seq<Trace>>)
    requires limit >= 1
    ensures chunks != []
    decreases |list|
  {
    if |list| <= limit then [list] else [list[..limit]] + Chunks(list[limit..], limit)
  }

  lemma {:induction false} ChunksConcat(list: seq<Trace>, limit: nat)
    requires limit >= 1
    ensures Concat(Chunks(list, limit)) == list
    decreases |list|
  {
    if |list| <= limit {
      assert [list][1..] == [];
    } else {
      ChunksConcat(list[limit..], limit);
      var c := Chunks(list, limit);
      assert c[0] == list[..limit] && c[1..] == Chunks(list[limit..], limit);
      assert list == list[..limit] + list[limit..];
    }
  }

  lemma ProductGrows(a: nat, b: nat, c: nat)
    ensures a <= b ==> a * c <= b * c
  {
    if a <= b {
      assert b * c == a * c + (b - a) * c;
    }
  }

  lemma {:induction false} QuotientUnique(m: nat, limit: nat, q: nat)
    requires limit >= 1 && q * limit <= m < q * limit + limit
    ensures m / limit == q
  {
    var r := m / limit;
    assert r * limit <= m < r * limit + limit;
    ProductGrows(r + 1, q, limit);
    ProductGrows(q + 1, r, limit);
  }

  lemma {:induction false} QuotientStep(n: nat, limit: nat)
    requires limit >= 1
    ensures (n + limit) / limit == n / limit + 1
  {
    var q := n / limit;
    assert q * limit <= n < q * limit + limit;
    assert (q + 1) * limit == q * limit + limit;
    QuotientUnique(n + limit, limit, q + 1);
  }

  /** max(1, ceil(n / limit)). */
  lemma {:induction false} ChunkCount(list: seq<Trace>, limit: nat)
    requires limit >= 1
    ensures |Chunks(list, limit)| == if list == [] then 1 else (|list| + limit - 1) / limit
    decreases |list|
  {
    if 0 < |list| <= limit {
      QuotientStep(|list| - 1, limit);
      assert (|list| - 1) / limit == 0;
    } else if |list| > limit {
      ChunkCount(list[limit..], limit);
      QuotientStep(|list| - 1, limit);
    }
  }

  /** The traces behind position n - 1 of a listing are the rest of it. */
  lemma BelowCursor(data: set<Trace>, cursor: Option<Trace>, n: nat)
    requires 1 <= n <= |Listing(Below(data, cursor))|
    ensures var list := Listing(Below(data, cursor)); Listing(Below(data, Some(list[n - 1]))) == list[n..]
  {
    hide Ahead, Listing;
    var list := Listing(Below(data, cursor));
    var c := list[n - 1];
    ListingSorted(Below(data, cursor));
    ListingSorted(Below(data, Some(c)));
    forall t ensures t in list[n..] <==> t in Below(data, Some(c)) {
      if t in list[n..] {
        var j :| n <= j < |list| && list[j] == t;
        assert t in Below(data, cursor);
      }
      if t in Below(data, Some(c)) {
        assert c in Below(data, cursor);
        if cursor.Some? { AheadTransitive(cursor.value, c, t); }
        assert t in list;
        var j :| 0 <= j < |list| && list[j] == t;
        if j < n {
          if j < n - 1 { AheadTransitive(t, c, t); }
          AheadIrreflexive(t);
          assert false;
        }
      }
    }
    SortedUnique(Listing(Below(data, Some(c))), list[n..]);
  }

  /** Some page other than the last ends in a trace with an empty id. */
  ghost predicate EmptyIdAtBreak(chunks: seq<seq<Trace>>) {
    exists i :: 0 <= i < |chunks| - 1 && chunks[i] != [] && chunks[i][|chunks[i]| - 1].id == ""
  }

  lemma FetchFirst(clock: Clock, data: set<Trace>, limit: nat, cursor: Option<Trace>)
    requires limit >= 1
    ensures var list, page := Listing(Below(data, cursor)), Fetch(clock, data, limit, cursor);
      if |list| > limit then page == Page(list[..limit], Some(Encode(clock, list[limit - 1]))) else page == Page(list, None)
  {}

  lemma BreakCons(page: seq<Trace>, rest: seq<seq<Trace>>)
    requires page != [] && rest != []
    ensures EmptyIdAtBreak([page] + rest) <==> page[|page| - 1].id == "" || EmptyIdAtBreak(rest)
  {
    var chunks := [page] + rest;
    if page[|page| - 1].id == "" {
      assert chunks[0] == page;
    }
    if i :| 0 <= i < |rest| - 1 && rest[i] != [] && rest[i][|rest[i]| - 1].id == "" {
      assert chunks[i + 1] == rest[i];
    }
    if i :| 0 <= i < |chunks| - 1 && chunks[i] != [] && chunks[i][|chunks[i]| - 1].id == "" {
      if i > 0 { assert rest[i - 1] == chunks[i]; }
    }
  }

  lemma {:induction false} FollowUnchanged(clock: Clock, data: set<Trace>, snapshots: seq<set<Trace>>,
      limit: nat, cursor: Option<Trace>)
    requires limit >= 1 && Faithful(clock)
    requires forall s :: s in snapshots ==> s == data
    requires |snapshots| >= |Chunks(Listing(Below(data, cursor)), limit)|
    ensures var chunks := Chunks(Listing(Below(data, cursor)), limit);
      var visit := Follow(clock, snapshots, limit, cursor);
      if EmptyIdAtBreak(chunks) then visit.end == Refused
      else visit.end == Finished && visit.pages == chunks
    decreases |snapshots|
  {
    hide Listing, Below, Fetch, Encode, Decode, Ahead, EmptyIdAtBreak;
    var list := Listing(Below(data, cursor));
    assert snapshots[0] in snapshots;
    FetchFirst(clock, data, limit, cursor);
    if |list| <= limit {
      OnePageNoBreak(list);
    } else {
      var c := list[limit - 1];
      CursorRoundTrip(clock, c);
      BreakCons(list[..limit], Chunks(list[limit..], limit));
      if c.id != "" {
        BelowCursor(data, cursor, limit);
        forall s | s in snapshots[1..] ensures s == data { assert s in snapshots; }
        FollowUnchanged(clock, data, snapshots[1..], limit, Some(c));
      }
    }
  }

  lemma OnePageNoBreak(page: seq<Trace>)
    ensures !EmptyIdAtBreak([page])
  {}

  /** Following the cursor over unchanged data reaches the end, in max(1, ceil(n / limit)) pages that
      list every trace once, newest first, exactly when no page but the last ends in an empty trace id;
      otherwise the service refuses a cursor it issued. */
  lemma {:induction false} WholeListOnce(clock: Clock, data: set<Trace>, snapshots: seq<set<Trace>>, limit: nat)
    requires limit >= 1 && Faithful(clock)
    requires forall s :: s in snapshots ==> s == data
    requires |snapshots| >= |Chunks(Listing(data), limit)|
    ensures var visit := Follow(clock, snapshots, limit, None);
      && (visit.end == Finished <==> !EmptyIdAtBreak(Chunks(Listing(data), limit)))
      && (visit.end == Finished ==>
           && Concat(visit.pages) == Listing(data)
           && |visit.pages| == if |data| == 0 then 1 else (|data| + limit - 1) / limit)
  {
    hide Listing, Follow, Chunks;
    FollowUnchanged(clock, data, snapshots, limit, None);
    ChunksConcat(Listing(data), limit);
    ChunkCount(Listing(data), limit);
  }

  // ------------------------------------------------------------------- changing data

  lemma {:induction false} FollowBehindCursor(clock: Clock, snapshots: seq<set<Trace>>, limit: nat, cursor: Option<Trace>)
    requires limit >= 1 && Faithful(clock)
    ensures var all := Concat(Follow(clock, snapshots, limit, cursor).pages);
      Descending(all) && forall t :: t in all ==> cursor.Some? ==> Ahead(cursor.value, t)
    decreases |snapshots|
  {
    hide Listing, Fetch, Encode, Decode, Ahead;
    if snapshots != [] {
      var data := snapshots[0];
      var list := Listing(Below(data, cursor));
      var page := Fetch(clock, data, limit, cursor);
      FetchFirst(clock, data, limit, cursor);
      ListingSorted(Below(data, cursor));
      forall t | t in page.items ensures t in list {}
      assert Concat([page.items]) == page.items + [];
      if |list| > limit {
        var c := list[limit - 1];
        CursorRoundTrip(clock, c);
        if c.id != "" {
          FollowBehindCursor(clock, snapshots[1..], limit, Some(c));
          var rest := Follow(clock, snapshots[1..], limit, Some(c));
          assert ([page.items] + rest.pages)[1..] == rest.pages;
          assert c in list;
          JoinDescending(page.items, Concat(rest.pages));
          forall t | t in Concat(rest.pages) ensures cursor.Some? ==> Ahead(cursor.value, t) {
            if cursor.Some? { AheadTransitive(cursor.value, c, t); }
          }
        }
      }
    }
  }

  lemma JoinDescending(a: seq<Trace>, b: seq<Trace>)
    requires a != [] && Descending(a) && Descending(b) && forall t :: t in b ==> Ahead(a[|a| - 1], t)
    ensures Descending(a + b)
  {
    hide Ahead;
    var c := a[|a| - 1];
    forall i, j | 0 <= i < |a| && 0 <= j < |b| ensures Ahead(a[i], b[j]) {
      assert b[j] in b;
      if i < |a| - 1 { AheadTransitive(a[i], c, b[j]); }
    }
  }

  lemma {:induction false} FollowFindsStable(clock: Clock, snapshots: seq<set<Trace>>, limit: nat,
      cursor: Option<Trace>, x: Trace)
    requires limit >= 1 && Faithful(clock)
    requires Follow(clock, snapshots, limit, cursor).end == Finished
    requires forall i :: 0 <= i < |Follow(clock, snapshots, limit, cursor).pages| && i < |snapshots| ==> x in snapshots[i]
    requires cursor.Some? ==> Ahead(cursor.value, x)
    ensures x in Concat(Follow(clock, snapshots, limit, cursor).pages)
    decreases |snapshots|
  {
    hide Listing, Fetch, Encode, Decode, Ahead;
    var data := snapshots[0];
    var list := Listing(Below(data, cursor));
    var page := Fetch(clock, data, limit, cursor);
    FetchFirst(clock, data, limit, cursor);
    ListingSorted(Below(data, cursor));
    assert x in list;
    assert Concat([page.items]) == page.items + [];
    if |list| > limit {
      var c := list[limit - 1];
      CursorRoundTrip(clock, c);
      var rest := Follow(clock, snapshots[1..], limit, Some(c));
      assert ([page.items] + rest.pages)[1..] == rest.pages;
      if x !in page.items {
        assert list == page.items + list[limit..] && x in list[limit..];
        forall i | 0 <= i < |rest.pages| && i < |snapshots[1..]| ensures x in snapshots[1..][i] {
          assert snapshots[1..][i] == snapshots[i + 1];
        }
        FollowFindsStable(clock, snapshots[1..], limit, Some(c), x);
      }
    }
  }

  /** However the data changes between requests, no position is ever listed twice, and a trace present
      with an unchanged key at every request of a finished visit is listed exactly once. */
  lemma StableTracesOnce(clock: Clock, snapshots: seq<set<Trace>>, limit: nat, x: Trace)
    requires limit >= 1 && Faithful(clock)
    ensures var visit := Follow(clock, snapshots, limit, None);
      && Descending(Concat(visit.pages))
      && (forall i, j :: 0 <= i < j < |Concat(visit.pages)| ==> Concat(visit.pages)[i] != Concat(visit.pages)[j])
      && (visit.end == Finished && (forall i :: 0 <= i < |visit.pages| && i < |snapshots| ==> x in snapshots[i]) ==>
           x in Concat(visit.pages))
  {
    hide Follow, Ahead;
    var all := Concat(Follow(clock, snapshots, limit, None).pages);
    FollowBehindCursor(clock, snapshots, limit, None);
    forall i, j | 0 <= i < j < |all| ensures all[i] != all[j] {
      AheadIrreflexive(all[i]);
    }
    var visit := Follow(clock, snapshots, limit, None);
    if visit.end == Finished && (forall i :: 0 <= i < |visit.pages| && i < |snapshots| ==> x in snapshots[i]) {
      FollowFindsStable(clock, snapshots, limit, None, x);
    }
  }

  // ------------------------------------------------------------------ newest first

  /** Over any visit and whatever the data does meanwhile: each trace listed started later than every one
      listed after it, or at the same time with the greater trace id. */
  lemma NewestFirst(clock: Clock, snapshots: seq<set<Trace>>, limit: nat, i: nat, j: nat)
    requires limit >= 1 && Faithful(clock)
    requires i < j < |Concat(Follow(clock, snapshots, limit, None).pages)|
    ensures var all := Concat(Follow(clock, snapshots, limit, None).pages);
      all[i].start > all[j].start || (all[i].start == all[j].start && Before(all[j].id, all[i].id))
  {
    hide Follow;
    FollowBehindCursor(clock, snapshots, limit, None);
  }

  /** The trace lies behind the cursor, if there is one. */
  predicate Behind(t: Trace, cursor: Option<Trace>) {
    match cursor
    case None => true
    case Some(c) => t.start < c.start || (t.start == c.start && Before(t.id, c.id))
  }

  /** One page: traces of the data behind the cursor and no others, the newest of them, at most `limit`, and
      all of them exactly when there is no next cursor. */
  lemma PageMeans(clock: Clock, data: set<Trace>, limit: nat, cursor: Option<Trace>)
    requires limit >= 1
    ensures var page := Fetch(clock, data, limit, cursor);
      && |page.items| <= limit
      && (forall t :: t in page.items ==> t in data && Behind(t, cursor))
      && (forall t, x :: t in page.items && x in data && Behind(x, cursor) && x !in page.items ==>
            t.start > x.start || (t.start == x.start && Before(x.id, t.id)))
      && (page.next.None? <==> forall x :: x in data && Behind(x, cursor) ==> x in page.items)
      && (page.next.Some? ==> |page.items| == limit && page.next == Some(Encode(clock, page.items[limit - 1])))
  {
    hide Listing, Encode;
    var list := Listing(Below(data, cursor));
    var page := Fetch(clock, data, limit, cursor);
    ListingSorted(Below(data, cursor));
    FetchFirst(clock, data, limit, cursor);
    forall x ensures x in list <==> x in data && Behind(x, cursor) {}
    forall t, x | t in page.items && x in list && x !in page.items ensures Ahead(t, x) {
      var i :| 0 <= i < |page.items| && page.items[i] == t;
      var j :| 0 <= j < |list| && list[j] == x;
      assert page.items == list[..|page.items|] && list[i] == t;
    }
    if |list| > limit {
      var x := list[limit];
      assert x in list;
      AheadIrreflexive(x);
      assert x !in page.items;
    }
  }
}
