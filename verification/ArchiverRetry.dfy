// Flushes that fail after some puts, the retries that follow, and when the one that succeeds overwrites
// everything they left behind.
module ArchiverRetry {
  import opened Basics
  import opened Text
  import opened ArchiveKey
  import opened Otlp
  import opened ArchiverSpec
  import opened ArchiverSafety

  // --------------------------------------------------------------- what was put

  ghost predicate PutUnder(g: Groups, hour: UtcHour, n: nat, name: string)
    requires Listed(g) && n <= |g.order|
  {
    exists i :: 0 <= i < n && name == ObjectName(g.order[i], g.at[g.order[i]], hour)
  }

  lemma {:induction false} PutNames(store: Store, g: Groups, hour: UtcHour, n: nat, name: string)
    requires Listed(g) && n <= |g.order|
    ensures name in PutFirst(store, g, hour, n) <==> name in store || PutUnder(g, hour, n, name)
  {
    hide ObjectName;
    if n > 0 {
      PutNames(store, g, hour, n - 1, name);
      var last := ObjectName(g.order[n - 1], g.at[g.order[n - 1]], hour);
      if name == last { assert PutUnder(g, hour, n, name); }
      if PutUnder(g, hour, n, name) {
        var i :| 0 <= i < n && name == ObjectName(g.order[i], g.at[g.order[i]], hour);
        assert i < n - 1 ==> PutUnder(g, hour, n - 1, name);
      }
      if PutUnder(g, hour, n - 1, name) {
        var i :| 0 <= i < n - 1 && name == ObjectName(g.order[i], g.at[g.order[i]], hour);
        assert PutUnder(g, hour, n, name);
      }
    }
  }

  /** Names fix contents, so correct stores with the same names are the same. */
  lemma SameNamesSameStore(w: World, a: Store, b: Store)
    requires AllCorrect(w, a) && AllCorrect(w, b) && forall name :: name in a <==> name in b
    ensures a == b
  {
    hide Key, Range, PartsAt;
    forall name | name in a ensures a[name] == b[name] {
      assert Correct(w, name, a[name]) && Correct(w, name, b[name]);
      var t, h: UtcHour, p: nat, f: nat, l: nat :| name == Key(t, h, p, f, l) && Holds(w, t, p, f, l, a[name]);
      var t', h': UtcHour, p': nat, f': nat, l': nat :| name == Key(t', h', p', f', l') && Holds(w, t', p', f', l', b[name]);
      KeyInjective(t, h, p, f, l, t', h', p', f', l');
    }
  }

  predicate SameBounds(a: Group, b: Group) {
    a.first == b.first && a.last == b.last
  }

  /** A put of the retry goes to the same object exactly when hour, group and bounds agree. */
  lemma Overwritten(g: Groups, again: Groups, k: GroupKey, hour: UtcHour, retry: UtcHour)
    requires Listed(again) && k in g.at
    ensures PutUnder(again, retry, |again.order|, ObjectName(k, g.at[k], hour)) <==>
      hour == retry && k in again.at && SameBounds(g.at[k], again.at[k])
  {
    hide Key;
    var name := ObjectName(k, g.at[k], hour);
    if PutUnder(again, retry, |again.order|, name) {
      var i :| 0 <= i < |again.order| && name == ObjectName(again.order[i], again.at[again.order[i]], retry);
      var j := again.order[i];
      KeyInjective(k.tenant, hour, k.partition, g.at[k].first, g.at[k].last,
                   j.tenant, retry, j.partition, again.at[j].first, again.at[j].last);
    }
    if hour == retry && k in again.at && SameBounds(g.at[k], again.at[k]) {
      assert k in again.order;
      var i :| 0 <= i < |again.order| && again.order[i] == k;
      assert name == ObjectName(again.order[i], again.at[again.order[i]], retry);
    }
  }

  // -------------------------------------------------------- a stretch of attempts

  /** How many groups a flush puts before it raises or ends. */
  function PutCount(g: Groups, outcome: Outcome): (n: nat)
    ensures n <= |g.order|
  {
    if outcome.PutRaised? && g.order != [] then Min(outcome.puts, |g.order| - 1) else |g.order|
  }

  /** Event `j` of the stretch is a flush that put its i-th group. */
  predicate Puts(w: World, s: State, stretch: seq<Event>, j: nat, i: nat)
    requires Listed(s.groups) && j < |stretch|
  {
    stretch[j].Flush? && i < PutCount(Run(w, s, stretch[..j]).groups, stretch[j].outcome)
  }

  ghost predicate PutsName(w: World, s: State, stretch: seq<Event>, j: nat, name: string)
    requires Listed(s.groups) && j < |stretch|
  {
    var g := Run(w, s, stretch[..j]).groups;
    stretch[j].Flush? && PutUnder(g, stretch[j].hour, PutCount(g, stretch[j].outcome), name)
  }

  lemma FlushPuts(w: World, s: State, hour: UtcHour, outcome: Outcome)
    requires Listed(s.groups)
    ensures FlushSpec(w, s, hour, outcome).store == PutFirst(s.store, s.groups, hour, PutCount(s.groups, outcome))
  {
    hide PutFirst;
    if s.groups.order != [] { NotEmpty(s.groups); } else { NothingListed(s, hour); }
  }

  lemma NothingListed(s: State, hour: UtcHour)
    requires Listed(s.groups) && s.groups.order == []
    ensures s.groups.at == map[] && PutFirst(s.store, s.groups, hour, 0) == s.store
  {
    forall k ensures k !in s.groups.at { assert k !in s.groups.order; }
  }

  lemma {:induction false} StretchNames(w: World, s: State, stretch: seq<Event>, name: string)
    requires Listed(s.groups)
    ensures name in Run(w, s, stretch).store <==>
      name in s.store || exists j :: 0 <= j < |stretch| && PutsName(w, s, stretch, j, name)
  {
    hide PutUnder, PutFirst, Listed;
    if stretch != [] {
      var n, front, last := |stretch| - 1, stretch[..|stretch| - 1], stretch[|stretch| - 1];
      StretchNames(w, s, front, name);
      forall j | 0 <= j < n ensures PutsName(w, s, stretch, j, name) <==> PutsName(w, s, front, j, name) {
        assert front[..j] == stretch[..j];
      }
      if last.Flush? {
        var t := Run(w, s, front);
        FlushPuts(w, t, last.hour, last.outcome);
        PutNames(t.store, t.groups, last.hour, PutCount(t.groups, last.outcome), name);
        assert PutsName(w, s, stretch, n, name) <==> PutUnder(t.groups, last.hour, PutCount(t.groups, last.outcome), name);
      }
    }
  }

  lemma {:induction false} InvAlong(w: World, s: State, events: seq<Event>)
    requires Inv(w, s)
    ensures Inv(w, Run(w, s, events))
  {
    hide Step, GroupMatches, Archived, Correct;
    if events != [] {
      InvAlong(w, s, events[..|events| - 1]);
      StepKeeps(w, Run(w, s, events[..|events| - 1]), events[|events| - 1]);
    }
  }

  lemma DonePutsAll(w: World, t: State, retry: UtcHour)
    requires Listed(t.groups)
    ensures FlushSpec(w, t, retry, Done).store == PutFirst(t.store, t.groups, retry, |t.groups.order|)
  {
    if t.groups.order != [] { NotEmpty(t.groups); }
  }

  lemma NotEmpty(g: Groups)
    requires Listed(g) && g.order != []
    ensures g.at != map[]
  {
    assert g.order[0] in g.order;
  }

  lemma BothCorrect(w: World, s: State, t: State, retry: UtcHour)
    requires Inv(w, s) && Inv(w, t)
    ensures AllCorrect(w, PutFirst(t.store, t.groups, retry, |t.groups.order|))
    ensures AllCorrect(w, PutFirst(s.store, t.groups, retry, |t.groups.order|))
  {
    hide PutFirst, AllCorrect, GroupMatches;
    PutFirstKeeps(w, t.store, t.groups, retry, |t.groups.order|, t.base, t.position);
    PutFirstKeeps(w, s.store, t.groups, retry, |t.groups.order|, t.base, t.position);
  }

  /** After the stretch, a flush that ends well leaves the store as if it alone had put anything. */
  ghost predicate LeavesNothingElse(w: World, s: State, stretch: seq<Event>, retry: UtcHour)
    requires Listed(s.groups)
  {
    var t := Run(w, s, stretch);
    FlushSpec(w, t, retry, Done).store == PutFirst(s.store, t.groups, retry, |t.groups.order|)
  }

  /** An object put in the stretch was there before it, or the retry puts it again: in the same hour, for a
      group with the same bounds. */
  ghost predicate PutAgain(w: World, s: State, stretch: seq<Event>, retry: UtcHour, j: nat, i: nat)
    requires Listed(s.groups) && j < |stretch| && Puts(w, s, stretch, j, i)
  {
    var g, again := Run(w, s, stretch[..j]).groups, Run(w, s, stretch).groups;
    var k := g.order[i];
    assert k in g.order;
    || ObjectName(k, g.at[k], stretch[j].hour) in s.store
    || (stretch[j].hour == retry && k in again.at && SameBounds(g.at[k], again.at[k]))
  }

  /** From any state of any run, say after the last commit: whatever deliveries, failing flushes (the one at
      shutdown included) and restarts come in between, a flush that ends well leaves nothing but its own
      objects if and only if each object put in between was there before or is put again. */
  lemma RetryOverwrites(w: World, events: seq<Event>, stretch: seq<Event>, retry: UtcHour)
    ensures var s := Run(w, Initial(w), events);
      LeavesNothingElse(w, s, stretch, retry) <==>
        forall j: nat, i: nat :: j < |stretch| && Puts(w, s, stretch, j, i) ==> PutAgain(w, s, stretch, retry, j, i)
  {
    hide Run, LeavesNothingElse, Puts, PutAgain, Inv;
    RunKeeps(w, events);
    InvListed(w, Run(w, Initial(w), events));
    RetryFrom(w, Run(w, Initial(w), events), stretch, retry);
  }

  lemma InvListed(w: World, s: State)
    requires Inv(w, s)
    ensures Listed(s.groups)
  {}

  /** In terms of names: all that was put in the stretch was there before or is put by the retry. */
  lemma RetryByNames(w: World, s: State, stretch: seq<Event>, retry: UtcHour)
    requires Inv(w, s) && Listed(s.groups)
    ensures var g := Run(w, s, stretch).groups;
      LeavesNothingElse(w, s, stretch, retry) <==>
        forall j, name :: 0 <= j < |stretch| && PutsName(w, s, stretch, j, name) ==>
          name in s.store || PutUnder(g, retry, |g.order|, name)
  {
    hide Run, PutFirst, AllCorrect, Inv, PutUnder, PutsName;
    InvAlong(w, s, stretch);
    var t := Run(w, s, stretch);
    var n := |t.groups.order|;
    var after, only := PutFirst(t.store, t.groups, retry, n), PutFirst(s.store, t.groups, retry, n);
    DonePutsAll(w, t, retry);
    BothCorrect(w, s, t, retry);
    forall name
      ensures name in t.store <==> name in s.store || exists j :: 0 <= j < |stretch| && PutsName(w, s, stretch, j, name)
      ensures name in after <==> name in t.store || PutUnder(t.groups, retry, n, name)
      ensures name in only <==> name in s.store || PutUnder(t.groups, retry, n, name)
    {
      StretchNames(w, s, stretch, name);
      PutNames(t.store, t.groups, retry, n, name);
      PutNames(s.store, t.groups, retry, n, name);
    }
    if forall name :: name in after <==> name in only {
      SameNamesSameStore(w, after, only);
    }
  }

  lemma RetryFrom(w: World, s: State, stretch: seq<Event>, retry: UtcHour)
    requires Inv(w, s) && Listed(s.groups)
    ensures LeavesNothingElse(w, s, stretch, retry) <==>
      forall j: nat, i: nat :: j < |stretch| && Puts(w, s, stretch, j, i) ==> PutAgain(w, s, stretch, retry, j, i)
  {
    hide Run, LeavesNothingElse, Inv, PutUnder, PutCount, SameBounds, ObjectName;
    RetryByNames(w, s, stretch, retry);
    var again := Run(w, s, stretch).groups;
    forall j: nat, i: nat | j < |stretch| && Puts(w, s, stretch, j, i)
      ensures var g := Run(w, s, stretch[..j]).groups; var k := g.order[i];
        && k in g.at && PutsName(w, s, stretch, j, ObjectName(k, g.at[k], stretch[j].hour))
        && (PutAgain(w, s, stretch, retry, j, i) <==>
              var name := ObjectName(k, g.at[k], stretch[j].hour);
              name in s.store || PutUnder(again, retry, |again.order|, name))
    {
      var g := Run(w, s, stretch[..j]).groups;
      assert g.order[i] in g.order;
      Overwritten(g, again, g.order[i], stretch[j].hour, retry);
      PutsItsOwn(g, stretch[j].hour, PutCount(g, stretch[j].outcome), i);
    }
    if forall j: nat, i: nat :: j < |stretch| && Puts(w, s, stretch, j, i) ==> PutAgain(w, s, stretch, retry, j, i) {
      forall j, name | 0 <= j < |stretch| && PutsName(w, s, stretch, j, name)
        ensures name in s.store || PutUnder(again, retry, |again.order|, name)
      {
        var g := Run(w, s, stretch[..j]).groups;
        var i := WhoPut(g, stretch[j].hour, PutCount(g, stretch[j].outcome), name);
        assert Puts(w, s, stretch, j, i) && PutAgain(w, s, stretch, retry, j, i);
      }
    }
  }

  lemma PutsItsOwn(g: Groups, hour: UtcHour, n: nat, i: nat)
    requires Listed(g) && i < n <= |g.order|
    ensures PutUnder(g, hour, n, ObjectName(g.order[i], g.at[g.order[i]], hour))
  {}

  lemma WhoPut(g: Groups, hour: UtcHour, n: nat, name: string) returns (i: nat)
    requires Listed(g) && n <= |g.order| && PutUnder(g, hour, n, name)
    ensures i < n && name == ObjectName(g.order[i], g.at[g.order[i]], hour)
  {
    i :| 0 <= i < n && name == ObjectName(g.order[i], g.at[g.order[i]], hour);
  }

  // ------------------------------------------------------- the same window again

  /** Nothing to archive lies between `lo` and the open batch. */
  ghost predicate OpensAt(w: World, s: State, lo: seq<nat>) {
    && |lo| == |s.base|
    && forall t, p :: 0 <= p < |lo| ==> NothingBetween(w, t, p, lo[p], s.base[p])
  }

  ghost predicate NothingBetween(w: World, t: string, p: nat, lo: nat, end: nat) {
    lo <= end && Range(w, t, p, lo, end) == []
  }

  /** While no flush has raised, nothing to archive lies between the commit and the open batch. */
  ghost predicate Quiet(w: World, s: State) {
    && |s.committed| == |s.base|
    && (!s.failed ==> OpensAt(w, s, s.committed))
  }

  lemma BaseAfter(w: World, s: State, e: Event)
    requires Listed(s.groups) && (e.Flush? && e.outcome == Done ==> s.groups.at == map[])
    ensures Step(w, s, e).base ==
      if e.Flush? && s.groups.at == map[] then s.position else if e.Restart? then s.committed else s.base
  {
    hide PutFirst, AddAll, Parts;
  }

  /** Without a group, the open window has nothing to archive. */
  lemma NoGroupNothing(w: World, s: State, t: string, p: nat)
    requires Inv(w, s) && s.groups.at == map[] && p < |s.base|
    ensures s.base[p] <= s.position[p] && Range(w, t, p, s.base[p], s.position[p]) == []
  {
    hide Range, PartsAt, AllCorrect, ArchivedBelow;
    assert GroupMatches(w, s.groups, t, p, s.base[p], s.position[p]);
  }

  lemma OpensStep(w: World, s: State, e: Event, lo: seq<nat>)
    requires Inv(w, s) && Listed(s.groups) && OpensAt(w, s, lo)
    requires e.Restart? ==> s.committed == lo
    requires e.Flush? && e.outcome == Done ==> s.groups.at == map[]
    ensures OpensAt(w, Step(w, s, e), lo)
  {
    hide Range, Inv, Step;
    BaseAfter(w, s, e);
    SameLengths(w, s);
    var next := Step(w, s, e);
    forall t, p | 0 <= p < |lo| ensures NothingBetween(w, t, p, lo[p], next.base[p]) {
      assert NothingBetween(w, t, p, lo[p], s.base[p]);
      RangeEmpty(w, t, p, lo[p]);
      if e.Flush? && s.groups.at == map[] {
        NoGroupNothing(w, s, t, p);
        RangeSplit(w, t, p, lo[p], s.base[p], s.position[p]);
      }
    }
  }

  lemma SameLengths(w: World, s: State)
    requires Inv(w, s)
    ensures |s.position| == |s.committed| == |s.base|
  {}

  lemma QuietStep(w: World, s: State, e: Event)
    requires Inv(w, s) && Listed(s.groups) && Quiet(w, s)
    ensures Quiet(w, Step(w, s, e))
  {
    hide PutFirst, AddAll, Parts, Inv, NothingBetween;
    SameLengths(w, s);
    var next := Step(w, s, e);
    if !next.failed {
      if next.base == next.committed {
        forall t, p | 0 <= p < |next.base| ensures NothingBetween(w, t, p, next.committed[p], next.base[p]) {
          NothingAtAll(w, t, p, next.base[p]);
        }
      } else {
        OpensStep(w, s, e, s.committed);
      }
    }
  }

  lemma NothingAtAll(w: World, t: string, p: nat, o: nat)
    ensures NothingBetween(w, t, p, o, o)
  {
    RangeEmpty(w, t, p, o);
  }

  lemma {:induction false} RunQuiet(w: World, events: seq<Event>)
    ensures Quiet(w, Run(w, Initial(w), events))
  {
    hide Step, Range, Inv;
    if events == [] {
      StartsQuiet(w);
    } else {
      RunKeeps(w, events[..|events| - 1]);
      RunQuiet(w, events[..|events| - 1]);
      QuietStep(w, Run(w, Initial(w), events[..|events| - 1]), events[|events| - 1]);
    }
  }

  lemma StartsQuiet(w: World)
    ensures Quiet(w, Initial(w))
  {
    forall t, p | 0 <= p < |w.logs| ensures NothingBetween(w, t, p, 0, 0) { NothingAtAll(w, t, p, 0); }
  }

  /** No batch is committed for good: no flush of a batch ends well, and every restart resumes at `lo`. */
  ghost predicate Retrying(w: World, s: State, stretch: seq<Event>)
    requires Listed(s.groups)
  {
    forall j :: 0 <= j < |stretch| ==> var t := Run(w, s, stretch[..j]);
      && (stretch[j].Restart? ==> t.committed == s.committed)
      && (stretch[j].Flush? && stretch[j].outcome == Done ==> t.groups.at == map[])
  }

  lemma {:induction false} StretchOpens(w: World, s: State, stretch: seq<Event>)
    requires Inv(w, s) && Listed(s.groups) && OpensAt(w, s, s.committed) && Retrying(w, s, stretch)
    ensures OpensAt(w, Run(w, s, stretch), s.committed)
  {
    hide Step, OpensAt, Inv;
    if stretch != [] {
      var n, front := |stretch| - 1, stretch[..|stretch| - 1];
      RetryingPrefix(w, s, stretch, n);
      StretchOpens(w, s, front);
      InvAlong(w, s, front);
      OpensStep(w, Run(w, s, front), stretch[n], s.committed);
    }
  }

  lemma RetryingPrefix(w: World, s: State, stretch: seq<Event>, n: nat)
    requires Listed(s.groups) && Retrying(w, s, stretch) && n <= |stretch|
    ensures Retrying(w, s, stretch[..n])
  {
    forall j | 0 <= j < n ensures stretch[..n][..j] == stretch[..j] && stretch[..n][j] == stretch[j] {}
  }

  /** Moving a window's start over messages with nothing to archive changes no group. */
  lemma OpensEarlier(w: World, g: Groups, t: string, p: nat, lo: nat, base: nat, end: nat)
    requires lo <= base <= end && Range(w, t, p, lo, base) == [] && GroupMatches(w, g, t, p, base, end)
    ensures GroupMatches(w, g, t, p, lo, end)
  {
    hide Range, PartsAt;
    var k := GroupKey(t, p);
    RangeSplit(w, t, p, lo, base, end);
    if k in g.at { RangeSplit(w, t, p, lo, base, g.at[k].first); }
  }

  /** A group is fixed by its window, whatever the order of delivery. */
  lemma SameWindowSameGroup(w: World, g: Groups, h: Groups, t: string, p: nat, lo: nat, end: nat)
    requires GroupMatches(w, g, t, p, lo, end) && GroupMatches(w, h, t, p, lo, end)
    ensures var k := GroupKey(t, p); (k in g.at <==> k in h.at) && (k in g.at ==> g.at[k] == h.at[k])
  {
    hide Range, PartsAt;
    var k := GroupKey(t, p);
    if k in g.at && k in h.at {
      var a, b := g.at[k], h.at[k];
      SameEdges(w, t, p, lo, end, a.first, a.last, b.first, b.last);
    } else if k in g.at {
      EmptyOn(w, t, p, lo, end, g.at[k].first);
    } else if k in h.at {
      EmptyOn(w, t, p, lo, end, h.at[k].first);
    }
  }

  lemma EmptyOn(w: World, t: string, p: nat, from: nat, end: nat, o: nat)
    requires from <= o < end && PartsAt(w, t, p, o) != []
    ensures Range(w, t, p, from, end) != []
  {
    hide Range, PartsAt;
    if Range(w, t, p, from, end) == [] { EmptyRangeMember(w, t, p, from, end, o); }
  }

  lemma SameEdges(w: World, t: string, p: nat, from: nat, end: nat, f: nat, l: nat, f': nat, l': nat)
    requires from <= f <= l < end && from <= f' <= l' < end
    requires Range(w, t, p, from, f) == [] && PartsAt(w, t, p, f) != []
    requires Range(w, t, p, from, f') == [] && PartsAt(w, t, p, f') != []
    requires Range(w, t, p, l + 1, end) == [] && PartsAt(w, t, p, l) != []
    requires Range(w, t, p, l' + 1, end) == [] && PartsAt(w, t, p, l') != []
    ensures f == f' && l == l'
  {
    hide Range, PartsAt;
    if f < f' { EmptyOn(w, t, p, from, f', f); }
    if f' < f { EmptyOn(w, t, p, from, f, f'); }
    if l < l' { EmptyOn(w, t, p, l + 1, end, l'); }
    if l' < l { EmptyOn(w, t, p, l' + 1, end, l); }
  }

  lemma SameWindowSameGroups(w: World, a: State, b: State, lo: seq<nat>)
    requires Inv(w, a) && Inv(w, b) && OpensAt(w, a, lo) && OpensAt(w, b, lo) && a.position == b.position
    ensures a.groups.at == b.groups.at
  {
    hide AllCorrect, ArchivedBelow, Range, PartsAt, GroupMatches;
    forall k ensures (k in a.groups.at <==> k in b.groups.at) && (k in a.groups.at ==> a.groups.at[k] == b.groups.at[k]) {
      var t, p := k.tenant, k.partition;
      if p < |lo| {
        assert GroupMatches(w, a.groups, t, p, a.base[p], a.position[p]);
        assert GroupMatches(w, b.groups, t, p, b.base[p], b.position[p]);
        assert NothingBetween(w, t, p, lo[p], a.base[p]) && NothingBetween(w, t, p, lo[p], b.base[p]);
        OpensEarlier(w, a.groups, t, p, lo[p], a.base[p], a.position[p]);
        OpensEarlier(w, b.groups, t, p, lo[p], b.base[p], b.position[p]);
        assert k == GroupKey(t, p);
        SameWindowSameGroup(w, a.groups, b.groups, t, p, lo[p], a.position[p]);
      }
    }
  }

  /** Every flush of the stretch that puts anything has come as far as the retry has. */
  ghost predicate SameEnd(w: World, s: State, stretch: seq<Event>)
    requires Listed(s.groups)
  {
    forall j: nat, i: nat :: j < |stretch| && Puts(w, s, stretch, j, i) ==>
      Run(w, s, stretch[..j]).position == Run(w, s, stretch).position
  }

  /** When all attempts since the last commit end at the same offsets, they have the same groups, bounds and
      payloads, whatever the order of delivery; and the one that succeeds overwrites what the others left if
      and only if each put came in its hour, unless the object was there before them all. */
  lemma RetryOfSameWindow(w: World, events: seq<Event>, stretch: seq<Event>, retry: UtcHour)
    requires var s := Run(w, Initial(w), events); !s.failed && Retrying(w, s, stretch) && SameEnd(w, s, stretch)
    ensures var s := Run(w, Initial(w), events); var again := Run(w, s, stretch).groups;
      && (forall j: nat, i: nat :: j < |stretch| && Puts(w, s, stretch, j, i) ==> Run(w, s, stretch[..j]).groups.at == again.at)
      && (LeavesNothingElse(w, s, stretch, retry) <==>
            forall j: nat, i: nat :: j < |stretch| && Puts(w, s, stretch, j, i) ==>
              stretch[j].hour == retry || HadObject(w, s, stretch, j, i))
  {
    hide Run, LeavesNothingElse, PutCount, PutAgain, Inv, OpensAt, Retrying;
    var s := Run(w, Initial(w), events);
    RunKeeps(w, events);
    OpensAtCommit(w, events);
    InvAlong(w, s, stretch);
    StretchOpens(w, s, stretch);
    RetryFrom(w, s, stretch, retry);
    forall j: nat, i: nat | j < |stretch| && Puts(w, s, stretch, j, i)
      ensures Run(w, s, stretch[..j]).groups.at == Run(w, s, stretch).groups.at
      ensures PutAgain(w, s, stretch, retry, j, i) <==> stretch[j].hour == retry || HadObject(w, s, stretch, j, i)
    {
      RetryingPrefix(w, s, stretch, j);
      InvAlong(w, s, stretch[..j]);
      StretchOpens(w, s, stretch[..j]);
      SameWindowSameGroups(w, Run(w, s, stretch[..j]), Run(w, s, stretch), s.committed);
      SameAtPutsAgain(w, s, stretch, retry, j, i);
    }
  }

  lemma OpensAtCommit(w: World, events: seq<Event>)
    requires !Run(w, Initial(w), events).failed
    ensures OpensAt(w, Run(w, Initial(w), events), Run(w, Initial(w), events).committed)
    ensures Listed(Run(w, Initial(w), events).groups)
  {
    hide Run, Range;
    RunKeeps(w, events);
    RunQuiet(w, events);
  }

  /** The object was in the store before the stretch. */
  ghost predicate HadObject(w: World, s: State, stretch: seq<Event>, j: nat, i: nat)
    requires Listed(s.groups) && j < |stretch| && Puts(w, s, stretch, j, i)
  {
    var g := Run(w, s, stretch[..j]).groups;
    assert g.order[i] in g.order;
    ObjectName(g.order[i], g.at[g.order[i]], stretch[j].hour) in s.store
  }

  lemma SameAtPutsAgain(w: World, s: State, stretch: seq<Event>, retry: UtcHour, j: nat, i: nat)
    requires Listed(s.groups) && j < |stretch| && Puts(w, s, stretch, j, i)
    requires Run(w, s, stretch[..j]).groups.at == Run(w, s, stretch).groups.at
    ensures PutAgain(w, s, stretch, retry, j, i) <==> stretch[j].hour == retry || HadObject(w, s, stretch, j, i)
  {
    hide Run, ObjectName;
    var g := Run(w, s, stretch[..j]).groups;
    assert g.order[i] in g.order;
  }

  // --------------------------------------------------------------- failing inputs

  /** One partition, whose messages the parser rejects. */
  ghost predicate Undecodable(w: World) {
    |w.logs| == 1 && forall o :: 0 <= o < |w.logs[0]| ==> w.logs[0][o] != [] && w.parse(w.logs[0][o]) == None
  }

  const UNKNOWN_GROUP: GroupKey := GroupKey(UNKNOWN, 0)

  /** With the first n messages in the batch, nothing being committed. */
  function Holding(w: World, n: nat, store: Store, failed: bool): State
    requires |w.logs| == 1 && n <= |w.logs[0]|
  {
    var g := if n == 0 then EMPTY else Groups([UNKNOWN_GROUP], map[UNKNOWN_GROUP := Group(w.logs[0][..n], 0, n - 1)]);
    State([n], [0], [0], g, store, failed)
  }

  /** Where the first n messages go. */
  function Named(hour: UtcHour, n: nat): string
    requires n > 0
  {
    Key(UNKNOWN, hour, 0, 0, n - 1)
  }

  lemma Fetch(w: World, n: nat, store: Store)
    requires Undecodable(w) && n < |w.logs[0]|
    ensures Step(w, Holding(w, n, store, false), Deliver(0)) == Holding(w, n + 1, store, false)
  {
    var s, b := Holding(w, n, store, false), w.logs[0][n];
    var part := Part(UNKNOWN, b);
    assert Parts(w, b) == [part] && [part][..0] == [];
    assert AddAll(s.groups, [part], 0, n) == Add(AddAll(s.groups, [], 0, n), part, 0, n);
    assert w.logs[0][..n + 1] == w.logs[0][..n] + [b];
    assert s.position[0 := n + 1] == [n + 1];
    var one := Group(w.logs[0][..n + 1], 0, n);
    if n == 0 {
      assert [] + [UNKNOWN_GROUP] == [UNKNOWN_GROUP] && w.logs[0][..0] + [b] == [b];
      assert Add(s.groups, part, 0, n) == Groups([UNKNOWN_GROUP], map[][UNKNOWN_GROUP := one]);
    } else {
      assert Add(s.groups, part, 0, n) == Groups([UNKNOWN_GROUP], s.groups.at[UNKNOWN_GROUP := one]);
    }
    assert Add(s.groups, part, 0, n) == Groups([UNKNOWN_GROUP], map[UNKNOWN_GROUP := one]);
  }

  lemma PutHeld(w: World, n: nat, store: Store, failed: bool, hour: UtcHour)
    requires Undecodable(w) && 0 < n <= |w.logs[0]|
    ensures var s := Holding(w, n, store, failed);
      && Listed(s.groups)
      && PutFirst(store, s.groups, hour, 1) == store[Named(hour, n) := w.logs[0][..n]]
  {
    hide Key;
    var g := Holding(w, n, store, failed).groups;
    assert PutFirst(store, g, hour, 0) == store;
  }

  lemma Fail(w: World, n: nat, store: Store, failed: bool, hour: UtcHour)
    requires Undecodable(w) && 0 < n <= |w.logs[0]|
    ensures Listed(Holding(w, n, store, failed).groups)
    ensures Step(w, Holding(w, n, store, failed), Flush(hour, CommitRaised(false))) ==
      Holding(w, n, store[Named(hour, n) := w.logs[0][..n]], true)
    ensures FlushSpec(w, Holding(w, n, store, failed), hour, Done).store == store[Named(hour, n) := w.logs[0][..n]]
  {
    hide PutFirst, Named;
    PutHeld(w, n, store, failed, hour);
    assert UNKNOWN_GROUP in Holding(w, n, store, failed).groups.at;
  }

  lemma RunSnoc(w: World, s: State, events: seq<Event>, e: Event)
    requires Listed(s.groups)
    ensures Run(w, s, events + [e]) == Step(w, Run(w, s, events), e)
  {
    assert (events + [e])[..|events|] == events;
  }

  lemma NamesDiffer(h: UtcHour, n: nat, r: UtcHour, m: nat)
    requires n > 0 && m > 0 && (h != r || n != m)
    ensures Named(h, n) != Named(r, m)
  {
    hide Key;
    if Named(h, n) == Named(r, m) { KeyInjective(UNKNOWN, h, 0, 0, n - 1, UNKNOWN, r, 0, 0, m - 1); }
  }

  function Fetches(n: nat): seq<Event> {
    if n == 0 then [] else Fetches(n - 1) + [Deliver(0)]
  }

  /** n messages are fetched, and the commit fails after their object is put. */
  function Attempt(n: nat, h: UtcHour): seq<Event> {
    Fetches(n) + [Flush(h, CommitRaised(false))]
  }

  /** The flush at shutdown fails too; after a restart m messages are fetched. */
  function SecondAttempt(n: nat, h: UtcHour, m: nat): seq<Event> {
    Attempt(n, h) + [Flush(h, CommitRaised(false))] + [Restart] + Fetches(m)
  }

  lemma {:induction false} FetchMany(w: World, store: Store, n: nat)
    requires Undecodable(w) && n <= |w.logs[0]|
    ensures Listed(Holding(w, 0, store, false).groups)
    ensures Run(w, Holding(w, 0, store, false), Fetches(n)) == Holding(w, n, store, false)
  {
    hide Step;
    if n > 0 {
      FetchMany(w, store, n - 1);
      Fetch(w, n - 1, store);
      RunSnoc(w, Holding(w, 0, store, false), Fetches(n - 1), Deliver(0));
    }
  }

  lemma StartsHolding(w: World)
    requires |w.logs| == 1
    ensures Initial(w) == Holding(w, 0, map[], false)
  {}

  lemma FirstAttempt(w: World, n: nat, h: UtcHour)
    requires Undecodable(w) && 0 < n <= |w.logs[0]|
    ensures Run(w, Initial(w), Attempt(n, h)) == Holding(w, n, map[Named(h, n) := w.logs[0][..n]], true)
  {
    hide Named, Step, Fetches;
    StartsHolding(w);
    FetchMany(w, map[], n);
    Fail(w, n, map[], false, h);
    RunSnoc(w, Initial(w), Fetches(n), Flush(h, CommitRaised(false)));
  }

  lemma RestartHolding(w: World, n: nat, store: Store)
    requires |w.logs| == 1 && n <= |w.logs[0]|
    ensures Step(w, Holding(w, n, store, true), Restart) == Holding(w, 0, store, false)
  {}

  lemma AfterRestart(w: World, n: nat, h: UtcHour, m: nat)
    requires Undecodable(w) && 0 < n <= |w.logs[0]| && m <= |w.logs[0]|
    ensures Run(w, Initial(w), SecondAttempt(n, h, m)) == Holding(w, m, map[Named(h, n) := w.logs[0][..n]], false)
  {
    hide Named, Run, Attempt, Fetches, Step;
    var s, store := Initial(w), map[Named(h, n) := w.logs[0][..n]];
    var failing := Flush(h, CommitRaised(false));
    FirstAttempt(w, n, h);
    Fail(w, n, store, true, h);
    assert store[Named(h, n) := w.logs[0][..n]] == store;
    RestartHolding(w, n, store);
    RunSnoc(w, s, Attempt(n, h), failing);
    RunSnoc(w, s, Attempt(n, h) + [failing], Restart);
    RunConcat(w, s, Attempt(n, h) + [failing] + [Restart], Fetches(m));
    FetchMany(w, store, m);
  }

  lemma TwoObjects(w: World, stretch: seq<Event>, n: nat, h: UtcHour, m: nat, r: UtcHour, failed: bool)
    requires Undecodable(w) && 0 < n <= |w.logs[0]| && 0 < m <= |w.logs[0]| && (h != r || n != m)
    requires Run(w, Initial(w), stretch) == Holding(w, m, map[Named(h, n) := w.logs[0][..n]], failed)
    ensures FlushSpec(w, Run(w, Initial(w), stretch), r, Done).store ==
      map[Named(h, n) := w.logs[0][..n], Named(r, m) := w.logs[0][..m]]
    ensures Named(h, n) != Named(r, m) && !LeavesNothingElse(w, Initial(w), stretch, r)
  {
    hide Named, Run, FlushSpec;
    NamesDiffer(h, n, r, m);
    Fail(w, m, map[Named(h, n) := w.logs[0][..n]], failed, r);
    PutHeld(w, m, map[], failed, r);
    assert Named(h, n) !in map[Named(r, m) := w.logs[0][..m]];
  }

  /** A commit fails and the flush at shutdown succeeds in another hour: both hours have the payloads. */
  lemma ShutdownFlushLeavesCopy(w: World, n: nat, h: UtcHour, r: UtcHour)
    requires Undecodable(w) && 0 < n <= |w.logs[0]| && h != r
    ensures FlushSpec(w, Run(w, Initial(w), Attempt(n, h)), r, Done).store ==
      map[Named(h, n) := w.logs[0][..n], Named(r, n) := w.logs[0][..n]]
    ensures Named(h, n) != Named(r, n) && !LeavesNothingElse(w, Initial(w), Attempt(n, h), r)
  {
    hide Run, Attempt;
    FirstAttempt(w, n, h);
    TwoObjects(w, Attempt(n, h), n, h, n, r, true);
  }

  /** Both flushes of a process fail and the next process succeeds, in another hour or with another batch:
      the payloads they share are archived twice. */
  lemma RestartLeavesCopy(w: World, n: nat, h: UtcHour, m: nat, r: UtcHour)
    requires Undecodable(w) && 0 < n <= |w.logs[0]| && 0 < m <= |w.logs[0]| && (h != r || n != m)
    ensures FlushSpec(w, Run(w, Initial(w), SecondAttempt(n, h, m)), r, Done).store ==
      map[Named(h, n) := w.logs[0][..n], Named(r, m) := w.logs[0][..m]]
    ensures Named(h, n) != Named(r, m) && !LeavesNothingElse(w, Initial(w), SecondAttempt(n, h, m), r)
  {
    hide Run, SecondAttempt;
    AfterRestart(w, n, h, m);
    TwoObjects(w, SecondAttempt(n, h, m), n, h, m, r, false);
  }
}
