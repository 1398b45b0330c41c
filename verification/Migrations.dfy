// The migration runner: discovery with overrides, and runs that may be interrupted after any effect.
module Migrations {
  import opened Strings
  import opened Text

  /** A migration as read from its file: `version` is the name up to the first underscore, `statements` is
      what `SplitStatements` makes of the text, `checksum` is a hash of the text. */
  datatype Migration = Migration(version: string, name: string, statements: seq<string>, checksum: string)

  /** What a run does to the database, one effect at a time. */
  datatype Effect = Executed(version: string, statement: string) | Recorded(migration: Migration)

  /** Everything done so far; the ledger is the recorded part. */
  type Log = seq<Effect>

  // -------------------------------------------------------------------- discovery

  function IndexOf(dict: seq<Migration>, version: string): (i: nat)
    ensures i <= |dict| && (i < |dict| ==> dict[i].version == version)
    ensures forall j :: 0 <= j < i ==> dict[j].version != version
  {
    if dict == [] || dict[0].version == version then 0 else 1 + IndexOf(dict[1..], version)
  }

  predicate Knows(dict: seq<Migration>, version: string) {
    IndexOf(dict, version) < |dict|
  }

  /** A dict by version: the last file of a version wins, in the first one's place. */
  function Put(dict: seq<Migration>, m: Migration): seq<Migration> {
    var i := IndexOf(dict, m.version);
    if i < |dict| then dict[i := m] else dict + [m]
  }

  function Base(files: seq<Migration>): seq<Migration> {
    if files == [] then [] else Put(Base(files[..|files| - 1]), files[|files| - 1])
  }

  /** `None` when an override has no counterpart and the source raises. */
  function Overridden(dict: seq<Migration>, files: seq<Migration>): Option<seq<Migration>>
    decreases |files|
  {
    if files == [] then Some(dict)
    else if Knows(dict, files[0].version) then Overridden(Put(dict, files[0]), files[1..])
    else None
  }

  function Insert(ms: seq<Migration>, m: Migration): seq<Migration> {
    if ms == [] || !Before(ms[0].version, m.version) then [m] + ms else [ms[0]] + Insert(ms[1..], m)
  }

  function Sorted(ms: seq<Migration>): seq<Migration> {
    if ms == [] then [] else Insert(Sorted(ms[1..]), ms[0])
  }

  /** `dir` and `overrides` are `None` when there is no such directory. */
  function Discover(dir: Option<seq<Migration>>, overrides: Option<seq<Migration>>): Option<seq<Migration>> {
    if dir.None? then Some([])
    else
      var base := Base(dir.value);
      match (if overrides.None? then Some(base) else Overridden(base, overrides.value))
      case None => None
      case Some(all) => Some(Sorted(all))
  }

  ghost predicate Increasing(ms: seq<Migration>) {
    forall i, j :: 0 <= i < j < |ms| ==> Before(ms[i].version, ms[j].version)
  }

  ghost predicate DistinctVersions(ms: seq<Migration>) {
    forall i, j :: 0 <= i < j < |ms| ==> ms[i].version != ms[j].version
  }

  ghost function Versions(ms: seq<Migration>): set<string> {
    set i | 0 <= i < |ms| :: ms[i].version
  }

  lemma FirstIsLeast(ms: seq<Migration>)
    requires Increasing(ms) && ms != []
    ensures Increasing(ms[1..]) && Versions(ms) == {ms[0].version} + Versions(ms[1..])
    ensures forall v :: v in Versions(ms[1..]) ==> Before(ms[0].version, v)
  {
    hide Before;
    assert ms == [ms[0]] + ms[1..];
    VersionsCons(ms[0], ms[1..]);
  }

  lemma IncreasingCons(m: Migration, ms: seq<Migration>)
    requires Increasing(ms) && forall v :: v in Versions(ms) ==> Before(m.version, v)
    ensures Increasing([m] + ms)
  {
    hide Before;
    var r := [m] + ms;
    forall i, j | 0 <= i < j < |r| ensures Before(r[i].version, r[j].version) {
      assert r[j] == ms[j - 1] && r[j].version in Versions(ms);
      assert i > 0 ==> r[i] == ms[i - 1];
    }
  }

  lemma {:induction false} InsertSorts(ms: seq<Migration>, m: Migration)
    requires Increasing(ms) && m.version !in Versions(ms)
    ensures var r := Insert(ms, m);
      && Increasing(r) && multiset(r) == multiset(ms) + multiset{m}
      && Versions(r) == Versions(ms) + {m.version}
  {
    hide Before, Increasing, Versions;
    VersionsCons(m, ms);
    if ms == [] {
      NothingIncreasing();
      NoVersions();
      IncreasingCons(m, []);
    } else {
      FirstIsLeast(ms);
      BeforeTotal(ms[0].version, m.version);
      assert ms == [ms[0]] + ms[1..];
      if !Before(ms[0].version, m.version) {
        forall v | v in Versions(ms) ensures Before(m.version, v) {
          if v != ms[0].version { BeforeTransitive(m.version, ms[0].version, v); }
        }
        IncreasingCons(m, ms);
      } else {
        var rest := Insert(ms[1..], m);
        InsertSorts(ms[1..], m);
        VersionsCons(ms[0], rest);
        IncreasingCons(ms[0], rest);
      }
    }
  }

  lemma NoVersions()
    ensures Versions([]) == {}
  {}

  lemma VersionsCons(m: Migration, ms: seq<Migration>)
    ensures Versions([m] + ms) == {m.version} + Versions(ms)
  {
    var r := [m] + ms;
    forall v ensures v in Versions(r) <==> v == m.version || v in Versions(ms) {
      if v == m.version { assert r[0].version == v; }
      if v in Versions(ms) {
        var i :| 0 <= i < |ms| && ms[i].version == v;
        assert r[i + 1].version == v;
      }
    }
  }

  lemma {:induction false} SortedSorts(ms: seq<Migration>)
    requires DistinctVersions(ms)
    ensures Increasing(Sorted(ms)) && multiset(Sorted(ms)) == multiset(ms) && Versions(Sorted(ms)) == Versions(ms)
  {
    if ms != [] {
      var rest := ms[1..];
      forall i, j | 0 <= i < j < |rest| ensures rest[i].version != rest[j].version {
        assert rest[i] == ms[i + 1] && rest[j] == ms[j + 1];
      }
      SortedSorts(rest);
      assert ms == [ms[0]] + rest;
      forall i | 0 <= i < |rest| ensures rest[i].version != ms[0].version { assert rest[i] == ms[i + 1]; }
      VersionsCons(ms[0], rest);
      InsertSorts(Sorted(rest), ms[0]);
    }
  }

  lemma PutKeeps(dict: seq<Migration>, m: Migration)
    requires DistinctVersions(dict)
    ensures DistinctVersions(Put(dict, m)) && Versions(Put(dict, m)) == Versions(dict) + {m.version}
    ensures m in Put(dict, m)
    ensures Knows(dict, m.version) <==> m.version in Versions(dict)
  {
    var i := IndexOf(dict, m.version);
    var r := Put(dict, m);
    assert r[i] == m;
    forall v ensures v in Versions(r) <==> v in Versions(dict) || v == m.version {
      if v in Versions(dict) {
        var k :| 0 <= k < |dict| && dict[k].version == v;
        assert r[k].version == v;
      }
    }
  }

  lemma {:induction false} BaseDistinct(files: seq<Migration>)
    ensures DistinctVersions(Base(files)) && Versions(Base(files)) == Versions(files)
  {
    if files != [] {
      var front, last := files[..|files| - 1], files[|files| - 1];
      BaseDistinct(front);
      PutKeeps(Base(front), last);
      VersionsSnoc(front, last);
      assert files == front + [last];
    }
  }

  lemma {:induction false} OverridesKeepVersions(dict: seq<Migration>, files: seq<Migration>)
    requires DistinctVersions(dict)
    ensures var r := Overridden(dict, files);
      && (r.Some? ==> DistinctVersions(r.value) && Versions(r.value) == Versions(dict))
      && (r.Some? <==> forall f :: f in files ==> f.version in Versions(dict))
    decreases |files|
  {
    if files != [] {
      var m := files[0];
      PutKeeps(dict, m);
      assert files == [files[0]] + files[1..];
      if Knows(dict, m.version) {
        OverridesKeepVersions(Put(dict, m), files[1..]);
        assert Versions(dict) + {m.version} == Versions(dict);
      } else {
        assert files[0] in files;
      }
    }
  }

  /** The last file of a version. */
  function LastOf(files: seq<Migration>, version: string): Option<Migration> {
    if files == [] then None
    else if files[|files| - 1].version == version then Some(files[|files| - 1])
    else LastOf(files[..|files| - 1], version)
  }

  lemma {:induction false} BaseIsLast(files: seq<Migration>, m: Migration)
    ensures m in Base(files) <==> LastOf(files, m.version) == Some(m)
  {
    if files != [] {
      var front, last := files[..|files| - 1], files[|files| - 1];
      BaseDistinct(front);
      BaseIsLast(front, m);
      PutMembers(Base(front), last, m);
    }
  }

  lemma PutMembers(dict: seq<Migration>, x: Migration, m: Migration)
    requires DistinctVersions(dict)
    ensures m in Put(dict, x) <==> m == x || (m in dict && m.version != x.version)
  {
    var i, r := IndexOf(dict, x.version), Put(dict, x);
    assert r[i] == x;
    if m in dict && m.version != x.version {
      var k :| 0 <= k < |dict| && dict[k] == m;
      assert r[k] == m;
    }
  }

  lemma {:induction false} OverridingIsReading(before: seq<Migration>, files: seq<Migration>)
    requires Overridden(Base(before), files).Some?
    ensures Overridden(Base(before), files) == Some(Base(before + files))
    decreases |files|
  {
    if files == [] {
      assert before + files == before;
    } else {
      var next := before + [files[0]];
      assert next[..|next| - 1] == before && next + files[1..] == before + files;
      OverridingIsReading(next, files[1..]);
    }
  }

  /** Discovery yields the last file of each version, overrides after the base directory, in version
      order; an override never changes which versions there are, and one that would fails discovery. */
  lemma DiscoverKeepsVersions(files: seq<Migration>, overrides: Option<seq<Migration>>)
    ensures var found := Discover(Some(files), overrides);
      var read := files + if overrides.Some? then overrides.value else [];
      && (found.Some? ==>
            && Increasing(found.value) && Versions(found.value) == Versions(files)
            && forall m :: m in found.value <==> LastOf(read, m.version) == Some(m))
      && (found.None? <==> overrides.Some? && exists f :: f in overrides.value && f.version !in Versions(files))
  {
    hide Versions, DistinctVersions, Increasing, Overridden, Sorted, Base, LastOf;
    BaseDistinct(files);
    var base := Base(files);
    if overrides.Some? {
      OverridesKeepVersions(base, overrides.value);
    }
    var all := if overrides.None? then Some(base) else Overridden(base, overrides.value);
    if all.Some? {
      SortedSorts(all.value);
      var read := files + if overrides.Some? then overrides.value else [];
      if overrides.Some? { OverridingIsReading(files, overrides.value); } else { assert read == files; }
      forall m ensures m in Sorted(all.value) <==> LastOf(read, m.version) == Some(m) {
        BaseIsLast(read, m);
        assert m in Sorted(all.value) <==> m in multiset(all.value);
      }
    }
  }

  // --------------------------------------------------------------------------- runs

  function Executions(version: string, statements: seq<string>): Log {
    seq(|statements|, i requires 0 <= i < |statements| => Executed(version, statements[i]))
  }

  /** A migration's effects: its statements in order, and then its ledger row. */
  function Steps(m: Migration): Log {
    Executions(m.version, m.statements) + [Recorded(m)]
  }

  function Effects(ms: seq<Migration>): Log {
    if ms == [] then [] else Steps(ms[0]) + Effects(ms[1..])
  }

  /** The ledger as a dict from version to checksum. */
  function Applied(log: Log): map<string, string> {
    if log == [] then map[]
    else
      var front, last := Applied(log[..|log| - 1]), log[|log| - 1];
      if last.Recorded? then front[last.migration.version := last.migration.checksum] else front
  }

  predicate Edited(applied: map<string, string>, ms: seq<Migration>) {
    exists m :: m in ms && m.version in applied && applied[m.version] != "" && applied[m.version] != m.checksum
  }

  function Pending(applied: map<string, string>, ms: seq<Migration>): seq<Migration> {
    if ms == [] then []
    else if ms[0].version in applied then Pending(applied, ms[1..])
    else [ms[0]] + Pending(applied, ms[1..])
  }

  /** One run, cut off after `budget` effects. */
  function AfterRun(log: Log, ms: seq<Migration>, budget: nat): Log {
    if Edited(Applied(log), ms) then log
    else
      var effects := Effects(Pending(Applied(log), ms));
      log + if budget < |effects| then effects[..budget] else effects
  }

  predicate Completes(log: Log, ms: seq<Migration>, budget: nat) {
    !Edited(Applied(log), ms) && budget >= |Effects(Pending(Applied(log), ms))|
  }

  /** A deployment's migrations, as discovered, and how far its run got. */
  datatype Deployment = Deployment(ms: seq<Migration>, budget: nat)

  function History(ds: seq<Deployment>): Log {
    if ds == [] then []
    else AfterRun(History(ds[..|ds| - 1]), ds[|ds| - 1].ms, ds[|ds| - 1].budget)
  }

  ghost predicate Discovered(ds: seq<Deployment>) {
    forall d :: d in ds ==> Increasing(d.ms)
  }

  // ------------------------------------------- recorded means executed, once

  /** The ledger row at `i` comes right after all of its migration's statements, in order. */
  ghost predicate BackedAt(log: Log, i: nat)
    requires i < |log|
  {
    log[i].Recorded? ==>
      var x := Executions(log[i].migration.version, log[i].migration.statements);
      |x| <= i && log[i - |x|..i] == x
  }

  ghost predicate Backed(log: Log) {
    forall i :: 0 <= i < |log| ==> BackedAt(log, i)
  }

  lemma {:induction false} BackedConcat(a: Log, b: Log)
    requires Backed(a) && Backed(b)
    ensures Backed(a + b)
  {
    hide Executions;
    forall i | 0 <= i < |a + b| ensures BackedAt(a + b, i) {
      if i < |a| {
        assert BackedAt(a, i);
        if a[i].Recorded? {
          var n := |Executions(a[i].migration.version, a[i].migration.statements)|;
          assert (a + b)[i - n..i] == a[i - n..i];
        }
      } else {
        assert BackedAt(b, i - |a|);
        if b[i - |a|].Recorded? {
          var n := |Executions(b[i - |a|].migration.version, b[i - |a|].migration.statements)|;
          assert (a + b)[i - n..i] == b[i - |a| - n..i - |a|];
        }
      }
    }
  }

  lemma {:induction false} BackedPrefix(log: Log, n: nat)
    requires Backed(log) && n <= |log|
    ensures Backed(log[..n])
  {
    hide Executions;
    forall i | 0 <= i < n ensures BackedAt(log[..n], i) {
      assert BackedAt(log, i);
      if log[i].Recorded? {
        var k := |Executions(log[i].migration.version, log[i].migration.statements)|;
        assert log[..n][i - k..i] == log[i - k..i];
      }
    }
  }

  lemma {:induction false} StepsBacked(m: Migration)
    ensures Backed(Steps(m))
  {
    var x, s := Executions(m.version, m.statements), Steps(m);
    assert s[|x| - |x|..|x|] == x;
  }

  lemma {:induction false} EffectsBacked(ms: seq<Migration>)
    ensures Backed(Effects(ms))
  {
    hide Steps, Backed;
    if ms == [] {
      NothingBacked();
    } else {
      EffectsBacked(ms[1..]);
      StepsBacked(ms[0]);
      BackedConcat(Steps(ms[0]), Effects(ms[1..]));
    }
  }

  lemma NothingBacked()
    ensures Backed([])
  {}

  /** Over every sequence of deployments, interrupted anywhere: a version is in the ledger only after all
      statements of the migration it was recorded for, run in order just before. */
  lemma {:induction false} RecordedMeansExecuted(ds: seq<Deployment>)
    ensures Backed(History(ds))
  {
    hide Backed, Effects, Edited, Pending;
    if ds == [] {
      NothingBacked();
    } else {
      var log, last := History(ds[..|ds| - 1]), ds[|ds| - 1];
      RecordedMeansExecuted(ds[..|ds| - 1]);
      var effects := Effects(Pending(Applied(log), last.ms));
      EffectsBacked(Pending(Applied(log), last.ms));
      if last.budget < |effects| { BackedPrefix(effects, last.budget); }
      BackedConcat(log, if last.budget < |effects| then effects[..last.budget] else effects);
    }
  }

  /** The migrations a log records, in order. */
  function Ledger(log: Log): seq<Migration> {
    if log == [] then []
    else if log[|log| - 1].Recorded? then Ledger(log[..|log| - 1]) + [log[|log| - 1].migration]
    else Ledger(log[..|log| - 1])
  }

  lemma {:induction false} LedgerConcat(a: Log, b: Log)
    ensures Ledger(a + b) == Ledger(a) + Ledger(b)
  {
    if b == [] {
      assert a + b == a;
    } else {
      assert (a + b)[..|a + b| - 1] == a + b[..|b| - 1];
      LedgerConcat(a, b[..|b| - 1]);
    }
  }

  lemma {:induction false} NoRecords(log: Log)
    requires forall e :: e in log ==> e.Executed?
    ensures Ledger(log) == []
  {
    if log != [] {
      assert log[|log| - 1] in log;
      NoRecords(log[..|log| - 1]);
    }
  }

  lemma {:induction false} StepsRecordOne(m: Migration)
    ensures Ledger(Steps(m)) == [m]
  {
    var x := Executions(m.version, m.statements);
    NoRecords(x);
    assert Steps(m)[..|x|] == x;
  }

  lemma {:induction false} EffectsRecordAll(ms: seq<Migration>)
    ensures Ledger(Effects(ms)) == ms
  {
    hide Steps;
    if ms != [] {
      StepsRecordOne(ms[0]);
      EffectsRecordAll(ms[1..]);
      LedgerConcat(Steps(ms[0]), Effects(ms[1..]));
    }
  }

  /** A run that gets part of the way records a prefix of what is pending, in order. */
  lemma {:induction false} CutRecordsPrefix(ms: seq<Migration>, budget: nat)
    requires budget <= |Effects(ms)|
    ensures Ledger(Effects(ms)[..budget]) <= ms
  {
    var e := Effects(ms);
    EffectsRecordAll(ms);
    LedgerConcat(e[..budget], e[budget..]);
    assert e == e[..budget] + e[budget..];
  }

  lemma {:induction false} PendingFilters(applied: map<string, string>, ms: seq<Migration>)
    requires Increasing(ms)
    ensures Increasing(Pending(applied, ms))
    ensures forall m :: m in Pending(applied, ms) <==> m in ms && m.version !in applied
  {
    hide Before;
    if ms != [] {
      var rest := ms[1..];
      forall i, j | 0 <= i < j < |rest| ensures Before(rest[i].version, rest[j].version) {
        assert rest[i] == ms[i + 1] && rest[j] == ms[j + 1];
      }
      PendingFilters(applied, rest);
      assert ms == [ms[0]] + rest;
      var p := Pending(applied, rest);
      forall j | 0 <= j < |p| ensures Before(ms[0].version, p[j].version) {
        assert p[j] in p && p[j] in rest;
      }
    }
  }

  lemma {:induction false} AppliedIsLedger(log: Log)
    ensures forall v :: v in Applied(log) <==> v in Versions(Ledger(log))
    ensures DistinctVersions(Ledger(log)) ==> forall m :: m in Ledger(log) ==> Applied(log)[m.version] == m.checksum
  {
    if log != [] {
      var front := log[..|log| - 1];
      AppliedIsLedger(front);
      if log[|log| - 1].Recorded? {
        var m, l := log[|log| - 1].migration, Ledger(front);
        VersionsSnoc(l, m);
        if DistinctVersions(l + [m]) {
          forall i, j | 0 <= i < j < |l| ensures l[i].version != l[j].version {
            assert (l + [m])[i] == l[i] && (l + [m])[j] == l[j];
          }
          forall k | k in l ensures k.version != m.version {
            var i :| 0 <= i < |l| && l[i] == k;
            assert (l + [m])[i] == k && (l + [m])[|l|] == m;
          }
        }
      }
    }
  }

  lemma VersionsSnoc(l: seq<Migration>, m: Migration)
    ensures Versions(l + [m]) == Versions(l) + {m.version}
  {
    forall v ensures v in Versions(l + [m]) <==> v in Versions(l) || v == m.version {
      assert (l + [m])[|l|] == m;
      if v in Versions(l) {
        var i :| 0 <= i < |l| && l[i].version == v;
        assert (l + [m])[i].version == v;
      }
    }
  }

  /** What one run adds to the ledger: migrations it found, in version order, that were not there. */
  lemma {:induction false} RunRecords(log: Log, ms: seq<Migration>, budget: nat)
    requires Increasing(ms)
    ensures Ledger(log) <= Ledger(AfterRun(log, ms, budget))
    ensures var added := Ledger(AfterRun(log, ms, budget))[|Ledger(log)|..];
      && Increasing(added) && forall m :: m in added ==> m in ms && m.version !in Applied(log)
  {
    hide Effects, Pending, Applied, Increasing, Ledger, Edited;
    var after := AfterRun(log, ms, budget);
    if Edited(Applied(log), ms) {
      assert Ledger(after)[|Ledger(log)|..] == [];
      NothingIncreasing();
    } else {
      var pending := Pending(Applied(log), ms);
      var effects := Effects(pending);
      PendingFilters(Applied(log), ms);
      var cut := if budget < |effects| then budget else |effects|;
      assert effects[..|effects|] == effects && after == log + effects[..cut];
      CutRecordsPrefix(pending, cut);
      LedgerConcat(log, effects[..cut]);
      var added := Ledger(effects[..cut]);
      assert Ledger(after)[|Ledger(log)|..] == added;
      IncreasingPrefix(pending, added);
    }
  }

  lemma NothingIncreasing()
    ensures Increasing([])
  {}

  lemma IncreasingPrefix(ms: seq<Migration>, p: seq<Migration>)
    requires Increasing(ms) && p <= ms
    ensures Increasing(p) && forall m :: m in p ==> m in ms
  {
    forall i, j | 0 <= i < j < |p| ensures Before(p[i].version, p[j].version) {
      assert p[i] == ms[i] && p[j] == ms[j];
    }
  }

  lemma IncreasingDistinct(ms: seq<Migration>)
    requires Increasing(ms)
    ensures DistinctVersions(ms)
  {
    hide Before;
    forall i, j | 0 <= i < j < |ms| ensures ms[i].version != ms[j].version {
      BeforeIrreflexive(ms[i].version);
    }
  }

  /** No version is ever recorded twice. */
  lemma {:induction false} RecordedOnce(ds: seq<Deployment>)
    requires Discovered(ds)
    ensures DistinctVersions(Ledger(History(ds)))
  {
    hide AfterRun, Increasing;
    if ds != [] {
      var front, last := ds[..|ds| - 1], ds[|ds| - 1];
      assert last in ds && forall d :: d in front ==> d in ds;
      RecordedOnce(front);
      var log := History(front);
      RunRecords(log, last.ms, last.budget);
      AppliedIsLedger(log);
      var known, all := Ledger(log), Ledger(History(ds));
      IncreasingDistinct(all[|known|..]);
      DistinctConcat(known, all[|known|..]);
      assert all == known + all[|known|..];
    }
  }

  lemma DistinctConcat(a: seq<Migration>, b: seq<Migration>)
    requires DistinctVersions(a) && DistinctVersions(b)
    requires forall m :: m in b ==> m.version !in Versions(a)
    ensures DistinctVersions(a + b)
  {
    var r := a + b;
    forall i, j | 0 <= i < j < |r| ensures r[i].version != r[j].version {
      if i < |a| <= j {
        assert r[j] in b && r[i].version in Versions(a);
      }
    }
  }

  /** A file edited after being recorded stops every later run before any statement. */
  lemma {:induction false} EditedMigrationAborts(ds: seq<Deployment>, m: Migration, ms: seq<Migration>,
      edited: Migration, budget: nat)
    requires Discovered(ds) && m in Ledger(History(ds)) && m.checksum != ""
    requires edited in ms && edited.version == m.version && edited.checksum != m.checksum
    ensures AfterRun(History(ds), ms, budget) == History(ds) && !Completes(History(ds), ms, budget)
  {
    hide History, Ledger, Applied;
    RecordedOnce(ds);
    AppliedIsLedger(History(ds));
    assert m.version in Versions(Ledger(History(ds)));
  }

  lemma {:induction false} NothingPending(applied: map<string, string>, ms: seq<Migration>)
    requires forall m :: m in ms ==> m.version in applied
    ensures Pending(applied, ms) == []
  {
    if ms != [] {
      assert ms[0] in ms && forall m :: m in ms[1..] ==> m in ms;
      NothingPending(applied, ms[1..]);
    }
  }

  lemma {:induction false} CompletedRecords(log: Log, ms: seq<Migration>, budget: nat)
    requires Completes(log, ms, budget)
    ensures Ledger(AfterRun(log, ms, budget)) == Ledger(log) + Pending(Applied(log), ms)
  {
    hide Ledger, Applied, Pending, Effects, Edited;
    var pending := Pending(Applied(log), ms);
    EffectsRecordAll(pending);
    LedgerConcat(log, Effects(pending));
  }

  lemma {:induction false} CompletedAppliesAll(ds: seq<Deployment>, ms: seq<Migration>, budget: nat)
    requires Discovered(ds) && Increasing(ms) && Completes(History(ds), ms, budget)
    ensures var applied := Applied(AfterRun(History(ds), ms, budget));
      forall m :: m in ms ==> m.version in applied && (applied[m.version] != "" ==> applied[m.version] == m.checksum)
  {
    hide AfterRun, History, Increasing, Ledger, Pending, Applied;
    var log := History(ds);
    var after := AfterRun(log, ms, budget);
    var more := ds + [Deployment(ms, budget)];
    assert more[..|ds|] == ds;
    NextInHistory(ds, Deployment(ms, budget));
    RecordedOnce(ds);
    RecordedOnce(more);
    CompletedRecords(log, ms, budget);
    PendingFilters(Applied(log), ms);
    AppliedIsLedger(log);
    AppliedIsLedger(after);
    forall m | m in ms ensures m.version in Applied(after) && (Applied(after)[m.version] != "" ==> Applied(after)[m.version] == m.checksum) {
      RecordedOrBefore(log, after, ms, m);
    }
  }

  lemma NextInHistory(ds: seq<Deployment>, d: Deployment)
    ensures History(ds + [d]) == AfterRun(History(ds), d.ms, d.budget)
  {
    assert (ds + [d])[..|ds|] == ds;
  }

  lemma RecordedOrBefore(log: Log, after: Log, ms: seq<Migration>, m: Migration)
    requires m in ms && !Edited(Applied(log), ms)
    requires Ledger(after) == Ledger(log) + Pending(Applied(log), ms)
    requires DistinctVersions(Ledger(log)) && DistinctVersions(Ledger(after))
    requires forall x :: x in Pending(Applied(log), ms) <==> x in ms && x.version !in Applied(log)
    ensures m.version in Applied(after) && (Applied(after)[m.version] != "" ==> Applied(after)[m.version] == m.checksum)
  {
    hide Pending, Applied, Ledger;
    AppliedIsLedger(log);
    AppliedIsLedger(after);
    if m.version in Applied(log) {
      var i :| 0 <= i < |Ledger(log)| && Ledger(log)[i].version == m.version;
      var x := Ledger(log)[i];
      assert x in Ledger(log) && Ledger(after)[i] == x && x in Ledger(after);
      assert x.version in Versions(Ledger(after));
      assert Applied(log)[m.version] == x.checksum == Applied(after)[m.version];
    } else {
      assert m in Pending(Applied(log), ms) && m in Ledger(after);
      assert m.version in Versions(Ledger(after));
    }
  }

  /** After a completed run every version found is in the ledger, whatever happened before; and running
      the same migrations again, to any point, applies nothing and fails nowhere. */
  lemma {:induction false} SecondRunAppliesNothing(ds: seq<Deployment>, ms: seq<Migration>, budget: nat, again: nat)
    requires Discovered(ds) && Increasing(ms) && Completes(History(ds), ms, budget)
    ensures var log := AfterRun(History(ds), ms, budget);
      && (forall m :: m in ms ==> m.version in Applied(log))
      && Pending(Applied(log), ms) == [] && Completes(log, ms, again) && AfterRun(log, ms, again) == log
  {
    hide History, Increasing, Pending, Applied;
    CompletedAppliesAll(ds, ms, budget);
    var log := AfterRun(History(ds), ms, budget);
    NothingPending(Applied(log), ms);
    assert Effects([]) == [] && log + [] == log;
  }

  // ------------------------------------------------------------------- the runner

  /** The database connection; it fails for good once `budget` runs out. */
  class Client {
    var log: Log
    var budget: nat

    constructor (budget: nat)
      ensures log == [] && this.budget == budget
    {
      log, this.budget := [], budget;
    }

    method Do(e: Effect) returns (ok: bool)
      modifies this
      ensures ok == (old(budget) > 0)
      ensures ok ==> log == old(log) + [e] && budget == old(budget) - 1
      ensures !ok ==> log == old(log) && budget == old(budget)
    {
      ok := budget > 0;
      if ok {
        log := log + [e];
        budget := budget - 1;
      }
    }
  }

  function Upto(log: Log, budget: nat): Log {
    if budget < |log| then log[..budget] else log
  }

  method Apply(client: Client, m: Migration) returns (ok: bool)
    modifies client
    ensures client.log == old(client.log) + Upto(Steps(m), old(client.budget))
    ensures ok == (old(client.budget) >= |Steps(m)|)
    ensures client.budget == if ok then old(client.budget) - |Steps(m)| else 0
  {
    var x := Executions(m.version, m.statements);
    for i := 0 to |m.statements|
      invariant client.log == old(client.log) + x[..i]
      invariant old(client.budget) == client.budget + i
    {
      ok := client.Do(Executed(m.version, m.statements[i]));
      if !ok {
        assert Steps(m)[..i] == x[..i];
        return;
      }
    }
    ok := client.Do(Recorded(m));
    assert x[..|m.statements|] == x && Steps(m)[..|x|] == x;
  }

  lemma {:induction false} UptoStep(done: Log, m: Migration, rest: seq<Migration>, budget: nat)
    ensures Effects([m] + rest) == Steps(m) + Effects(rest)
    ensures budget >= |Steps(m)| ==>
      done + Upto(Effects([m] + rest), budget) == done + Steps(m) + Upto(Effects(rest), budget - |Steps(m)|)
    ensures budget < |Steps(m)| ==> done + Upto(Effects([m] + rest), budget) == done + Upto(Steps(m), budget)
  {
    hide Steps;
    assert ([m] + rest)[1..] == rest;
    var all := Steps(m) + Effects(rest);
    if budget >= |Steps(m)| {
      var n := budget - |Steps(m)|;
      assert n < |Effects(rest)| ==> all[..budget] == Steps(m) + Effects(rest)[..n];
    } else {
      assert all[..budget] == Steps(m)[..budget];
    }
  }

  /** `run` on an existing ledger: `None` when it raises, else the names applied. */
  method Run(client: Client, ms: seq<Migration>) returns (names: Option<seq<string>>)
    modifies client
    ensures client.log == AfterRun(old(client.log), ms, old(client.budget))
    ensures names.Some? <==> Completes(old(client.log), ms, old(client.budget))
    ensures names.Some? ==> |names.value| == |Pending(Applied(old(client.log)), ms)|
    ensures names.Some? ==>
      forall i :: 0 <= i < |names.value| ==> names.value[i] == Pending(Applied(old(client.log)), ms)[i].name
  {
    hide Steps, Pending;
    var applied := Applied(client.log);
    var pending := Pending(applied, ms);
    for i := 0 to |ms|
      invariant client.log == old(client.log) && client.budget == old(client.budget)
      invariant forall j :: 0 <= j < i ==>
        !(ms[j].version in applied && applied[ms[j].version] != "" && applied[ms[j].version] != ms[j].checksum)
    {
      var m := ms[i];
      if m.version in applied && applied[m.version] != "" && applied[m.version] != m.checksum {
        assert m in ms && Edited(applied, ms);
        return None;
      }
    }
    ghost var log0, b0 := client.log, client.budget;
    var out: seq<string> := [];
    for i := 0 to |pending|
      invariant |out| == i && forall j :: 0 <= j < i ==> out[j] == pending[j].name
      invariant log0 + Upto(Effects(pending), b0) == client.log + Upto(Effects(pending[i..]), client.budget)
      invariant b0 - |Effects(pending)| == client.budget - |Effects(pending[i..])|
    {
      assert pending[i..] == [pending[i]] + pending[i + 1..];
      UptoStep(client.log, pending[i], pending[i + 1..], client.budget);
      var ok := Apply(client, pending[i]);
      if !ok {
        return None;
      }
      out := out + [pending[i].name];
    }
    names := Some(out);
  }
}
