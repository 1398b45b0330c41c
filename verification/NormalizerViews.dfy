// What readers see through the latest-version view after a run, and what a replay does to it.
module NormalizerViews {
  import opened DedupToken
  import opened NormalizerSpec
  import opened NormalizerSafety

  /** `argMax(..., normalization_version)` grouped by span: the rows a reader may be shown for one
      span. A column may come from any row of the greatest version, so the view is well defined
      exactly when this set has at most one element. */
  ghost function LatestOf(table: seq<SpanRow>, key: SpanKey): set<SpanRow> {
    set r | r in table && r.key == key && forall x :: x in table && x.key == key ==> x.version <= r.version
  }

  /** Everything has been consumed and committed. */
  ghost predicate Complete(w: World, s: State) {
    |s.committed| == |w.logs| && forall p :: 0 <= p < |w.logs| ==> s.committed[p] == |w.logs[p]|
  }

  /** The view shows this world's normalizer output for every span, and nothing else. */
  ghost predicate ShowsOutput(w: World, table: seq<SpanRow>) {
    forall r: SpanRow :: r in LatestOf(table, r.key) <==> LogRow(w, r)
  }

  ghost predicate Produces(w: World, key: SpanKey) {
    exists r :: LogRow(w, r) && r.key == key
  }

  ghost predicate UniqueSpans(w: World) {
    forall a, b :: LogRow(w, a) && LogRow(w, b) && a.key == b.key ==> a == b
  }

  ghost predicate Older(store: Store, version: nat) {
    forall r :: r in store.table ==> r.version < version
  }

  lemma {:induction false} LatestExists(table: seq<SpanRow>, r: SpanRow) returns (m: SpanRow)
    requires r in table
    ensures m in LatestOf(table, r.key)
    decreases table
  {
    var front, last := table[..|table| - 1], table[|table| - 1];
    assert table == front + [last];
    if r in front {
      m := LatestExists(front, r);
      if last.key == r.key && last.version > m.version {
        m := last;
      }
    } else {
      m := r;
      if x :| x in front && x.key == r.key {
        m := LatestExists(front, x);
        if r.version > m.version {
          m := r;
        }
      }
    }
  }

  lemma CompleteHasLog(w: World, base: Store, s: State, r: SpanRow)
    requires Inv(w, base, s) && Complete(w, s) && LogRow(w, r)
    ensures r in s.store.table
  {
    assert MessageStored(w, r.partition, r.offset, s.store.table);
  }

  lemma LogRowVersion(w: World, r: SpanRow)
    requires LogRow(w, r)
    ensures r.version == w.codec.version
  {
    MessageRowPosition(w, r.partition, r.offset, r);
  }

  // -------------------------------------------------------------- one normalizer

  /** However a run crashed and re-batched, once everything is committed the view is the log's output. */
  lemma RunShowsOutput(w: World, events: seq<Event>)
    requires Complete(w, Run(w, Initial(w, Store([], {})), events))
    ensures ShowsOutput(w, Run(w, Initial(w, Store([], {})), events).store.table)
  {
    var empty := Store([], {});
    var s := Run(w, Initial(w, empty), events);
    NoUsedTokensNoneSwallowed(w, Initial(w, empty), events);
    RunKeeps(w, empty, events);
    forall r: SpanRow ensures r in LatestOf(s.store.table, r.key) <==> LogRow(w, r) {
      if LogRow(w, r) {
        CompleteHasLog(w, empty, s, r);
        LogRowVersion(w, r);
        forall x | x in s.store.table ensures x.version <= r.version {
          LogRowVersion(w, x);
        }
      }
    }
  }

  /** Two complete runs of one normalizer, crash-free or not, show readers the same view. */
  lemma {:induction false} CompleteRunsAgree(w: World, a: seq<Event>, b: seq<Event>, key: SpanKey)
    requires Complete(w, Run(w, Initial(w, Store([], {})), a))
    requires Complete(w, Run(w, Initial(w, Store([], {})), b))
    ensures LatestOf(Run(w, Initial(w, Store([], {})), a).store.table, key)
         == LatestOf(Run(w, Initial(w, Store([], {})), b).store.table, key)
  {
    var va := LatestOf(Run(w, Initial(w, Store([], {})), a).store.table, key);
    var vb := LatestOf(Run(w, Initial(w, Store([], {})), b).store.table, key);
    RunShowsOutput(w, a);
    RunShowsOutput(w, b);
    forall r ensures r in va <==> r in vb {
      if r in va || r in vb { assert r.key == key; assert LogRow(w, r); }
    }
  }

  /** A reader is shown one row per span, whichever rows `argMax` picks among equals. */
  ghost predicate SingleValued(table: seq<SpanRow>) {
    forall a: SpanRow, b: SpanRow ::
      a in LatestOf(table, a.key) && b in LatestOf(table, b.key) && a.key == b.key ==> a == b
  }

  lemma OutputIsAFunction(w: World, table: seq<SpanRow>)
    requires ShowsOutput(w, table)
    ensures SingleValued(table) <==> UniqueSpans(w)
  {
    if SingleValued(table) {
      forall a, b | LogRow(w, a) && LogRow(w, b) && a.key == b.key ensures a == b {
        assert a in LatestOf(table, a.key) && b in LatestOf(table, b.key);
      }
    } else {
      var a: SpanRow, b: SpanRow :|
        a in LatestOf(table, a.key) && b in LatestOf(table, b.key) && a.key == b.key && a != b;
      assert LogRow(w, a) && LogRow(w, b);
    }
  }

  /** The view has one row per span exactly when the log never carries one span twice. */
  lemma {:induction false} ViewIsAFunction(w: World, events: seq<Event>)
    requires Complete(w, Run(w, Initial(w, Store([], {})), events))
    ensures SingleValued(Run(w, Initial(w, Store([], {})), events).store.table) <==> UniqueSpans(w)
  {
    RunShowsOutput(w, events);
    OutputIsAFunction(w, Run(w, Initial(w, Store([], {})), events).store.table);
  }

  // ----------------------------------------------------------- a complete run exists

  /** Delivers every message, partition by partition. */
  ghost function DeliverAll(w: World, n: nat): seq<Event>
    requires n <= |w.logs|
  {
    if n == 0 then [] else DeliverAll(w, n - 1) + seq(|w.logs[n - 1]|, _ => Deliver(n - 1))
  }

  ghost function SinglePass(w: World): seq<Event> {
    DeliverAll(w, |w.logs|) + [Flush(Done)]
  }

  lemma {:induction false} DeliverMany(w: World, s: State, p: nat, k: nat)
    requires !s.failed && p < |w.logs| == |s.position| && s.position[p] + k <= |w.logs[p]|
    ensures var t := Run(w, s, seq(k, _ => Deliver(p)));
      !t.failed && t.position == s.position[p := s.position[p] + k]
  {
    var es := seq(k, _ => Deliver(p));
    if k > 0 {
      assert es[..k - 1] == seq(k - 1, _ => Deliver(p)) && es[k - 1] == Deliver(p);
      DeliverMany(w, s, p, k - 1);
    }
  }

  ghost predicate DeliveredBelow(w: World, s: State, n: nat) {
    && !s.failed && |s.position| == |w.logs|
    && forall p :: 0 <= p < |w.logs| ==> s.position[p] == if p < n then |w.logs[p]| else 0
  }

  lemma {:induction false} DeliverAllPositions(w: World, base: Store, n: nat)
    requires n <= |w.logs|
    ensures DeliveredBelow(w, Run(w, Initial(w, base), DeliverAll(w, n)), n)
  {
    if n > 0 {
      DeliverAllPositions(w, base, n - 1);
      var t := Run(w, Initial(w, base), DeliverAll(w, n - 1));
      DeliverMany(w, t, n - 1, |w.logs[n - 1]|);
      RunConcat(w, Initial(w, base), DeliverAll(w, n - 1), seq(|w.logs[n - 1]|, _ => Deliver(n - 1)));
    }
  }

  lemma FlushCompletes(w: World, base: Store, s: State)
    requires DeliveredBelow(w, s, |w.logs|) && Inv(w, base, s)
    ensures Complete(w, FlushSpec(w, s, Done))
  {}

  /** The crash-free single pass consumes and commits the whole log. */
  lemma SinglePassCompletes(w: World)
    ensures Complete(w, Run(w, Initial(w, Store([], {})), SinglePass(w)))
  {
    var s0 := Initial(w, Store([], {}));
    var all := DeliverAll(w, |w.logs|);
    DeliverAllPositions(w, Store([], {}), |w.logs|);
    NoUsedTokensNoneSwallowed(w, s0, all);
    RunKeeps(w, Store([], {}), all);
    FlushCompletes(w, Store([], {}), Run(w, s0, all));
    RunConcat(w, s0, all, [Flush(Done)]);
    assert Run(w, Run(w, s0, all), [Flush(Done)]) == FlushSpec(w, Run(w, s0, all), Done);
  }

  // ---------------------------------------------------------------------- replay

  ghost predicate ShownOver(w: World, before: seq<SpanRow>, table: seq<SpanRow>) {
    && (forall r: SpanRow :: Produces(w, r.key) ==> (r in LatestOf(table, r.key) <==> LogRow(w, r)))
    && (forall key :: !Produces(w, key) ==> LatestOf(table, key) == LatestOf(before, key))
  }

  /** Over older rows, a complete log of a newer normalizer is what is shown for every span it produces. */
  lemma NewerOutputShown(w: World, base: Store, s: State)
    requires Older(base, w.codec.version) && Inv(w, base, s) && Complete(w, s)
    ensures ShownOver(w, base.table, s.store.table)
  {
    var table := s.store.table;
    forall r: SpanRow | Produces(w, r.key) ensures r in LatestOf(table, r.key) <==> LogRow(w, r) {
      var y :| LogRow(w, y) && y.key == r.key;
      CompleteHasLog(w, base, s, y);
      LogRowVersion(w, y);
      if LogRow(w, r) {
        CompleteHasLog(w, base, s, r);
        LogRowVersion(w, r);
        forall x | x in table ensures x.version <= r.version {
          if x !in base.table { LogRowVersion(w, x); }
        }
      }
    }
    forall key | !Produces(w, key) ensures LatestOf(table, key) == LatestOf(base.table, key) {
      assert forall r | r in table && r.key == key :: r in base.table;
    }
  }

  /** A replay with a newer normalizer, none of whose committing flushes is swallowed, shows the new output
      for every span the new normalizer produces, and leaves every other span as it was. */
  lemma ReplayShowsNewOutput(w: World, base: Store, events: seq<Event>)
    requires Older(base, w.codec.version)
    requires NothingSwallowed(w, Initial(w, base), events, base.tokens)
    requires Complete(w, Run(w, Initial(w, base), events))
    ensures var table := Run(w, Initial(w, base), events).store.table;
      && (forall r: SpanRow :: Produces(w, r.key) ==> (r in LatestOf(table, r.key) <==> LogRow(w, r)))
      && (forall key :: !Produces(w, key) ==> LatestOf(table, key) == LatestOf(base.table, key))
  {
    RunKeeps(w, base, events);
    NewerOutputShown(w, base, Run(w, Initial(w, base), events));
  }

  /** After such a replay the whole view is the new output exactly when the new normalizer still
      produces every span that was stored before. */
  lemma ReplayReplacesEverything(w: World, base: Store, events: seq<Event>)
    requires Older(base, w.codec.version)
    requires NothingSwallowed(w, Initial(w, base), events, base.tokens)
    requires Complete(w, Run(w, Initial(w, base), events))
    ensures ShowsOutput(w, Run(w, Initial(w, base), events).store.table)
       <==> (forall r :: r in base.table ==> Produces(w, r.key))
  {
    ReplayShowsNewOutput(w, base, events);
    RunKeeps(w, base, events);
    var table := Run(w, Initial(w, base), events).store.table;
    if ShowsOutput(w, table) {
      forall r | r in base.table ensures Produces(w, r.key) {
        var m := LatestExists(table, r);
        assert LogRow(w, m) && m.key == r.key;
      }
    } else {
      var r: SpanRow :| !(r in LatestOf(table, r.key) <==> LogRow(w, r));
      assert !Produces(w, r.key);
      assert r in LatestOf(base.table, r.key);
    }
  }

  // ------------------------------------------- when a replay is deduplicated away

  /** What every run keeps, though committing flushes be swallowed. */
  ghost predicate Outline(w: World, base: Store, s: State) {
    && Shaped(w, s) && Windowed(w, s)
    && multiset(s.rows) == WindowRows(w, s.offsets, |w.logs|)
    && TableSound(w, s.store, base)
  }

  lemma BatchRowIsInWindow(w: World, base: Store, s: State, r: SpanRow)
    requires Outline(w, base, s) && r in s.rows
    ensures LogRow(w, r) && r.partition < |w.logs| && r.partition in s.offsets
    ensures s.offsets[r.partition].lo <= r.offset < s.position[r.partition]
  {
    assert r in multiset(s.rows);
    var p, o := WindowOrigin(w, s.offsets, |w.logs|, r);
    MessageRowPosition(w, p, o, r);
  }

  lemma DeliverKeepsOutline(w: World, base: Store, s: State, p: nat)
    requires Outline(w, base, s) && !s.failed && p < |w.logs| && s.position[p] < |w.logs[p]|
    ensures Outline(w, base, DeliverSpec(w, s, p))
  {
    hide MessageRows, MessageDead, LogRow;
    DeliverKeepsWindow(w, s, p);
    WindowGrows(w, s.offsets, p, s.position[p]);
  }

  lemma FlushKeepsOutline(w: World, base: Store, s: State, outcome: Outcome)
    requires Outline(w, base, s)
    ensures Outline(w, base, FlushSpec(w, s, outcome))
  {
    hide MessageRows, LogRow, WindowRows;
    FlushKeepsWindow(w, s, outcome);
    InsertKeepsSound(w, s.store, base, s.rows, s.offsets);
  }

  lemma StepKeepsOutline(w: World, base: Store, s: State, e: Event)
    requires Outline(w, base, s)
    ensures Outline(w, base, Step(w, s, e))
  {
    hide MessageRows, LogRow, FlushSpec;
    match e
    case Deliver(p) =>
      if !s.failed && p < |w.logs| && s.position[p] < |w.logs[p]| { DeliverKeepsOutline(w, base, s, p); }
    case Flush(outcome) => FlushKeepsOutline(w, base, s, outcome);
    case Restart => EmptyWindow(w, |w.logs|);
  }

  /** A row whose offset is committed, that is not in the table, and that only a used token could bring there. */
  ghost predicate Lost(w: World, s: State, used: set<string>, r: SpanRow) {
    && LogRow(w, r) && r.partition < |s.committed|
    && r.offset < s.committed[r.partition] && r !in s.store.table
    && (r in s.rows ==> Token(w.topic, s.offsets) in used)
  }

  /** A lost row never comes back, through crashes or without. */
  lemma LostStaysLost(w: World, base: Store, s: State, e: Event, r: SpanRow)
    requires Outline(w, base, s) && Lost(w, s, base.tokens, r)
    ensures Lost(w, Step(w, s, e), base.tokens, r)
  {
    hide LogRow, MessageRows, Token;
    if e.Deliver? && !s.failed && r in Step(w, s, e).rows {
      StepKeepsOutline(w, base, s, e);
      BatchRowIsInWindow(w, base, Step(w, s, e), r);
      assert false;
    }
  }

  /** What a swallowed flush carried and the table lacks is lost once the offsets are committed. */
  lemma SwallowedFlushLoses(w: World, base: Store, s: State, e: Event) returns (r: SpanRow)
    requires Outline(w, base, s) && SwallowedBy(w, s, base.tokens, e)
    ensures Lost(w, Step(w, s, e), base.tokens, r)
  {
    r :| r in s.rows && r !in s.store.table;
    BatchRowIsInWindow(w, base, s, r);
  }

  lemma {:induction false} RunOutline(w: World, base: Store, events: seq<Event>)
    ensures Outline(w, base, Run(w, Initial(w, base), events))
  {
    if events == [] {
      InitialInv(w, base);
    } else {
      RunOutline(w, base, events[..|events| - 1]);
      StepKeepsOutline(w, base, Run(w, Initial(w, base), events[..|events| - 1]), events[|events| - 1]);
    }
  }

  lemma {:induction false} SwallowedRunLoses(w: World, base: Store, events: seq<Event>) returns (r: SpanRow)
    requires !NothingSwallowed(w, Initial(w, base), events, base.tokens)
    ensures Lost(w, Run(w, Initial(w, base), events), base.tokens, r)
  {
    var front, last := events[..|events| - 1], events[|events| - 1];
    var s := Run(w, Initial(w, base), front);
    RunOutline(w, base, front);
    if NothingSwallowed(w, Initial(w, base), front, base.tokens) {
      r := SwallowedFlushLoses(w, base, s, last);
    } else {
      r := SwallowedRunLoses(w, base, front);
      LostStaysLost(w, base, s, last, r);
    }
  }

  /** A complete replay with a newer normalizer, however it crashed, shows all its output exactly when no
      flush committed rows that the table lacked under a token the store had seen before. The token names
      only the topic and the offsets, so nothing about the new version or consumer group makes it unseen. */
  lemma ReplayExact(w: World, base: Store, events: seq<Event>)
    requires Older(base, w.codec.version)
    requires Complete(w, Run(w, Initial(w, base), events))
    ensures (forall r :: LogRow(w, r) ==> r in LatestOf(Run(w, Initial(w, base), events).store.table, r.key)) <==>
      NothingSwallowed(w, Initial(w, base), events, base.tokens)
  {
    var table := Run(w, Initial(w, base), events).store.table;
    if NothingSwallowed(w, Initial(w, base), events, base.tokens) {
      ReplayShowsNewOutput(w, base, events);
      forall r | LogRow(w, r) ensures r in LatestOf(table, r.key) {
        assert Produces(w, r.key);
      }
    } else {
      var r := SwallowedRunLoses(w, base, events);
      assert r !in LatestOf(table, r.key);
    }
  }

  ghost predicate CrashFree(events: seq<Event>) {
    forall e :: e in events ==> e.Deliver? || e == Flush(Done)
  }

  /** Without crashes, only committed rows are in the table besides the older ones. */
  ghost predicate CrashFreeInv(w: World, base: Store, s: State) {
    && Outline(w, base, s) && !s.failed
    && forall r :: r in s.store.table && r !in base.table && r.partition < |s.committed| ==> r.offset < s.committed[r.partition]
  }

  lemma CrashFreeStep(w: World, base: Store, s: State, e: Event)
    requires CrashFreeInv(w, base, s) && (e.Deliver? || e == Flush(Done))
    ensures CrashFreeInv(w, base, Step(w, s, e))
  {
    StepKeepsOutline(w, base, s, e);
    forall r | r in s.rows ensures r.partition < |w.logs| && r.offset < s.position[r.partition] {
      BatchRowIsInWindow(w, base, s, r);
    }
  }

  lemma {:induction false} CrashFreeRun(w: World, base: Store, events: seq<Event>)
    requires CrashFree(events)
    ensures CrashFreeInv(w, base, Run(w, Initial(w, base), events))
  {
    if events == [] {
      InitialInv(w, base);
    } else {
      assert events[|events| - 1] in events;
      CrashFreeRun(w, base, events[..|events| - 1]);
      CrashFreeStep(w, base, Run(w, Initial(w, base), events[..|events| - 1]), events[|events| - 1]);
    }
  }

  /** In a crash-free replay a flush is swallowed exactly when it has rows and its token was used before. */
  lemma CrashFreeSwallows(w: World, base: Store, events: seq<Event>)
    requires CrashFree(events) && Older(base, w.codec.version)
    ensures var s := Run(w, Initial(w, base), events);
      Swallows(w, s, base.tokens) <==> Token(w.topic, s.offsets) in base.tokens && s.rows != []
  {
    var s := Run(w, Initial(w, base), events);
    CrashFreeRun(w, base, events);
    if s.rows != [] {
      var r := s.rows[0];
      BatchRowIsInWindow(w, base, s, r);
      LogRowVersion(w, r);
      assert r !in s.store.table;
    }
  }

  lemma RunTwo(w: World, s: State, a: Event, b: Event)
    ensures Run(w, s, [a, b]) == Step(w, Step(w, s, a), b)
  {
    assert [a, b][..1] == [a] && [a][..0] == [];
    assert Run(w, s, [a]) == Step(w, Run(w, s, []), a);
  }

  /** Messages batched alone: the one message of a one-partition log is delivered and flushed. */
  ghost function BatchedAlone(w: World, base: Store): State {
    Run(w, Initial(w, base), [Deliver(0), Flush(Done)])
  }

  lemma DeliverAndFlush(w: World, base: Store)
    requires |w.logs| == 1 && |w.logs[0]| == 1
    ensures Complete(w, BatchedAlone(w, base))
    ensures BatchedAlone(w, base).store == Insert(base, MessageRows(w, 0, 0), Token(w.topic, map[0 := Bounds(0, 0)]))
  {
    RunTwo(w, Initial(w, base), Deliver(0), Flush(Done));
    var s := DeliverSpec(w, Initial(w, base), 0);
    assert s.rows == MessageRows(w, 0, 0) && s.offsets == map[0 := Bounds(0, 0)];
  }

  lemma OldTableLacksNewRows(live: World, fixed: World)
    requires live.codec.version < fixed.codec.version && MessageRows(fixed, 0, 0) != []
    ensures !ShowsOutput(fixed, MessageRows(live, 0, 0))
  {
    var r := MessageRows(fixed, 0, 0)[0];
    MessageRowPosition(fixed, 0, 0, r);
    if r in MessageRows(live, 0, 0) {
      MessageRowPosition(live, 0, 0, r);
      assert false;
    }
    assert LogRow(fixed, r) && r !in LatestOf(MessageRows(live, 0, 0), r.key);
  }

  /** The replay that goes wrong: one message, batched alone both times. The corrected rows never
      reach the table, though their offset is committed. */
  lemma SwallowedReplay(live: World, fixed: World, message: Payload)
    requires live.topic == fixed.topic && live.logs == fixed.logs == [[message]]
    requires live.codec.version < fixed.codec.version
    requires MessageRows(live, 0, 0) != [] && MessageRows(fixed, 0, 0) != []
    ensures var before := BatchedAlone(live, Store([], {})).store;
      var after := BatchedAlone(fixed, before);
      Complete(fixed, after) && after.store == before && !ShowsOutput(fixed, after.store.table)
  {
    var token := Token(live.topic, map[0 := Bounds(0, 0)]);
    DeliverAndFlush(live, Store([], {}));
    var before := BatchedAlone(live, Store([], {})).store;
    assert before.table == MessageRows(live, 0, 0) && token in before.tokens;
    DeliverAndFlush(fixed, before);
    OldTableLacksNewRows(live, fixed);
  }
}
