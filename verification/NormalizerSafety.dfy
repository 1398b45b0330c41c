// What every run of the normalizer keeps, whatever crashes and redeliveries it contains.
module NormalizerSafety {
  import opened DedupToken
  import opened NormalizerSpec

  // ----------------------------------------------------------------- invariant

  ghost predicate Shaped(w: World, s: State) {
    && |s.position| == |s.committed| == |w.logs|
    && forall p :: 0 <= p < |w.logs| ==> s.committed[p] <= s.position[p] <= |w.logs[p]|
  }

  /** The open batch's bounds are the uncommitted window [committed, position - 1] of every
      partition. Once a flush has raised, the commit may have taken effect unseen, so the bounds
      may start below `committed`. */
  ghost predicate Windowed(w: World, s: State)
    requires Shaped(w, s)
  {
    && (forall p :: p in s.offsets ==> p < |w.logs|)
    && forall p :: 0 <= p < |w.logs| ==>
         if p in s.offsets then
           && s.offsets[p].lo <= s.offsets[p].hi
           && s.offsets[p].hi + 1 == s.position[p]
           && s.offsets[p].lo <= s.committed[p]
           && (!s.failed ==> s.offsets[p].lo == s.committed[p])
         else s.committed[p] == s.position[p]
  }

  ghost predicate MessageStored(w: World, p: nat, o: nat, table: seq<SpanRow>) {
    forall r :: r in MessageRows(w, p, o) ==> r in table
  }

  /** Every row of every message below the given offsets is in the table. */
  ghost predicate Stored(w: World, upTo: seq<nat>, table: seq<SpanRow>)
    requires |upTo| == |w.logs|
  {
    forall p, o :: 0 <= p < |w.logs| && 0 <= o < upTo[p] ==> MessageStored(w, p, o, table)
  }

  ghost predicate WindowStored(w: World, ranges: Ranges, table: seq<SpanRow>) {
    forall r :: r in WindowRows(w, ranges, |w.logs|) ==> r in table
  }

  /** A token that was not used before the run stands for rows that are in the table. */
  ghost predicate TokensHonest(w: World, store: Store, used: set<string>) {
    forall ranges | Token(w.topic, ranges) in store.tokens - used ::
      WindowStored(w, ranges, store.table)
  }

  /** The table only gained rows of the log, and kept what it had. */
  ghost predicate TableSound(w: World, store: Store, base: Store) {
    && base.tokens <= store.tokens
    && (forall r :: r in base.table ==> r in store.table)
    && (forall r :: r in store.table ==> r in base.table || LogRow(w, r))
  }

  ghost predicate MessageBuried(w: World, p: nat, o: nat, dead: seq<DeadLetter>) {
    forall d :: d in MessageDead(w, p, o) ==> d in dead
  }

  /** Every failing span or message below the position was dead-lettered, and nothing else was. */
  ghost predicate DeadComplete(w: World, upTo: seq<nat>, dead: seq<DeadLetter>)
    requires |upTo| == |w.logs|
  {
    && (forall p, o :: 0 <= p < |w.logs| && 0 <= o < upTo[p] ==> MessageBuried(w, p, o, dead))
    && (forall d :: d in dead ==>
          d in MessageDead(w, d.partition, d.offset))
  }

  ghost predicate Inv(w: World, base: Store, s: State) {
    && Shaped(w, s) && Windowed(w, s)
    && multiset(s.rows) == WindowRows(w, s.offsets, |w.logs|)
    && Stored(w, s.committed, s.store.table)
    && TokensHonest(w, s.store, base.tokens)
    && TableSound(w, s.store, base)
    && DeadComplete(w, s.position, s.dead)
  }

  /** The offsets are committed when the flush is over. */
  predicate Commits(outcome: Outcome) {
    outcome == Done || outcome == CommitRaised(true)
  }

  /** A flush now would be taken for a repetition of an insert made before the run, though it carries
      rows that are not in the table. */
  ghost predicate Swallows(w: World, s: State, used: set<string>) {
    Token(w.topic, s.offsets) in used && exists r :: r in s.rows && r !in s.store.table
  }

  ghost predicate SwallowedBy(w: World, s: State, used: set<string>, e: Event) {
    e.Flush? && Commits(e.outcome) && Swallows(w, s, used)
  }

  /** No flush that commits is swallowed. Flushes that raise first may be. */
  ghost predicate NothingSwallowed(w: World, s: State, events: seq<Event>, used: set<string>) {
    events == [] ||
    var front, last := events[..|events| - 1], events[|events| - 1];
    NothingSwallowed(w, s, front, used) && !SwallowedBy(w, Run(w, s, front), used, last)
  }

  // --------------------------------------------------------------- preservation

  lemma InitialInv(w: World, store: Store)
    ensures Inv(w, store, Initial(w, store))
  {
    EmptyWindow(w, |w.logs|);
  }

  lemma {:induction false} RejectPosition(codec: Codec, spans: seq<DecodedSpan>, p: nat, o: nat,
      payload: Payload, d: DeadLetter)
    requires d in Rejects(codec, spans, p, o, payload)
    ensures d.partition == p && d.offset == o
  {
    if d in Rejects(codec, spans[..|spans| - 1], p, o, payload) {
      RejectPosition(codec, spans[..|spans| - 1], p, o, payload, d);
    }
  }

  lemma MessageDeadPosition(w: World, p: nat, o: nat, d: DeadLetter)
    requires d in MessageDead(w, p, o)
    ensures d.partition == p && d.offset == o
  {
    var payload := w.logs[p][o];
    match w.codec.decode(payload)
    case Spans(spans) => RejectPosition(w.codec, spans, p, o, payload, d);
    case _ =>
  }

  lemma DeliverKeepsWindow(w: World, s: State, p: nat)
    requires Shaped(w, s) && Windowed(w, s) && !s.failed
    requires p < |w.logs| && s.position[p] < |w.logs[p]|
    ensures var t := DeliverSpec(w, s, p); Shaped(w, t) && Windowed(w, t)
  {
    PartitionGrows(w, s.offsets, p, s.position[p], p);
  }

  lemma DeliverKeepsDead(w: World, upTo: seq<nat>, dead: seq<DeadLetter>, p: nat)
    requires |upTo| == |w.logs|
    requires p < |w.logs| && upTo[p] < |w.logs[p]|
    requires DeadComplete(w, upTo, dead)
    ensures DeadComplete(w, upTo[p := upTo[p] + 1], dead + MessageDead(w, p, upTo[p]))
  {
    var o := upTo[p];
    var next, after := upTo[p := o + 1], dead + MessageDead(w, p, o);
    forall d | d in MessageDead(w, p, o) ensures d.partition == p && d.offset == o {
      MessageDeadPosition(w, p, o, d);
    }
    forall q, i | 0 <= q < |w.logs| && 0 <= i < next[q] ensures MessageBuried(w, q, i, after) {
      if i < upTo[q] {
        assert MessageBuried(w, q, i, dead);
      } else {
        assert q == p && i == o;
      }
    }
  }

  lemma DeliverKeeps(w: World, base: Store, s: State, p: nat)
    requires Inv(w, base, s) && !s.failed
    requires p < |w.logs| && s.position[p] < |w.logs[p]|
    ensures Inv(w, base, DeliverSpec(w, s, p))
  {
    DeliverKeepsWindow(w, s, p);
    WindowGrows(w, s.offsets, p, s.position[p]);
    DeliverKeepsDead(w, s.position, s.dead, p);
  }

  lemma InsertStoresWindow(w: World, store: Store, used: set<string>, rows: seq<SpanRow>, ranges: Ranges)
    requires multiset(rows) == WindowRows(w, ranges, |w.logs|)
    requires TokensHonest(w, store, used)
    requires Token(w.topic, ranges) in used ==> forall r :: r in rows ==> r in store.table
    ensures WindowStored(w, ranges, Insert(store, rows, Token(w.topic, ranges)).table)
  {
    var after := Insert(store, rows, Token(w.topic, ranges));
    forall r | r in WindowRows(w, ranges, |w.logs|) ensures r in after.table {
      assert r in multiset(rows) && r in rows;
      if Token(w.topic, ranges) in store.tokens - used {
        assert WindowStored(w, ranges, store.table);
      }
    }
  }

  /** An insert leaves the open batch's rows in the table, unless its token was used before the run. */
  lemma {:induction false} InsertKeepsHonesty(w: World, store: Store, used: set<string>, rows: seq<SpanRow>, ranges: Ranges)
    requires multiset(rows) == WindowRows(w, ranges, |w.logs|)
    requires TokensHonest(w, store, used)
    ensures TokensHonest(w, Insert(store, rows, Token(w.topic, ranges)), used)
  {
    var token := Token(w.topic, ranges);
    var after := Insert(store, rows, token);
    forall other | Token(w.topic, other) in after.tokens - used
      ensures WindowStored(w, other, after.table)
    {
      if Token(w.topic, other) == token {
        TokenInjective(w.topic, other, ranges);
        InsertStoresWindow(w, store, used, rows, ranges);
      } else {
        assert WindowStored(w, other, store.table);
      }
    }
  }

  lemma InsertKeepsSound(w: World, store: Store, base: Store, rows: seq<SpanRow>, ranges: Ranges)
    requires multiset(rows) == WindowRows(w, ranges, |w.logs|)
    requires TableSound(w, store, base)
    ensures TableSound(w, Insert(store, rows, Token(w.topic, ranges)), base)
  {
    var after := Insert(store, rows, Token(w.topic, ranges));
    forall r | r in after.table ensures r in base.table || LogRow(w, r) {
      if r !in store.table {
        assert r in multiset(rows);
        var p, o := WindowOrigin(w, ranges, |w.logs|, r);
        MessageRowPosition(w, p, o, r);
      }
    }
  }

  lemma CommitStores(w: World, s: State, table: seq<SpanRow>)
    requires Shaped(w, s) && Windowed(w, s)
    requires Stored(w, s.committed, table) && WindowStored(w, s.offsets, table)
    ensures Stored(w, s.position, table)
  {
    forall p, o | 0 <= p < |w.logs| && 0 <= o < s.position[p] ensures MessageStored(w, p, o, table) {
      if s.committed[p] <= o {
        forall r | r in MessageRows(w, p, o) ensures r in table {
          InWindow(w, s.offsets, |w.logs|, p, o, r);
        }
      }
    }
  }

  lemma MoreRowsStored(w: World, upTo: seq<nat>, table: seq<SpanRow>, more: seq<SpanRow>)
    requires |upTo| == |w.logs|
    requires Stored(w, upTo, table) && forall r :: r in table ==> r in more
    ensures Stored(w, upTo, more)
  {
    forall p, o | 0 <= p < |w.logs| && 0 <= o < upTo[p] ensures MessageStored(w, p, o, more) {
      assert MessageStored(w, p, o, table);
    }
  }

  lemma {:induction false} FlushKeepsWindow(w: World, s: State, outcome: Outcome)
    requires Shaped(w, s) && Windowed(w, s)
    requires multiset(s.rows) == WindowRows(w, s.offsets, |w.logs|)
    ensures var t := FlushSpec(w, s, outcome);
      && Shaped(w, t) && Windowed(w, t)
      && multiset(t.rows) == WindowRows(w, t.offsets, |w.logs|)
  {
    EmptyWindow(w, |w.logs|);
  }

  /** When the offsets are committed, every row of the batch is in the table, whatever came of the insert. */
  lemma CommitKeepsStored(w: World, base: Store, s: State, outcome: Outcome)
    requires Inv(w, base, s) && Commits(outcome) && !Swallows(w, s, base.tokens)
    ensures Stored(w, s.position, Insert(s.store, s.rows, Token(w.topic, s.offsets)).table)
  {
    var after := Insert(s.store, s.rows, Token(w.topic, s.offsets));
    InsertStoresWindow(w, s.store, base.tokens, s.rows, s.offsets);
    MoreRowsStored(w, s.committed, s.store.table, after.table);
    CommitStores(w, s, after.table);
  }

  lemma {:induction false} FlushKeeps(w: World, base: Store, s: State, outcome: Outcome)
    requires Inv(w, base, s) && !SwallowedBy(w, s, base.tokens, Flush(outcome))
    ensures Inv(w, base, FlushSpec(w, s, outcome))
  {
    hide Swallows;
    var after := Insert(s.store, s.rows, Token(w.topic, s.offsets));
    InsertKeepsHonesty(w, s.store, base.tokens, s.rows, s.offsets);
    InsertKeepsSound(w, s.store, base, s.rows, s.offsets);
    MoreRowsStored(w, s.committed, s.store.table, after.table);
    if Commits(outcome) { CommitKeepsStored(w, base, s, outcome); }
    FlushKeepsWindow(w, s, outcome);
    var t := FlushSpec(w, s, outcome);
    if s.offsets == map[] {
      assert t == s;
    } else {
      assert t.dead == s.dead && t.position == s.position;
      assert t.store == after || t.store == s.store;
    }
  }

  lemma RestartKeeps(w: World, base: Store, s: State)
    requires Inv(w, base, s)
    ensures Inv(w, base, Step(w, s, Restart))
  {
    EmptyWindow(w, |w.logs|);
    forall p, o | 0 <= p < |w.logs| && 0 <= o < s.committed[p] ensures MessageBuried(w, p, o, s.dead) {
      assert o < s.position[p];
    }
  }

  lemma StepKeeps(w: World, base: Store, s: State, e: Event)
    requires Inv(w, base, s) && !SwallowedBy(w, s, base.tokens, e)
    ensures Inv(w, base, Step(w, s, e))
  {
    match e
    case Deliver(p) =>
      if !s.failed && p < |w.logs| && s.position[p] < |w.logs[p]| {
        DeliverKeeps(w, base, s, p);
      }
    case Flush(outcome) => FlushKeeps(w, base, s, outcome);
    case Restart => RestartKeeps(w, base, s);
  }

  /** Over every run from an empty consumer group in which no committing flush is swallowed, the invariant
      holds. */
  lemma {:induction false} RunKeeps(w: World, base: Store, events: seq<Event>)
    requires NothingSwallowed(w, Initial(w, base), events, base.tokens)
    ensures Inv(w, base, Run(w, Initial(w, base), events))
  {
    if events == [] {
      InitialInv(w, base);
    } else {
      var front, last := events[..|events| - 1], events[|events| - 1];
      RunKeeps(w, base, front);
      StepKeeps(w, base, Run(w, Initial(w, base), front), last);
    }
  }

  lemma {:induction false} NoUsedTokensNoneSwallowed(w: World, s: State, events: seq<Event>)
    ensures NothingSwallowed(w, s, events, {})
  {
    if events != [] {
      NoUsedTokensNoneSwallowed(w, s, events[..|events| - 1]);
    }
  }

  // -------------------------------------------------------------------- theorems

  /** Safety: in every run over an untouched store, each message below a committed offset has all
      its rows in the table and all its rejects in the dead letters, and neither holds anything else. */
  lemma NothingBelowCommittedIsLost(w: World, events: seq<Event>)
    ensures var s := Run(w, Initial(w, Store([], {})), events);
      && Shaped(w, s)
      && (forall p, o :: 0 <= p < |w.logs| && 0 <= o < s.committed[p] ==>
            MessageStored(w, p, o, s.store.table) && MessageBuried(w, p, o, s.dead))
      && (forall r :: r in s.store.table ==> LogRow(w, r))
  {
    NoUsedTokensNoneSwallowed(w, Initial(w, Store([], {})), events);
    RunKeeps(w, Store([], {}), events);
  }

  /** While no flush has raised, the open batch is exactly the uncommitted window, in bounds and in rows. */
  lemma OpenBatchIsUncommittedWindow(w: World, events: seq<Event>, p: nat)
    requires p < |w.logs| && !Run(w, Initial(w, Store([], {})), events).failed
    ensures var s := Run(w, Initial(w, Store([], {})), events);
      && Shaped(w, s)
      && (p in s.offsets <==> s.committed[p] < s.position[p])
      && (p in s.offsets ==> s.offsets[p] == Bounds(s.committed[p], s.position[p] - 1))
      && multiset(s.rows) == WindowRows(w, s.offsets, |w.logs|)
  {
    NoUsedTokensNoneSwallowed(w, Initial(w, Store([], {})), events);
    RunKeeps(w, Store([], {}), events);
  }

  /** Two batches of any two runs over one log that carry the same token carry the same rows. */
  lemma {:induction false} EqualTokensEqualRows(w: World, a: seq<Event>, b: seq<Event>)
    requires var s, t := Run(w, Initial(w, Store([], {})), a), Run(w, Initial(w, Store([], {})), b);
      Token(w.topic, s.offsets) == Token(w.topic, t.offsets)
    ensures var s, t := Run(w, Initial(w, Store([], {})), a), Run(w, Initial(w, Store([], {})), b);
      multiset(s.rows) == multiset(t.rows)
  {
    var empty := Store([], {});
    NoUsedTokensNoneSwallowed(w, Initial(w, empty), a);
    NoUsedTokensNoneSwallowed(w, Initial(w, empty), b);
    RunKeeps(w, empty, a);
    RunKeeps(w, empty, b);
    TokenInjective(w.topic, Run(w, Initial(w, empty), a).offsets, Run(w, Initial(w, empty), b).offsets);
  }

  /** Every decoded span becomes exactly one row or one dead letter. */
  lemma {:induction false} SpansAccountedFor(codec: Codec, spans: seq<DecodedSpan>, p: nat, o: nat, payload: Payload)
    ensures |RowsOf(codec, spans, p, o)| + |Rejects(codec, spans, p, o, payload)| == |spans|
  {
    if spans != [] {
      SpansAccountedFor(codec, spans[..|spans| - 1], p, o, payload);
    }
  }
}
