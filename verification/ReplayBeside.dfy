// Two normalizers on one span store, each with a consumer group of its own: a replay of the log while the
// live normalizer keeps running, seen from either side.
module ReplayBeside {
  import opened DedupToken
  import opened NormalizerSpec
  import opened NormalizerSafety
  import opened NormalizerViews

  datatype Turn = Other(event: Event) | Own(event: Event)

  /** The normalizer looked at, the other one, and what the store holds besides the former's inserts. */
  datatype Both = Both(other: State, own: State, others: Store)

  /** What the other normalizer's step inserted, put beside what is there. */
  function Joined(other: World, before: State, after: State, others: Store): Store {
    if after.store == before.store then others
    else Store(others.table + before.rows, others.tokens + {Token(other.topic, before.offsets)})
  }

  function TakeTurn(other: World, own: World, b: Both, t: Turn): Both {
    match t
    case Other(e) =>
      var after := Step(other, b.other, e);
      Both(after, b.own.(store := after.store), Joined(other, b.other, after, b.others))
    case Own(e) =>
      var after := Step(own, b.own, e);
      Both(b.other.(store := after.store), after, b.others)
  }

  function RunBoth(other: World, own: World, from: Both, turns: seq<Turn>): Both {
    if turns == [] then from
    else TakeTurn(other, own, RunBoth(other, own, from, turns[..|turns| - 1]), turns[|turns| - 1])
  }

  /** No flush of one's own commits rows that the table lacks under a token from elsewhere. */
  ghost predicate NoneSwallowed(other: World, own: World, from: Both, turns: seq<Turn>) {
    turns == [] ||
    var front, last := turns[..|turns| - 1], turns[|turns| - 1];
    var b := RunBoth(other, own, from, front);
    NoneSwallowed(other, own, from, front)
      && (last.Own? ==> !SwallowedBy(own, b.own, b.others.tokens, last.event))
  }

  // -------------------------------------------------------------------- invariants

  ghost predicate RowsHave(rows: seq<SpanRow>, version: nat) {
    forall r :: r in rows ==> r.version == version
  }

  ghost predicate Shared(other: World, own: World, b: Both) {
    && b.other.store == b.own.store
    && RowsHave(b.other.rows, other.codec.version)
    && Outline(own, b.others, b.own)
  }

  /** A point from which the two may run side by side. */
  ghost predicate Ready(other: World, own: World, from: Both) {
    Shared(other, own, from) && Inv(own, from.others, from.own)
  }

  function With(store: Store, rows: seq<SpanRow>, token: string): Store {
    Store(store.table + rows, store.tokens + {token})
  }

  lemma OtherRowsHave(other: World, s: State, e: Event)
    requires RowsHave(s.rows, other.codec.version)
    ensures RowsHave(Step(other, s, e).rows, other.codec.version)
  {
    forall r | r in Step(other, s, e).rows ensures r.version == other.codec.version {
      if r !in s.rows { MessageRowPosition(other, e.partition, s.position[e.partition], r); }
    }
  }

  /** A step leaves the store alone or inserts the open batch under a token the store did not have. */
  lemma StepInserts(w: World, s: State, e: Event)
    ensures var t := Step(w, s, e);
      t.store == s.store ||
      (Token(w.topic, s.offsets) !in s.store.tokens && t.store == With(s.store, s.rows, Token(w.topic, s.offsets)))
  {}

  lemma OthersKeepOutline(w: World, base: Store, s: State, rows: seq<SpanRow>, token: string)
    requires Outline(w, base, s)
    ensures Outline(w, With(base, rows, token), s.(store := With(s.store, rows, token)))
  {}

  /** Rows from elsewhere, under a token from elsewhere, take nothing from what a normalizer keeps. */
  lemma OthersKeep(w: World, base: Store, s: State, rows: seq<SpanRow>, token: string)
    requires Inv(w, base, s) && token !in s.store.tokens
    ensures Inv(w, With(base, rows, token), s.(store := With(s.store, rows, token)))
  {
    var more := With(s.store, rows, token);
    MoreRowsStored(w, s.committed, s.store.table, more.table);
    forall ranges | Token(w.topic, ranges) in more.tokens - With(base, rows, token).tokens
      ensures WindowStored(w, ranges, more.table)
    {
      assert WindowStored(w, ranges, s.store.table);
    }
  }

  lemma OthersKeepLost(w: World, s: State, used: set<string>, r: SpanRow, rows: seq<SpanRow>, version: nat, token: string)
    requires Lost(w, s, used, r) && RowsHave(rows, version) && version != w.codec.version
    ensures Lost(w, s.(store := With(s.store, rows, token)), used + {token}, r)
  {
    LogRowVersion(w, r);
  }

  lemma TurnKeepsShared(other: World, own: World, b: Both, t: Turn)
    requires Shared(other, own, b)
    ensures Shared(other, own, TakeTurn(other, own, b, t))
  {
    match t
    case Other(e) =>
      OtherRowsHave(other, b.other, e);
      StepInserts(other, b.other, e);
      OthersKeepOutline(own, b.others, b.own, b.other.rows, Token(other.topic, b.other.offsets));
    case Own(e) => StepKeepsOutline(own, b.others, b.own, e);
  }

  lemma {:induction false} RunShares(other: World, own: World, from: Both, turns: seq<Turn>)
    requires Shared(other, own, from)
    ensures Shared(other, own, RunBoth(other, own, from, turns))
  {
    if turns != [] {
      RunShares(other, own, from, turns[..|turns| - 1]);
      TurnKeepsShared(other, own, RunBoth(other, own, from, turns[..|turns| - 1]), turns[|turns| - 1]);
    }
  }

  lemma {:induction false} OthersStayOlder(other: World, own: World, from: Both, turns: seq<Turn>)
    requires Shared(other, own, from) && Older(from.others, own.codec.version) && other.codec.version < own.codec.version
    ensures Older(RunBoth(other, own, from, turns).others, own.codec.version)
  {
    hide Shared, Step;
    if turns != [] {
      var front := turns[..|turns| - 1];
      OthersStayOlder(other, own, from, front);
      RunShares(other, own, from, front);
      OtherRows(other, own, RunBoth(other, own, from, front));
    }
  }

  lemma OtherRows(other: World, own: World, b: Both)
    requires Shared(other, own, b)
    ensures RowsHave(b.other.rows, other.codec.version)
  {}

  lemma OtherTurnKeeps(other: World, own: World, b: Both, e: Event)
    requires Shared(other, own, b) && Inv(own, b.others, b.own)
    ensures var t := TakeTurn(other, own, b, Other(e)); Inv(own, t.others, t.own)
  {
    StepInserts(other, b.other, e);
    if Step(other, b.other, e).store != b.other.store {
      OthersKeep(own, b.others, b.own, b.other.rows, Token(other.topic, b.other.offsets));
    }
  }

  /** One's own protocol invariant holds over every interleaving in which none of one's commits is swallowed. */
  lemma {:induction false} RunBothKeeps(other: World, own: World, from: Both, turns: seq<Turn>)
    requires Ready(other, own, from) && NoneSwallowed(other, own, from, turns)
    ensures var b := RunBoth(other, own, from, turns); Inv(own, b.others, b.own)
  {
    hide Inv, Shared;
    if turns != [] {
      var front, last := turns[..|turns| - 1], turns[|turns| - 1];
      var b := RunBoth(other, own, from, front);
      RunBothKeeps(other, own, from, front);
      RunShares(other, own, from, front);
      match last
      case Other(e) => OtherTurnKeeps(other, own, b, e);
      case Own(e) => StepKeeps(own, b.others, b.own, e);
    }
  }

  lemma TurnKeepsLost(other: World, own: World, b: Both, t: Turn, r: SpanRow)
    requires other.codec.version != own.codec.version && Shared(other, own, b)
    requires Lost(own, b.own, b.others.tokens, r)
    ensures var after := TakeTurn(other, own, b, t); Lost(own, after.own, after.others.tokens, r)
  {
    match t
    case Other(e) =>
      StepInserts(other, b.other, e);
      if Step(other, b.other, e).store != b.other.store {
        OthersKeepLost(own, b.own, b.others.tokens, r, b.other.rows, other.codec.version, Token(other.topic, b.other.offsets));
      }
    case Own(e) => LostStaysLost(own, b.others, b.own, e, r);
  }

  lemma {:induction false} SwallowedLoses(other: World, own: World, from: Both, turns: seq<Turn>) returns (r: SpanRow)
    requires other.codec.version != own.codec.version && Shared(other, own, from)
    requires !NoneSwallowed(other, own, from, turns)
    ensures var b := RunBoth(other, own, from, turns); Lost(own, b.own, b.others.tokens, r)
  {
    hide Shared, Lost;
    var front, last := turns[..|turns| - 1], turns[|turns| - 1];
    var b := RunBoth(other, own, from, front);
    RunShares(other, own, from, front);
    if NoneSwallowed(other, own, from, front) {
      SharedOutline(other, own, b);
      r := SwallowedFlushLoses(own, b.others, b.own, last.event);
    } else {
      r := SwallowedLoses(other, own, from, front);
      TurnKeepsLost(other, own, b, last, r);
    }
  }

  lemma SharedOutline(other: World, own: World, b: Both)
    requires Shared(other, own, b)
    ensures Outline(own, b.others, b.own)
  {}

  // ---------------------------------------------------------------------- one's own

  ghost predicate OwnStored(own: World, b: Both) {
    && |b.own.committed| == |own.logs|
    && Stored(own, b.own.committed, b.own.store.table)
  }

  lemma LostNotStored(own: World, b: Both, r: SpanRow)
    requires Lost(own, b.own, b.others.tokens, r)
    ensures !OwnStored(own, b)
  {
    assert !MessageStored(own, r.partition, r.offset, b.own.store.table);
  }

  /** Beside any other normalizer of another version, in any interleaving and with crashes on both sides:
      every message one has committed has all its rows in the table if and only if none of one's commits was
      swallowed. */
  lemma OwnStoredExactly(other: World, own: World, from: Both, turns: seq<Turn>)
    requires other.codec.version != own.codec.version && Ready(other, own, from)
    ensures OwnStored(own, RunBoth(other, own, from, turns)) <==> NoneSwallowed(other, own, from, turns)
  {
    hide RunBoth, Shared, Lost, NoneSwallowed;
    if NoneSwallowed(other, own, from, turns) {
      RunBothKeeps(other, own, from, turns);
    } else {
      var r := SwallowedLoses(other, own, from, turns);
      LostNotStored(own, RunBoth(other, own, from, turns), r);
    }
  }

  // --------------------------------------------------------------------- the replay

  /** The live normalizer is wherever it is; the replay starts a consumer group of its own. */
  function ReplayStarts(fixed: World, now: State): Both {
    Both(now, Initial(fixed, now.store), now.store)
  }

  lemma ReplayReady(live: World, fixed: World, now: State)
    requires RowsHave(now.rows, live.codec.version)
    ensures Ready(live, fixed, ReplayStarts(fixed, now))
  {
    InitialInv(fixed, now.store);
  }

  /** With the live normalizer running beside it, a complete replay shows all its output exactly when none of
      its commits was swallowed, by a token from before it or taken by the live normalizer meanwhile. */
  lemma ReplayBesideExact(live: World, fixed: World, now: State, turns: seq<Turn>)
    requires live.codec.version < fixed.codec.version
    requires Older(now.store, fixed.codec.version) && RowsHave(now.rows, live.codec.version)
    requires Complete(fixed, RunBoth(live, fixed, ReplayStarts(fixed, now), turns).own)
    ensures (forall r :: LogRow(fixed, r) ==>
               r in LatestOf(RunBoth(live, fixed, ReplayStarts(fixed, now), turns).own.store.table, r.key)) <==>
      NoneSwallowed(live, fixed, ReplayStarts(fixed, now), turns)
  {
    hide RunBoth, NoneSwallowed, Lost;
    var from := ReplayStarts(fixed, now);
    var b := RunBoth(live, fixed, from, turns);
    ReplayReady(live, fixed, now);
    if NoneSwallowed(live, fixed, from, turns) {
      ReplayBesideShows(live, fixed, now, turns);
      forall r | LogRow(fixed, r) ensures r in LatestOf(b.own.store.table, r.key) {
        assert Produces(fixed, r.key);
      }
    } else {
      var r := SwallowedLoses(live, fixed, from, turns);
      LostNotShown(fixed, b, r);
    }
  }

  lemma LostNotShown(own: World, b: Both, r: SpanRow)
    requires Lost(own, b.own, b.others.tokens, r)
    ensures LogRow(own, r) && r !in LatestOf(b.own.store.table, r.key)
  {}

  /** Such a replay shows its own output for every span it produces, and for every other span what was
      stored before it or inserted by the live normalizer since. */
  lemma ReplayBesideShows(live: World, fixed: World, now: State, turns: seq<Turn>)
    requires live.codec.version < fixed.codec.version
    requires Older(now.store, fixed.codec.version) && RowsHave(now.rows, live.codec.version)
    requires Complete(fixed, RunBoth(live, fixed, ReplayStarts(fixed, now), turns).own)
    requires NoneSwallowed(live, fixed, ReplayStarts(fixed, now), turns)
    ensures var b := RunBoth(live, fixed, ReplayStarts(fixed, now), turns);
      ShownOver(fixed, b.others.table, b.own.store.table)
  {
    hide RunBoth, NoneSwallowed, Ready, Inv;
    var from := ReplayStarts(fixed, now);
    var b := RunBoth(live, fixed, from, turns);
    ReplayReady(live, fixed, now);
    ReadyShares(live, fixed, from);
    OthersStayOlder(live, fixed, from, turns);
    RunBothKeeps(live, fixed, from, turns);
    NewerOutputShown(fixed, b.others, b.own);
  }

  lemma ReadyShares(other: World, own: World, from: Both)
    requires Ready(other, own, from)
    ensures Shared(other, own, from)
  {}

  // ------------------------------------------------------------- the live normalizer

  /** The same moment seen from the live normalizer, which has had the store to itself so far. */
  function LiveGoesOn(live: World, fixed: World, before: seq<Event>): Both {
    var now := Run(live, Initial(live, Store([], {})), before);
    Both(Initial(fixed, now.store), now, Store([], {}))
  }

  lemma LiveReady(live: World, fixed: World, before: seq<Event>)
    ensures Ready(fixed, live, LiveGoesOn(live, fixed, before))
  {
    hide Run;
    NoUsedTokensNoneSwallowed(live, Initial(live, Store([], {})), before);
    RunKeeps(live, Store([], {}), before);
  }

  /** While a replay runs, the live normalizer loses rows that it commits exactly when a commit of its own is
      taken for an insert of the replay's. */
  lemma LiveBesideExact(live: World, fixed: World, before: seq<Event>, turns: seq<Turn>)
    requires live.codec.version != fixed.codec.version
    ensures OwnStored(live, RunBoth(fixed, live, LiveGoesOn(live, fixed, before), turns)) <==>
      NoneSwallowed(fixed, live, LiveGoesOn(live, fixed, before), turns)
  {
    hide LiveGoesOn, Ready, OwnStored;
    LiveReady(live, fixed, before);
    OwnStoredExactly(fixed, live, LiveGoesOn(live, fixed, before), turns);
  }

  /** The one message of the log polled, nothing flushed. */
  function OnePolled(w: World, store: Store): State {
    State([1], [0], MessageRows(w, 0, 0), map[0 := Bounds(0, 0)], store, MessageDead(w, 0, 0), false)
  }

  lemma PollsOne(w: World, store: Store)
    requires |w.logs| == 1 && |w.logs[0]| == 1
    ensures Step(w, Initial(w, store), Deliver(0)) == OnePolled(w, store)
  {
    hide MessageRows, MessageDead;
    assert [] + MessageRows(w, 0, 0) == MessageRows(w, 0, 0) && [] + MessageDead(w, 0, 0) == MessageDead(w, 0, 0);
    assert [0][0 := 1] == [1];
  }

  lemma FlushesOne(w: World, store: Store)
    ensures var t := Step(w, OnePolled(w, store), Flush(Done));
      t.store == Insert(store, MessageRows(w, 0, 0), Token(w.topic, map[0 := Bounds(0, 0)])) && t.committed == [1]
  {
    hide MessageRows, MessageDead, Insert, Token;
    assert map[0 := Bounds(0, 0)][0] == Bounds(0, 0);
  }

  /** The live normalizer has polled a message when the replay, batching it alone as well, is done with it:
      the live rows never reach the table, though their offset is committed. */
  lemma LiveSwallowed(live: World, fixed: World, message: Payload)
    requires live.topic == fixed.topic && live.logs == fixed.logs == [[message]]
    requires live.codec.version < fixed.codec.version
    requires MessageRows(live, 0, 0) != [] && MessageRows(fixed, 0, 0) != []
    ensures var turns := [Own(Deliver(0)), Other(Deliver(0)), Other(Flush(Done)), Own(Flush(Done))];
      var b := RunBoth(fixed, live, LiveGoesOn(live, fixed, []), turns);
      && b.own.committed == [1] && b.own.store.table == MessageRows(fixed, 0, 0)
      && forall r :: r in MessageRows(live, 0, 0) ==> r !in b.own.store.table
  {
    hide MessageRows, MessageDead, Step, RunBoth, Token, Joined;
    var empty, b0 := Store([], {}), LiveGoesOn(live, fixed, []);
    var taken := Insert(empty, MessageRows(fixed, 0, 0), Token(live.topic, map[0 := Bounds(0, 0)]));
    assert b0 == Both(Initial(fixed, empty), Initial(live, empty), empty);
    PollsOne(live, empty);
    PollsOne(fixed, empty);
    FlushesOne(fixed, empty);
    FlushesOne(live, taken);
    var t1 := [Own(Deliver(0))];
    var t2 := t1 + [Other(Deliver(0))];
    var t3 := t2 + [Other(Flush(Done))];
    assert [] + t1 == t1;
    assert t3 + [Own(Flush(Done))] == [Own(Deliver(0)), Other(Deliver(0)), Other(Flush(Done)), Own(Flush(Done))];
    NoTurns(fixed, live, b0);
    TurnOn(fixed, live, b0, [], Own(Deliver(0)));
    TurnOn(fixed, live, b0, t1, Other(Deliver(0)));
    TurnOn(fixed, live, b0, t2, Other(Flush(Done)));
    TurnOn(fixed, live, b0, t3, Own(Flush(Done)));
    assert RunBoth(fixed, live, b0, t2).own == OnePolled(live, empty) && RunBoth(fixed, live, b0, t2).other == OnePolled(fixed, empty);
    assert RunBoth(fixed, live, b0, t3).own == OnePolled(live, taken);
    forall r | r in MessageRows(live, 0, 0) ensures r !in MessageRows(fixed, 0, 0) { VersionsApart(live, fixed, r); }
  }

  lemma NoTurns(other: World, own: World, from: Both)
    ensures RunBoth(other, own, from, []) == from
  {}

  lemma TurnOn(other: World, own: World, from: Both, turns: seq<Turn>, t: Turn)
    ensures RunBoth(other, own, from, turns + [t]) == TakeTurn(other, own, RunBoth(other, own, from, turns), t)
  {
    assert (turns + [t])[..|turns|] == turns;
  }

  lemma VersionsApart(live: World, fixed: World, r: SpanRow)
    requires live.codec.version < fixed.codec.version && r in MessageRows(live, 0, 0)
    ensures r !in MessageRows(fixed, 0, 0)
  {
    MessageRowPosition(live, 0, 0, r);
    if r in MessageRows(fixed, 0, 0) {
      MessageRowPosition(fixed, 0, 0, r);
      assert false;
    }
  }

  // -------------------------------------------------------------- nobody's rows at all

  /** Each group's batch is its open window. */
  ghost predicate Batching(w: World, s: State) {
    Shaped(w, s) && Windowed(w, s) && multiset(s.rows) == WindowRows(w, s.offsets, |w.logs|)
  }

  ghost predicate EitherWindow(a: World, b: World, ranges: Ranges, table: seq<SpanRow>) {
    WindowStored(a, ranges, table) || WindowStored(b, ranges, table)
  }

  /** Every token stands for rows in the table, of one normalizer or of the other. */
  ghost predicate EitherHonest(a: World, b: World, store: Store) {
    forall ranges | Token(a.topic, ranges) in store.tokens :: EitherWindow(a, b, ranges, store.table)
  }

  ghost predicate EitherMessage(a: World, b: World, p: nat, o: nat, table: seq<SpanRow>) {
    MessageStored(a, p, o, table) || MessageStored(b, p, o, table)
  }

  ghost predicate EitherStored(a: World, b: World, upTo: seq<nat>, table: seq<SpanRow>) {
    forall p, o :: 0 <= p < |upTo| && 0 <= o < upTo[p] ==> EitherMessage(a, b, p, o, table)
  }

  ghost predicate SameLog(a: World, b: World) {
    a.topic == b.topic && a.logs == b.logs
  }

  lemma StepKeepsBatching(w: World, s: State, e: Event)
    requires Batching(w, s)
    ensures Batching(w, Step(w, s, e))
  {
    hide Step, Shaped, Windowed;
    StepKeepsOutline(w, s.store, s, e);
  }

  lemma MoreEither(a: World, b: World, upTo: seq<nat>, table: seq<SpanRow>, more: seq<SpanRow>)
    requires EitherStored(a, b, upTo, table) && forall r :: r in table ==> r in more
    ensures EitherStored(a, b, upTo, more)
  {
    forall p, o | 0 <= p < |upTo| && 0 <= o < upTo[p] ensures EitherMessage(a, b, p, o, more) {
      assert EitherMessage(a, b, p, o, table);
    }
  }

  /** Whoever inserts, and whether the store takes it or not, the window then has someone's rows. */
  lemma InsertIsHonest(a: World, b: World, w: World, store: Store, s: State)
    requires SameLog(a, b) && (w == a || w == b) && Batching(w, s) && EitherHonest(a, b, store)
    ensures var after := Insert(store, s.rows, Token(w.topic, s.offsets));
      EitherHonest(a, b, after) && EitherWindow(a, b, s.offsets, after.table)
  {
    hide Shaped, Windowed, WindowRows, Token;
    var token := Token(w.topic, s.offsets);
    var after := Insert(store, s.rows, token);
    forall r | r in WindowRows(w, s.offsets, |w.logs|) ensures r in s.rows { assert r in multiset(s.rows); }
    forall ranges | Token(a.topic, ranges) in after.tokens ensures EitherWindow(a, b, ranges, after.table) {
      if Token(a.topic, ranges) == token && token !in store.tokens {
        TokenInjective(a.topic, ranges, s.offsets);
        assert WindowStored(w, ranges, after.table);
      } else {
        assert EitherWindow(a, b, ranges, store.table);
      }
    }
    if s.rows == [] || token !in store.tokens {
      assert WindowStored(w, s.offsets, after.table);
    }
  }

  lemma CommitEither(a: World, b: World, w: World, s: State, table: seq<SpanRow>)
    requires SameLog(a, b) && (w == a || w == b) && Shaped(w, s) && Windowed(w, s)
    requires EitherStored(a, b, s.committed, table) && EitherWindow(a, b, s.offsets, table)
    ensures EitherStored(a, b, s.position, table)
  {
    forall p, o | 0 <= p < |s.position| && 0 <= o < s.position[p] ensures EitherMessage(a, b, p, o, table) {
      if o < s.committed[p] {
        assert EitherMessage(a, b, p, o, table);
      } else {
        var x := if WindowStored(a, s.offsets, table) then a else b;
        forall r | r in MessageRows(x, p, o) ensures r in table { InWindow(x, s.offsets, |x.logs|, p, o, r); }
        assert MessageStored(x, p, o, table);
      }
    }
  }

  /** Of one normalizer's step: what it leaves in the store and what it commits. */
  lemma StepEither(a: World, b: World, w: World, s: State, e: Event)
    requires SameLog(a, b) && (w == a || w == b) && Batching(w, s)
    requires EitherHonest(a, b, s.store) && EitherStored(a, b, s.committed, s.store.table)
    ensures var t := Step(w, s, e);
      && Batching(w, t) && EitherHonest(a, b, t.store) && EitherStored(a, b, t.committed, t.store.table)
      && forall r :: r in s.store.table ==> r in t.store.table
  {
    hide Batching, EitherHonest, EitherStored, EitherWindow, Token;
    StepKeepsBatching(w, s, e);
    if e.Flush? && s.offsets != map[] {
      var after := Insert(s.store, s.rows, Token(w.topic, s.offsets));
      InsertIsHonest(a, b, w, s.store, s);
      BatchIsWindow(w, s);
      MoreEither(a, b, s.committed, s.store.table, after.table);
      CommitEither(a, b, w, s, after.table);
    }
  }

  lemma BatchIsWindow(w: World, s: State)
    requires Batching(w, s)
    ensures Shaped(w, s) && Windowed(w, s)
  {}

  ghost predicate EitherAlong(other: World, own: World, b: Both) {
    && b.other.store == b.own.store && Batching(other, b.other) && Batching(own, b.own)
    && EitherHonest(other, own, b.own.store)
    && EitherStored(other, own, b.other.committed, b.own.store.table)
    && EitherStored(other, own, b.own.committed, b.own.store.table)
  }

  lemma BatchingApart(w: World, s: State, store: Store)
    requires Batching(w, s)
    ensures Batching(w, s.(store := store))
  {}

  lemma TurnEither(other: World, own: World, b: Both, t: Turn)
    requires SameLog(other, own) && EitherAlong(other, own, b)
    ensures EitherAlong(other, own, TakeTurn(other, own, b, t))
  {
    hide EitherHonest, EitherStored, Step, Batching, SameLog, Joined;
    match t
    case Other(e) =>
      var after := Step(other, b.other, e);
      StepEither(other, own, other, b.other, e);
      BatchingApart(own, b.own, after.store);
      MoreEither(other, own, b.own.committed, b.own.store.table, after.store.table);
    case Own(e) =>
      var after := Step(own, b.own, e);
      StepEither(other, own, own, b.own, e);
      BatchingApart(other, b.other, after.store);
      MoreEither(other, own, b.other.committed, b.own.store.table, after.store.table);
  }

  lemma {:induction false} RunEither(other: World, own: World, from: Both, turns: seq<Turn>)
    requires SameLog(other, own) && EitherAlong(other, own, from)
    ensures EitherAlong(other, own, RunBoth(other, own, from, turns))
  {
    hide EitherAlong;
    if turns != [] {
      RunEither(other, own, from, turns[..|turns| - 1]);
      TurnEither(other, own, RunBoth(other, own, from, turns[..|turns| - 1]), turns[|turns| - 1]);
    }
  }

  lemma StartsEither(live: World, fixed: World, before: seq<Event>)
    requires SameLog(live, fixed)
    ensures EitherAlong(live, fixed, ReplayStarts(fixed, Run(live, Initial(live, Store([], {})), before)))
  {
    hide Run;
    var now := Run(live, Initial(live, Store([], {})), before);
    NoUsedTokensNoneSwallowed(live, Initial(live, Store([], {})), before);
    RunKeeps(live, Store([], {}), before);
    InitialInv(fixed, now.store);
    forall ranges | Token(live.topic, ranges) in now.store.tokens ensures EitherWindow(live, fixed, ranges, now.store.table) {
      assert WindowStored(live, ranges, now.store.table);
    }
    forall p, o | 0 <= p < |now.committed| && 0 <= o < now.committed[p] ensures EitherMessage(live, fixed, p, o, now.store.table) {
      assert MessageStored(live, p, o, now.store.table);
    }
  }

  /** Whatever is swallowed on either side, no committed message is left without rows: each message that
      the live group or the replay's has committed has all rows of the live normalizer, or all of the replay's. */
  lemma CommittedHasSomeonesRows(live: World, fixed: World, before: seq<Event>, turns: seq<Turn>, p: nat, o: nat)
    requires SameLog(live, fixed)
    ensures var from := ReplayStarts(fixed, Run(live, Initial(live, Store([], {})), before));
      var b := RunBoth(live, fixed, from, turns);
      (p < |b.other.committed| && o < b.other.committed[p]) || (p < |b.own.committed| && o < b.own.committed[p]) ==>
        MessageStored(live, p, o, b.own.store.table) || MessageStored(fixed, p, o, b.own.store.table)
  {
    hide Run, RunBoth;
    var from := ReplayStarts(fixed, Run(live, Initial(live, Store([], {})), before));
    StartsEither(live, fixed, before);
    RunEither(live, fixed, from, turns);
    var b := RunBoth(live, fixed, from, turns);
    assert EitherStored(live, fixed, b.other.committed, b.own.store.table);
    if p < |b.other.committed| && o < b.other.committed[p] { assert EitherMessage(live, fixed, p, o, b.own.store.table); }
    if p < |b.own.committed| && o < b.own.committed[p] { assert EitherMessage(live, fixed, p, o, b.own.store.table); }
  }
}
