// `_order_tree`: an explicit-stack walk with a cycle guard, and the tree order it produces.
module TraceOrder {
  import opened Text
  import opened TraceTree

  // --------------------------------------------------------- the walk as a function

  function Ids(spans: seq<Span>): set<string> {
    set s | s in spans :: s.id
  }

  function PlaceAll(spans: seq<Span>, depth: nat): seq<Placed> {
    if spans == [] then [] else [Placed(spans[0], depth)] + PlaceAll(spans[1..], depth)
  }

  function Reversed(placed: seq<Placed>): seq<Placed> {
    if placed == [] then [] else Reversed(placed[1..]) + [placed[0]]
  }

  ghost predicate FromTrace(spans: seq<Span>, placed: seq<Placed>) {
    forall e :: e in placed ==> e.span in spans
  }

  lemma {:induction false} PushedFromTrace(spans: seq<Span>, kids: seq<Span>, depth: nat)
    requires forall c :: c in kids ==> c in spans
    ensures FromTrace(spans, Reversed(PlaceAll(kids, depth)))
  {
    if kids != [] {
      PushedFromTrace(spans, kids[1..], depth);
      assert PlaceAll(kids, depth)[1..] == PlaceAll(kids[1..], depth);
    }
  }

  /** How many span ids the walk has not met. */
  ghost function Unmet(spans: seq<Span>, seen: set<string>): nat {
    |Ids(spans) - seen|
  }

  lemma MeetingShrinks(spans: seq<Span>, seen: set<string>, s: Span)
    requires s in spans && s.id !in seen
    ensures Unmet(spans, seen + {s.id}) < Unmet(spans, seen)
  {
    assert s.id in Ids(spans);
    assert Ids(spans) - (seen + {s.id}) == (Ids(spans) - seen) - {s.id};
  }

  /** What visiting a span pushes: its children, last one first. */
  function Pushed(spans: seq<Span>, top: Placed): seq<Placed> {
    Reversed(PlaceAll(Kids(spans, top.span.id), top.depth + 1))
  }

  lemma PushedIsFromTrace(spans: seq<Span>, top: Placed)
    ensures FromTrace(spans, Pushed(spans, top))
  {
    KidsMembers(spans, top.span.id);
    PushedFromTrace(spans, Kids(spans, top.span.id), top.depth + 1);
  }

  /** What the loop appends from here on; the stack's top is its last element. */
  ghost function Walk(spans: seq<Span>, stack: seq<Placed>, seen: set<string>): seq<Placed>
    requires FromTrace(spans, stack)
    decreases Unmet(spans, seen), |stack|
  {
    if stack == [] then []
    else
      var rest, top := stack[..|stack| - 1], stack[|stack| - 1];
      assert top in stack;
      if top.span.id in seen then Walk(spans, rest, seen)
      else
        PushedIsFromTrace(spans, top);
        MeetingShrinks(spans, seen, top.span);
        [top] + Walk(spans, rest + Pushed(spans, top), seen + {top.span.id})
  }

  function Unseen(spans: seq<Span>, seen: set<string>): seq<Span> {
    if spans == [] then []
    else
      var front, last := Unseen(spans[..|spans| - 1], seen), spans[|spans| - 1];
      if last.id in seen then front else front + [last]
  }

  ghost function SeenIn(placed: seq<Placed>): set<string> {
    set e | e in placed :: e.span.id
  }

  ghost function Reached(spans: seq<Span>, root: Option<Span>): seq<Placed>
    requires root.Some? ==> root.value in spans
  {
    match root
    case None => []
    case Some(r) => Walk(spans, [Placed(r, 0)], {})
  }

  /** Spans the root does not lead to, in start order. They keep the default depth 0. */
  ghost function Leftover(spans: seq<Span>, root: Option<Span>): seq<Placed>
    requires root.Some? ==> root.value in spans
  {
    PlaceAll(ByStart(Unseen(spans, SeenIn(Reached(spans, root)))), 0)
  }

  ghost function Ordered(spans: seq<Span>, root: Option<Span>): seq<Placed>
    requires root.Some? ==> root.value in spans
  {
    Reached(spans, root) + Leftover(spans, root)
  }

  lemma WalkEmpty(spans: seq<Span>, seen: set<string>)
    ensures Walk(spans, [], seen) == []
  {}

  lemma WalkStep(spans: seq<Span>, rest: seq<Placed>, top: Placed, seen: set<string>)
    requires FromTrace(spans, rest) && top.span in spans
    ensures FromTrace(spans, Pushed(spans, top))
    ensures Walk(spans, rest + [top], seen) ==
      if top.span.id in seen then Walk(spans, rest, seen)
      else [top] + Walk(spans, rest + Pushed(spans, top), seen + {top.span.id})
  {
    hide Pushed;
    PushedIsFromTrace(spans, top);
    assert (rest + [top])[..|rest|] == rest;
  }

  // ----------------------------------------------------- whatever the parent links

  lemma {:induction false} WalkPlacesOnce(spans: seq<Span>, stack: seq<Placed>, seen: set<string>)
    requires FromTrace(spans, stack)
    ensures Distinct(Walk(spans, stack, seen)) && FromTrace(spans, Walk(spans, stack, seen))
    ensures forall e :: e in Walk(spans, stack, seen) ==> e.span.id !in seen
    decreases Unmet(spans, seen), |stack|
  {
    hide Walk, Pushed, Unmet;
    if stack == [] {
      WalkEmpty(spans, seen);
    } else {
      var rest, top := stack[..|stack| - 1], stack[|stack| - 1];
      assert stack == rest + [top] && top in stack;
      WalkStep(spans, rest, top, seen);
      if top.span.id in seen {
        WalkPlacesOnce(spans, rest, seen);
      } else {
        MeetingShrinks(spans, seen, top.span);
        WalkPlacesOnce(spans, rest + Pushed(spans, top), seen + {top.span.id});
        DistinctConcat([top], Walk(spans, rest + Pushed(spans, top), seen + {top.span.id}));
      }
    }
  }

  lemma {:induction false} UnseenMembers(spans: seq<Span>, seen: set<string>)
    ensures forall s :: s in Unseen(spans, seen) <==> s in spans && s.id !in seen
    ensures UniqueIds(spans) ==> UniqueIds(Unseen(spans, seen))
  {
    if spans != [] {
      var front, last := spans[..|spans| - 1], spans[|spans| - 1];
      UnseenMembers(front, seen);
      assert spans == front + [last];
    }
  }

  ghost function SpansOf(placed: seq<Placed>): seq<Span> {
    seq(|placed|, i requires 0 <= i < |placed| => placed[i].span)
  }

  lemma {:induction false} PlaceAllSpans(spans: seq<Span>, depth: nat)
    ensures SpansOf(PlaceAll(spans, depth)) == spans
    ensures forall e :: e in PlaceAll(spans, depth) ==> e.depth == depth && e.span in spans
  {
    if spans != [] {
      PlaceAllSpans(spans[1..], depth);
      assert SpansOf(PlaceAll(spans, depth)) == [spans[0]] + SpansOf(PlaceAll(spans[1..], depth));
    }
  }

  lemma SameMembersSameCounts(a: seq<Span>, b: seq<Span>)
    requires UniqueIds(a) && UniqueIds(b) && forall s :: s in a <==> s in b
    ensures multiset(a) == multiset(b)
  {
    forall s ensures multiset(a)[s] == multiset(b)[s] {
      UniqueCounts(a, s);
      UniqueCounts(b, s);
      assert s in a <==> s in multiset(a);
      assert s in b <==> s in multiset(b);
    }
  }

  lemma PermutedIdsUnique(a: seq<Span>, b: seq<Span>)
    requires UniqueIds(a) && multiset(a) == multiset(b)
    ensures UniqueIds(b)
  {
    forall s ensures multiset(b)[s] <= 1 {
      UniqueCounts(a, s);
    }
    DistinctFromCounts(b);
    forall i, j | 0 <= i < j < |b| ensures b[i].id != b[j].id {
      assert b[i] in multiset(a) && b[j] in multiset(a);
      assert b[i] in a && b[j] in a;
    }
  }

  lemma LeftoverSpans(spans: seq<Span>, root: Option<Span>)
    requires root.Some? ==> root.value in spans
    ensures var rest := SpansOf(Leftover(spans, root));
      && Ascending(rest)
      && (forall s :: s in rest <==> s in spans && s.id !in SeenIn(Reached(spans, root)))
      && (UniqueIds(spans) ==> UniqueIds(rest))
  {
    hide Reached, ByStart, Unseen;
    var unseen := Unseen(spans, SeenIn(Reached(spans, root)));
    UnseenMembers(spans, SeenIn(Reached(spans, root)));
    ByStartSorts(unseen, 0);
    PlaceAllSpans(ByStart(unseen), 0);
    forall s ensures s in ByStart(unseen) <==> s in unseen {
      assert s in multiset(ByStart(unseen)) <==> s in multiset(unseen);
    }
    if UniqueIds(spans) {
      PermutedIdsUnique(unseen, ByStart(unseen));
    }
  }

  lemma ReachedSpans(spans: seq<Span>, root: Option<Span>)
    requires UniqueIds(spans) && (root.Some? ==> root.value in spans)
    ensures var a := SpansOf(Reached(spans, root));
      UniqueIds(a) && forall s :: s in a <==> s in spans && s.id in SeenIn(Reached(spans, root))
  {
    hide Walk;
    var reached := Reached(spans, root);
    var a := SpansOf(reached);
    if root.Some? {
      WalkPlacesOnce(spans, [Placed(root.value, 0)], {});
    }
    forall s | s in a ensures s in spans && s.id in SeenIn(reached) {
      var i :| 0 <= i < |a| && a[i] == s;
      assert reached[i] in reached;
    }
    forall s | s in spans && s.id in SeenIn(reached) ensures s in a {
      var e :| e in reached && e.span.id == s.id;
      var i :| 0 <= i < |reached| && reached[i] == e;
      assert a[i] == e.span;
      SameIdSameSpan(spans, s, e.span);
    }
  }

  lemma UniqueConcat(a: seq<Span>, b: seq<Span>)
    requires UniqueIds(a) && UniqueIds(b) && forall x, y :: x in a && y in b ==> x.id != y.id
    ensures UniqueIds(a + b)
  {
    var all := a + b;
    forall i, j | 0 <= i < j < |all| ensures all[i].id != all[j].id {
      if i < |a| <= j { assert a[i] in a && b[j - |a|] in b; }
    }
  }

  /** With any parent links at all, cycles included, every span is shown exactly once. */
  lemma OrderIsPermutation(spans: seq<Span>, root: Option<Span>)
    requires UniqueIds(spans) && (root.Some? ==> root.value in spans)
    ensures multiset(SpansOf(Ordered(spans, root))) == multiset(spans)
  {
    hide Reached, Leftover, UniqueIds;
    var a, b := SpansOf(Reached(spans, root)), SpansOf(Leftover(spans, root));
    ReachedSpans(spans, root);
    LeftoverSpans(spans, root);
    assert SpansOf(Ordered(spans, root)) == a + b;
    UniqueConcat(a, b);
    SameMembersSameCounts(a + b, spans);
  }

  // -------------------------------------------------- below a span with no parent

  ghost function Flatten(spans: seq<Span>, stack: seq<Placed>): seq<Placed> {
    if stack == [] then []
    else Tree(spans, stack[|stack| - 1].span, stack[|stack| - 1].depth) + Flatten(spans, stack[..|stack| - 1])
  }

  lemma FlattenPush(spans: seq<Span>, lower: seq<Placed>, e: Placed)
    ensures Flatten(spans, lower + [e]) == Tree(spans, e.span, e.depth) + Flatten(spans, lower)
  {
    hide Tree;
    assert (lower + [e])[..|lower|] == lower;
  }

  lemma PushedCons(kids: seq<Span>, depth: nat)
    requires kids != []
    ensures Reversed(PlaceAll(kids, depth)) == Reversed(PlaceAll(kids[1..], depth)) + [Placed(kids[0], depth)]
  {
    assert PlaceAll(kids, depth)[1..] == PlaceAll(kids[1..], depth);
  }

  lemma {:induction false} FlattenPushed(spans: seq<Span>, rest: seq<Placed>, kids: seq<Span>, depth: nat)
    ensures Flatten(spans, rest + Reversed(PlaceAll(kids, depth))) == Forest(spans, kids, depth) + Flatten(spans, rest)
  {
    hide Tree, Flatten;
    if kids == [] {
      assert rest + [] == rest;
    } else {
      hide PlaceAll, Reversed;
      var upper := Reversed(PlaceAll(kids[1..], depth));
      FlattenPushed(spans, rest, kids[1..], depth);
      PushedCons(kids, depth);
      assert rest + (upper + [Placed(kids[0], depth)]) == (rest + upper) + [Placed(kids[0], depth)];
      FlattenPush(spans, rest + upper, Placed(kids[0], depth));
    }
  }

  lemma {:induction false} PlaceAllMembers(kids: seq<Span>, depth: nat)
    ensures forall e :: e in Reversed(PlaceAll(kids, depth)) ==> e.span in kids && e.depth == depth
  {
    if kids != [] {
      PlaceAllMembers(kids[1..], depth);
      assert PlaceAll(kids, depth)[1..] == PlaceAll(kids[1..], depth);
    }
  }

  /** The guard never fires: what remains of the walk is the stack's subtrees, top first. */
  lemma {:induction false} WalkIsFlatten(spans: seq<Span>, root: Span, done: seq<Placed>, stack: seq<Placed>)
    requires IsTop(spans, root) && FromTrace(spans, stack)
    requires forall e :: e in stack ==> At(spans, root, e.span, e.depth)
    requires done + Flatten(spans, stack) == Tree(spans, root, 0)
    ensures Walk(spans, stack, SeenIn(done)) == Flatten(spans, stack)
    decreases |Tree(spans, root, 0)| - |done|, |stack|
  {
    hide Kids, Find, Reversed, PlaceAll, Forest, Tree, Up, Walk, Flatten;
    if stack == [] {
      WalkEmpty(spans, SeenIn(done));
      FlattenEmpty(spans);
    } else {
      var rest, top := stack[..|stack| - 1], stack[|stack| - 1];
      var kids := Kids(spans, top.span.id);
      assert stack == rest + [top] && top in stack;
      var b, a := SubtreeContiguous(spans, root, top.span, top.depth);
      UpZero(spans, root);
      TreeDistinct(spans, root, root, 0);
      var more := rest + Pushed(spans, top);
      FlattenPush(spans, rest, top);
      FlattenPushed(spans, rest, kids, top.depth + 1);
      assert Flatten(spans, stack) == [top] + Flatten(spans, more);
      assert done + ([top] + Flatten(spans, more)) == (done + [top]) + Flatten(spans, more);
      NotYetSeen(Tree(spans, root, 0), done, top, Flatten(spans, more));
      PlaceAllMembers(kids, top.depth + 1);
      WalkStep(spans, rest, top, SeenIn(done));
      forall e | e in more ensures At(spans, root, e.span, e.depth) {
        if e !in rest {
          KidDepth(spans, root, top.span, top.depth, e.span);
        }
      }
      WalkIsFlatten(spans, root, done + [top], more);
      SeenAppend(done, top);
    }
  }

  lemma FlattenEmpty(spans: seq<Span>)
    ensures Flatten(spans, []) == []
  {}

  lemma NotYetSeen(all: seq<Placed>, done: seq<Placed>, top: Placed, rest: seq<Placed>)
    requires all == done + [top] + rest && Distinct(all)
    ensures top.span.id !in SeenIn(done)
  {
    assert all[|done|] == top;
    forall e | e in done ensures e.span.id != top.span.id {
      var i :| 0 <= i < |done| && done[i] == e;
      assert all[i] == e;
    }
  }

  /** From a span whose parent the trace lacks, the walk is exactly the recursive preorder. */
  lemma ReachedIsPreorder(spans: seq<Span>, root: Span)
    requires IsTop(spans, root)
    ensures Reached(spans, Some(root)) == Tree(spans, root, 0)
  {
    hide Tree, Find, Up;
    var stack := [Placed(root, 0)];
    UpZero(spans, root);
    assert stack[..0] == [] && Flatten(spans, []) == [];
    assert Flatten(spans, stack) == Tree(spans, root, 0);
    assert SeenIn([]) == {} && [] + Flatten(spans, stack) == Tree(spans, root, 0);
    WalkIsFlatten(spans, root, [], stack);
  }

  // -------------------------------------------------------------------- the root

  ghost predicate Orphan(spans: seq<Span>, s: Span) {
    s.parent == "" || s.parent !in Ids(spans)
  }

  /** Among the first n spans, the i-th is the earliest orphan, and the first of those that tie. */
  ghost predicate EarliestOrphan(spans: seq<Span>, n: nat, i: nat)
    requires n <= |spans|
  {
    && i < n && Orphan(spans, spans[i])
    && forall j :: 0 <= j < n && Orphan(spans, spans[j]) ==>
         spans[i].start <= spans[j].start && (j < i ==> spans[i].start < spans[j].start)
  }

  /** `_resolve_root`: the earliest span whose parent is absent, the first of several. */
  method ResolveRoot(spans: seq<Span>) returns (root: Option<Span>)
    ensures root.None? <==> forall s :: s in spans ==> !Orphan(spans, s)
    ensures root.Some? ==> exists i: nat :: EarliestOrphan(spans, |spans|, i) && spans[i] == root.value
  {
    var present: set<string> := {};
    for i := 0 to |spans|
      invariant present == Ids(spans[..i])
    {
      present := present + {spans[i].id};
      assert spans[..i + 1] == spans[..i] + [spans[i]];
    }
    assert spans[..|spans|] == spans;
    root := None;
    ghost var at: nat := 0;
    for i := 0 to |spans|
      invariant root.None? ==> forall j :: 0 <= j < i ==> !Orphan(spans, spans[j])
      invariant root.Some? ==> EarliestOrphan(spans, i, at) && spans[at] == root.value
    {
      if spans[i].parent == "" || spans[i].parent !in present {
        if root.None? || spans[i].start < root.value.start {
          root, at := Some(spans[i]), i;
        }
      }
    }
    if root.Some? {
      assert spans[at] in spans;
    }
  }

  lemma OrphanIsTop(spans: seq<Span>, s: Span)
    requires UniqueIds(spans) && s in spans && Orphan(spans, s)
    requires forall x :: x in spans ==> x.id != ""
    ensures IsTop(spans, s)
  {
    FindMember(spans, s.parent);
  }

  /** Without empty span ids a displayed trace is the preorder from its root, then the spans the root
      does not lead to in start order; ParentFirst, SubtreeContiguous and PlacedIffReachable say what
      that means row by row. */
  lemma TraceShape(spans: seq<Span>, root: Span)
    requires UniqueIds(spans) && root in spans && Orphan(spans, root)
    requires forall x :: x in spans ==> x.id != ""
    ensures Ordered(spans, Some(root)) == Tree(spans, root, 0) + Leftover(spans, Some(root))
    ensures Ascending(SpansOf(Leftover(spans, Some(root))))
    ensures forall s :: s in SpansOf(Leftover(spans, Some(root))) <==> s in spans && forall k :: !At(spans, root, s, k)
  {
    hide Leftover, Tree, Find;
    OrphanIsTop(spans, root);
    ReachedIsPreorder(spans, root);
    LeftoverSpans(spans, Some(root));
    var tree := Tree(spans, root, 0);
    forall s | s in spans ensures s.id !in SeenIn(tree) <==> forall k :: !At(spans, root, s, k) {
      if k: nat :| At(spans, root, s, k) {
        PlacedIffReachable(spans, root, s, k);
        assert Placed(s, k) in tree;
      } else if e :| e in tree && e.span.id == s.id {
        PlacedIffReachable(spans, root, e.span, e.depth);
        SameIdSameSpan(spans, e.span, s);
      }
    }
  }

  // ------------------------------------------------- when every parent is above its child

  /** Row `i` has its parent above it, one level up, if the trace has that parent. */
  ghost predicate BelowParent(spans: seq<Span>, placed: seq<Placed>, i: nat)
    requires i < |placed|
  {
    placed[i].span.parent in Ids(spans) ==>
      exists j :: 0 <= j < i && placed[j].span.id == placed[i].span.parent && placed[i].depth == placed[j].depth + 1
  }

  ghost predicate Hangs(spans: seq<Span>, root: Option<Span>, s: Span) {
    root.Some? && exists k :: At(spans, root.value, s, k)
  }

  lemma TreeRowsBelowParents(spans: seq<Span>, root: Span, rest: seq<Placed>, i: nat)
    requires IsTop(spans, root) && i < |Tree(spans, root, 0)|
    ensures BelowParent(spans, Tree(spans, root, 0) + rest, i)
  {
    hide Tree;
    var tree := Tree(spans, root, 0);
    if i == 0 {
      RootFirst(spans, root);
      FindMember(spans, root.parent);
    } else {
      var j := ParentFirst(spans, root, i);
      assert (tree + rest)[j] == tree[j];
    }
  }

  /** A span of the leftover rows with its parent in the trace has no parent one level up. */
  lemma LeftoverRowFails(spans: seq<Span>, root: Option<Span>, i: nat)
    requires root.Some? ==> root.value in spans
    requires |Reached(spans, root)| <= i < |Ordered(spans, root)|
    requires Ordered(spans, root)[i].span.parent in Ids(spans)
    ensures !BelowParent(spans, Ordered(spans, root), i)
  {
    hide Reached;
    var unseen := ByStart(Unseen(spans, SeenIn(Reached(spans, root))));
    PlaceAllSpans(unseen, 0);
    assert Ordered(spans, root)[i] in PlaceAll(unseen, 0);
  }

  /** With the root `_resolve_root` finds, and without empty ids, every span whose parent the trace has is
      shown below that parent, one level deeper, if and only if every such span hangs below the root. */
  lemma ParentsAboveExactly(spans: seq<Span>, root: Option<Span>)
    requires UniqueIds(spans) && forall x :: x in spans ==> x.id != ""
    requires if root.Some? then root.value in spans && Orphan(spans, root.value) else forall s :: s in spans ==> !Orphan(spans, s)
    ensures var shown := Ordered(spans, root);
      (forall i :: 0 <= i < |shown| ==> BelowParent(spans, shown, i)) <==>
        forall s :: s in spans && !Orphan(spans, s) ==> Hangs(spans, root, s)
  {
    hide Ordered, Reached, Tree, BelowParent, Leftover;
    var shown, split := Ordered(spans, root), |Reached(spans, root)|;
    ShownRows(spans, root);
    forall i | split <= i < |shown| && !Orphan(spans, shown[i].span) ensures !BelowParent(spans, shown, i) {
      LeftoverRowFails(spans, root, i);
    }
    forall i | split <= i < |shown| && Orphan(spans, shown[i].span) ensures BelowParent(spans, shown, i) {
      OrphanRow(spans, shown, i);
    }
    if s :| s in spans && !Orphan(spans, s) && !Hangs(spans, root, s) {
      var i :| split <= i < |shown| && shown[i].span == s;
      assert !BelowParent(spans, shown, i);
    }
  }

  lemma OrphanRow(spans: seq<Span>, placed: seq<Placed>, i: nat)
    requires i < |placed| && Orphan(spans, placed[i].span) && forall x :: x in spans ==> x.id != ""
    ensures BelowParent(spans, placed, i)
  {}

  /** The rows that hang below the root come first and are well placed; the others follow. */
  lemma ShownRows(spans: seq<Span>, root: Option<Span>)
    requires UniqueIds(spans) && forall x :: x in spans ==> x.id != ""
    requires root.Some? ==> root.value in spans && Orphan(spans, root.value)
    ensures var shown, split := Ordered(spans, root), |Reached(spans, root)|;
      && split <= |shown|
      && (forall i :: 0 <= i < split ==> BelowParent(spans, shown, i))
      && (forall i :: split <= i < |shown| ==> shown[i].span in spans && !Hangs(spans, root, shown[i].span))
      && (forall s :: s in spans && !Hangs(spans, root, s) ==> exists i :: split <= i < |shown| && shown[i].span == s)
  {
    hide Tree, BelowParent, Leftover, Reached, SpansOf, Hangs;
    var shown, split, left := Ordered(spans, root), |Reached(spans, root)|, Leftover(spans, root);
    LeftoverHangs(spans, root);
    LaterRows(Reached(spans, root), left);
    if root.Some? {
      OrphanIsTop(spans, root.value);
      ReachedIsPreorder(spans, root.value);
      forall i | 0 <= i < split ensures BelowParent(spans, shown, i) {
        TreeRowsBelowParents(spans, root.value, left, i);
      }
    } else {
      NothingReached(spans);
    }
  }

  lemma NothingReached(spans: seq<Span>)
    ensures Reached(spans, None) == []
  {}

  /** What is left over is exactly what does not hang below the root. */
  lemma LeftoverHangs(spans: seq<Span>, root: Option<Span>)
    requires UniqueIds(spans) && forall x :: x in spans ==> x.id != ""
    requires root.Some? ==> root.value in spans && Orphan(spans, root.value)
    ensures forall s :: s in SpansOf(Leftover(spans, root)) <==> s in spans && !Hangs(spans, root, s)
  {
    hide Tree, Leftover, Reached, SpansOf, UniqueIds, Orphan;
    LeftoverSpans(spans, root);
    if root.Some? {
      TraceShape(spans, root.value);
    } else {
      NothingReached(spans);
    }
  }

  lemma LaterRows(a: seq<Placed>, b: seq<Placed>)
    ensures forall i :: |a| <= i < |a + b| ==> (a + b)[i].span in SpansOf(b)
    ensures forall s :: s in SpansOf(b) ==> exists i :: |a| <= i < |a + b| && (a + b)[i].span == s
  {
    forall i | |a| <= i < |a + b| ensures (a + b)[i].span in SpansOf(b) {
      assert SpansOf(b)[i - |a|] == (a + b)[i].span;
    }
    forall s | s in SpansOf(b) ensures exists i :: |a| <= i < |a + b| && (a + b)[i].span == s {
      var k :| 0 <= k < |b| && SpansOf(b)[k] == s;
      assert (a + b)[|a| + k] == b[k];
    }
  }

  /** A child shown above its parent: two spans lack their parents, and what hangs below the later of them
      is listed by start time with it. */
  lemma ChildAboveParent()
    ensures var a, c, b := Span("1", "", 0, 9), Span("3", "2", 1, 1), Span("2", "9", 2, 3);
      && UniqueIds([a, c, b]) && Orphan([a, c, b], a) && Orphan([a, c, b], b)
      && Ordered([a, c, b], Some(a)) == [Placed(a, 0), Placed(c, 0), Placed(b, 0)]
  {
    hide Walk, WithParent, ByStart, PlaceAll, Reversed, Unseen;
    var a, c, b := Span("1", "", 0, 9), Span("3", "2", 1, 1), Span("2", "9", 2, 3);
    var spans, pa := [a, c, b], Placed(a, 0);
    ThreeKids(a, c, b, "1");
    NoPush(1);
    assert WithParent(spans, "1") == [] && Pushed(spans, pa) == [];
    hide Pushed;
    WalkStep(spans, [], pa, {});
    WalkEmpty(spans, {} + {"1"});
    assert [] + [pa] == [pa] && Reached(spans, Some(a)) == [pa];
    assert SeenIn([pa]) == {"1"} by { SeenCons(pa, []); assert [pa] + [] == [pa]; }
    TwoUnseen(a, c, b, {"1"});
    TwoPlaced(c, b);
    assert [pa] + [Placed(c, 0), Placed(b, 0)] == [pa, Placed(c, 0), Placed(b, 0)];
  }

  lemma TwoUnseen(a: Span, b: Span, c: Span, seen: set<string>)
    requires a.id in seen && b.id !in seen && c.id !in seen
    ensures Unseen([a, b, c], seen) == [b, c]
  {
    assert [a, b, c][..2] == [a, b] && [a, b][..1] == [a] && [a][..0] == [];
    assert Unseen([a], seen) == [];
    assert Unseen([a, b], seen) == Unseen([a], seen) + [b];
  }

  lemma TwoPlaced(a: Span, b: Span)
    requires a.start <= b.start
    ensures PlaceAll(ByStart([a, b]), 0) == [Placed(a, 0), Placed(b, 0)]
  {
    hide ByStart;
    TwoPushes(a, b, 0);
    assert [a, b][1..] == [b] && [b][1..] == [];
    assert PlaceAll([b], 0) == [Placed(b, 0)];
  }

  // --------------------------------------------------------------------- empty ids

  lemma {:induction false} WalkMeetsStack(spans: seq<Span>, stack: seq<Placed>, seen: set<string>)
    requires FromTrace(spans, stack)
    ensures forall e :: e in stack ==> e.span.id in seen + SeenIn(Walk(spans, stack, seen))
    decreases Unmet(spans, seen), |stack|
  {
    hide Walk, Pushed, Unmet;
    if stack != [] {
      var rest, top := stack[..|stack| - 1], stack[|stack| - 1];
      assert stack == rest + [top] && top in stack;
      WalkStep(spans, rest, top, seen);
      if top.span.id in seen {
        WalkMeetsStack(spans, rest, seen);
      } else {
        MeetingShrinks(spans, seen, top.span);
        var next, now := rest + Pushed(spans, top), seen + {top.span.id};
        WalkMeetsStack(spans, next, now);
        SeenCons(top, Walk(spans, next, now));
      }
    }
  }

  lemma SeenCons(e: Placed, placed: seq<Placed>)
    ensures SeenIn([e] + placed) == {e.span.id} + SeenIn(placed)
  {
    assert e in [e] + placed && forall x :: x in placed ==> x in [e] + placed;
  }

  lemma PushedKids(spans: seq<Span>, top: Placed)
    ensures forall e :: e in Pushed(spans, top) ==> e.span.parent == top.span.id
    ensures forall c :: c in spans && c.parent == top.span.id ==> exists e :: e in Pushed(spans, top) && e.span == c
  {
    hide Kids;
    KidsMembers(spans, top.span.id);
    PlacedReversed(Kids(spans, top.span.id), top.depth + 1);
    forall c | c in spans && c.parent == top.span.id ensures exists e :: e in Pushed(spans, top) && e.span == c {
      assert Placed(c, top.depth + 1) in Pushed(spans, top);
    }
  }

  lemma {:induction false} PlacedReversed(kids: seq<Span>, depth: nat)
    ensures forall e :: e in Reversed(PlaceAll(kids, depth)) <==> e.depth == depth && e.span in kids
  {
    if kids != [] {
      PlacedReversed(kids[1..], depth);
      assert PlaceAll(kids, depth)[1..] == PlaceAll(kids[1..], depth);
      assert kids == [kids[0]] + kids[1..];
    }
  }

  /** The walk leaves no child of a placed span behind. */
  lemma {:induction false} WalkIsClosed(spans: seq<Span>, stack: seq<Placed>, seen: set<string>, e: Placed, c: Span)
    requires FromTrace(spans, stack) && e in Walk(spans, stack, seen)
    requires c in spans && c.parent == e.span.id
    ensures c.id in seen + SeenIn(Walk(spans, stack, seen))
    decreases Unmet(spans, seen), |stack|
  {
    hide Walk, Pushed, Unmet;
    if stack == [] {
      WalkEmpty(spans, seen);
    } else {
      var rest, top := stack[..|stack| - 1], stack[|stack| - 1];
      assert stack == rest + [top] && top in stack;
      WalkStep(spans, rest, top, seen);
      if top.span.id in seen {
        WalkIsClosed(spans, rest, seen, e, c);
      } else {
        MeetingShrinks(spans, seen, top.span);
        var next, now := rest + Pushed(spans, top), seen + {top.span.id};
        SeenCons(top, Walk(spans, next, now));
        if e in Walk(spans, next, now) {
          WalkIsClosed(spans, next, now, e, c);
        } else {
          PushedKids(spans, top);
          WalkMeetsStack(spans, next, now);
          var x :| x in Pushed(spans, top) && x.span == c;
          assert x in next;
        }
      }
    }
  }

  /** A placed span was on the stack from the start, or its parent is placed. */
  lemma {:induction false} WalkHasParents(spans: seq<Span>, stack: seq<Placed>, seen: set<string>, e: Placed)
    requires FromTrace(spans, stack) && e in Walk(spans, stack, seen)
    ensures e in stack || e.span.parent in SeenIn(Walk(spans, stack, seen))
    decreases Unmet(spans, seen), |stack|
  {
    hide Walk, Pushed, Unmet;
    if stack == [] {
      WalkEmpty(spans, seen);
    } else {
      var rest, top := stack[..|stack| - 1], stack[|stack| - 1];
      assert stack == rest + [top] && top in stack;
      WalkStep(spans, rest, top, seen);
      if top.span.id in seen {
        WalkHasParents(spans, rest, seen, e);
      } else {
        MeetingShrinks(spans, seen, top.span);
        var next, now := rest + Pushed(spans, top), seen + {top.span.id};
        SeenCons(top, Walk(spans, next, now));
        if e in Walk(spans, next, now) {
          WalkHasParents(spans, next, now, e);
          PushedKids(spans, top);
        }
      }
    }
  }

  /** Whatever the parent links: no span but the root is placed with an empty parent, as a child of a span
      whose id is empty, if and only if no placed span has an empty id or only the root has no parent. */
  lemma NoAdoptionExactly(spans: seq<Span>, root: Span)
    requires UniqueIds(spans) && root in spans
    ensures var reached := Reached(spans, Some(root));
      (forall e :: e in reached && e.span.parent == "" ==> e.span == root) <==>
        (forall e :: e in reached ==> e.span.id != "") || (forall s :: s in spans && s.parent == "" ==> s == root)
  {
    hide Walk;
    var reached, stack := Reached(spans, Some(root)), [Placed(root, 0)];
    WalkPlacesOnce(spans, stack, {});
    if e :| e in reached && e.span.parent == "" && e.span != root {
      WalkHasParents(spans, stack, {}, e);
      var x :| x in reached && x.span.id == "";
      assert e.span in spans;
    }
    if e, s :| e in reached && e.span.id == "" && s in spans && s.parent == "" && s != root {
      WalkIsClosed(spans, stack, {}, e, s);
      var x :| x in reached && x.span.id == s.id;
      SameIdSameSpan(spans, x.span, s);
    }
  }

  // ------------------------------------------------------------------- the method

  /** Children by parent id, each list in stable start order. */
  method GroupByParent(spans: seq<Span>) returns (byParent: map<string, seq<Span>>)
    ensures forall id :: (if id in byParent then byParent[id] else []) == Kids(spans, id)
  {
    byParent := map[];
    for i := 0 to |spans|
      invariant forall id :: (if id in byParent then byParent[id] else []) == WithParent(spans[..i], id)
    {
      assert spans[..i + 1][..i] == spans[..i];
      var p := spans[i].parent;
      byParent := byParent[p := (if p in byParent then byParent[p] else []) + [spans[i]]];
    }
    assert spans[..|spans|] == spans;
    ghost var grouped := byParent;
    var todo := byParent.Keys;
    while todo != {}
      invariant todo <= byParent.Keys == grouped.Keys
      invariant forall id :: id in byParent ==> byParent[id] == if id in todo then grouped[id] else ByStart(grouped[id])
      decreases todo
    {
      var id :| id in todo;
      byParent := byParent[id := ByStart(byParent[id])];
      todo := todo - {id};
    }
    forall id ensures (if id in byParent then byParent[id] else []) == Kids(spans, id) {
      assert (if id in grouped then grouped[id] else []) == WithParent(spans, id);
    }
  }

  method WalkFrom(spans: seq<Span>, root: Span, byParent: map<string, seq<Span>>)
    returns (ordered: seq<Placed>, seen: set<string>)
    requires root in spans
    requires forall id :: (if id in byParent then byParent[id] else []) == Kids(spans, id)
    ensures ordered == Reached(spans, Some(root)) && seen == SeenIn(ordered)
  {
    hide Kids, Reversed, PlaceAll, Walk, Unmet, Pushed, FromTrace, SeenIn;
    ordered, seen := [], {};
    var stack := [Placed(root, 0)];
    WalkStarts(spans, root);
    while stack != []
      invariant FromTrace(spans, stack) && seen == SeenIn(ordered)
      invariant ordered + Walk(spans, stack, seen) == Reached(spans, Some(root))
      decreases Unmet(spans, seen), |stack|
    {
      var rest, top := stack[..|stack| - 1], stack[|stack| - 1];
      assert stack == rest + [top];
      FromTraceConcat(spans, rest, top);
      WalkStep(spans, rest, top, seen);
      stack := rest;
      if top.span.id !in seen {
        MeetingShrinks(spans, seen, top.span);
        SeenAppend(ordered, top);
        FromTracePushed(spans, rest, top);
        ghost var after := Walk(spans, rest + Pushed(spans, top), seen + {top.span.id});
        assert ordered + ([top] + after) == (ordered + [top]) + after;
        seen := seen + {top.span.id};
        ordered := ordered + [top];
        var kids := if top.span.id in byParent then byParent[top.span.id] else [];
        PushedIs(spans, top, kids);
        stack := rest + Reversed(PlaceAll(kids, top.depth + 1));
      }
    }
    WalkEmpty(spans, seen);
    assert ordered + [] == ordered;
  }

  lemma WalkStarts(spans: seq<Span>, root: Span)
    requires root in spans
    ensures FromTrace(spans, [Placed(root, 0)]) && SeenIn([]) == {}
    ensures [] + Walk(spans, [Placed(root, 0)], {}) == Reached(spans, Some(root))
  {
    hide Walk;
  }

  lemma FromTraceConcat(spans: seq<Span>, rest: seq<Placed>, top: Placed)
    ensures FromTrace(spans, rest + [top]) <==> FromTrace(spans, rest) && top.span in spans
  {
    assert top in rest + [top] && forall e :: e in rest ==> e in rest + [top];
  }

  lemma FromTracePushed(spans: seq<Span>, rest: seq<Placed>, top: Placed)
    requires FromTrace(spans, rest)
    ensures FromTrace(spans, rest + Pushed(spans, top))
  {
    hide Pushed;
    PushedIsFromTrace(spans, top);
  }

  lemma PushedIs(spans: seq<Span>, top: Placed, kids: seq<Span>)
    requires kids == Kids(spans, top.span.id)
    ensures Reversed(PlaceAll(kids, top.depth + 1)) == Pushed(spans, top)
  {}

  lemma SeenAppend(placed: seq<Placed>, e: Placed)
    ensures SeenIn(placed + [e]) == SeenIn(placed) + {e.span.id}
  {
    assert e in placed + [e];
  }

  method OrderTree(spans: seq<Span>, root: Option<Span>) returns (ordered: seq<Placed>)
    requires root.Some? ==> root.value in spans
    ensures ordered == Ordered(spans, root)
  {
    hide Kids, Walk, ByStart;
    var byParent := GroupByParent(spans);
    var reached: seq<Placed>, seen: set<string> := [], {};
    if root.Some? {
      reached, seen := WalkFrom(spans, root.value, byParent);
    }
    assert reached == Reached(spans, root) && seen == SeenIn(reached);
    var leftover: seq<Span> := [];
    for i := 0 to |spans|
      invariant leftover == Unseen(spans[..i], seen)
    {
      assert spans[..i + 1][..i] == spans[..i];
      if spans[i].id !in seen { leftover := leftover + [spans[i]]; }
    }
    assert spans[..|spans|] == spans;
    ordered := reached + PlaceAll(ByStart(leftover), 0);
  }

  lemma ThreeKids(a: Span, b: Span, c: Span, id: string)
    ensures WithParent([a, b, c], id) ==
      (if a.parent == id then [a] else []) + (if b.parent == id then [b] else []) + (if c.parent == id then [c] else [])
  {
    assert [a, b, c][..2] == [a, b] && [a, b][..1] == [a] && [a][..0] == [];
    assert WithParent([a], id) == if a.parent == id then [a] else [];
    assert WithParent([a, b], id) == WithParent([a], id) + if b.parent == id then [b] else [];
  }

  lemma OnePush(s: Span, depth: nat)
    ensures ByStart([s]) == [s] && Reversed(PlaceAll([s], depth)) == [Placed(s, depth)]
  {
    assert [s][..0] == [] && [s][1..] == [];
    assert PlaceAll([s], depth) == [Placed(s, depth)] && [Placed(s, depth)][1..] == [];
  }

  lemma TwoPushes(a: Span, b: Span, depth: nat)
    requires a.start <= b.start
    ensures ByStart([a, b]) == [a, b]
    ensures Reversed(PlaceAll([a, b], depth)) == [Placed(b, depth), Placed(a, depth)]
  {
    OnePush(a, depth);
    OnePush(b, depth);
    assert [a, b][..1] == [a] && [a, b][1..] == [b];
    PushedCons([a, b], depth);
  }

  lemma AdoptingPushes(a: Span, e: Span, b: Span)
    requires a == Span("1", "", 0, 9) && e == Span("", "1", 1, 1) && b == Span("2", "", 2, 3)
    ensures Pushed([a, e, b], Placed(a, 0)) == [Placed(e, 1)]
    ensures Pushed([a, e, b], Placed(e, 1)) == [Placed(b, 2), Placed(a, 2)]
    ensures Pushed([a, e, b], Placed(b, 2)) == []
  {
    hide WithParent, ByStart, PlaceAll, Reversed;
    var spans := [a, e, b];
    ThreeKids(a, e, b, ""); ThreeKids(a, e, b, "1"); ThreeKids(a, e, b, "2");
    OnePush(e, 1);
    TwoPushes(a, b, 2);
    NoPush(3);
    assert WithParent(spans, "1") == [e] && WithParent(spans, "") == [a, b] && WithParent(spans, "2") == [];
  }

  lemma AdoptingWalk(a: Span, e: Span, b: Span)
    requires a == Span("1", "", 0, 9) && e == Span("", "1", 1, 1) && b == Span("2", "", 2, 3)
    ensures Reached([a, e, b], Some(a)) == [Placed(a, 0), Placed(e, 1), Placed(b, 2)]
  {
    hide Walk, Pushed;
    var spans, pa, pe, pb := [a, e, b], Placed(a, 0), Placed(e, 1), Placed(b, 2);
    AdoptingPushes(a, e, b);
    WalkStep(spans, [], pa, {});
    WalkStep(spans, [], pe, {"1"});
    WalkStep(spans, [pb], Placed(a, 2), {"1", ""});
    WalkStep(spans, [], pb, {"1", ""});
    WalkEmpty(spans, {"1", ""} + {"2"});
    assert [] + [pa] == [pa] && [] + [pe] == [pe] && [] + [pb] == [pb] && [] + [pb, Placed(a, 2)] == [pb] + [Placed(a, 2)];
    assert {} + {"1"} == {"1"} && {"1"} + {""} == {"1", ""};
    assert Pushed(spans, pb) == [] && [] + Pushed(spans, pb) == [];
    assert Walk(spans, [pb], {"1", ""}) == [pb];
    assert Walk(spans, [pb] + [Placed(a, 2)], {"1", ""}) == [pb];
    assert Walk(spans, [pe], {"1"}) == [pe] + [pb];
  }

  /** Why empty ids are excluded: a span with an empty id adopts every other span without a parent. */
  lemma EmptyIdAdoptsRoots()
    ensures var a, e, b := Span("1", "", 0, 9), Span("", "1", 1, 1), Span("2", "", 2, 3);
      && UniqueIds([a, e, b]) && Orphan([a, e, b], a) && Orphan([a, e, b], b)
      && Reached([a, e, b], Some(a)) == [Placed(a, 0), Placed(e, 1), Placed(b, 2)]
  {
    hide Reached;
    AdoptingWalk(Span("1", "", 0, 9), Span("", "1", 1, 1), Span("2", "", 2, 3));
  }

  lemma NoPush(depth: nat)
    ensures ByStart([]) == [] && Reversed(PlaceAll([], depth)) == []
  {}
}
