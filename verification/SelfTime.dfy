// Self time: a span's duration minus its direct children's, never below zero. Durations are exact
// nanoseconds; the source's final rounding to milliseconds is left out.
module SelfTime {
  import opened Basics
  import opened Text
  import opened TraceTree
  import opened TraceOrder

  function Total(spans: seq<Span>): nat {
    if spans == [] then 0 else Total(spans[..|spans| - 1]) + spans[|spans| - 1].duration
  }

  /** Time spent in the direct children of a span. An empty parent id is no parent. */
  function ChildTime(spans: seq<Span>, id: string): nat {
    if id == "" then 0 else Total(WithParent(spans, id))
  }

  function SelfOf(spans: seq<Span>, s: Span): nat {
    var children := ChildTime(spans, s.id);
    if children <= s.duration then s.duration - children else 0
  }

  function SelfSum(spans: seq<Span>, placed: seq<Placed>): nat {
    if placed == [] then 0 else SelfOf(spans, placed[0].span) + SelfSum(spans, placed[1..])
  }

  /** No placed span's direct children together outlast it. */
  ghost predicate ChildrenFit(spans: seq<Span>, placed: seq<Placed>) {
    forall e :: e in placed ==> ChildTime(spans, e.span.id) <= e.span.duration
  }

  lemma {:induction false} SelfSumConcat(spans: seq<Span>, a: seq<Placed>, b: seq<Placed>)
    ensures SelfSum(spans, a + b) == SelfSum(spans, a) + SelfSum(spans, b)
  {
    hide SelfOf;
    if a == [] {
      assert a + b == b;
    } else {
      SelfSumConcat(spans, a[1..], b);
      assert (a + b)[1..] == a[1..] + b;
    }
  }

  lemma {:induction false} TotalInsert(sorted: seq<Span>, s: Span)
    ensures Total(InsertByStart(sorted, s)) == Total(sorted) + s.duration
  {
    if sorted == [] || sorted[|sorted| - 1].start <= s.start {
      assert (sorted + [s])[..|sorted|] == sorted;
    } else {
      var front, last := sorted[..|sorted| - 1], sorted[|sorted| - 1];
      TotalInsert(front, s);
      assert (InsertByStart(front, s) + [last])[..|InsertByStart(front, s)|] == InsertByStart(front, s);
    }
  }

  lemma {:induction false} TotalSorted(spans: seq<Span>)
    ensures Total(ByStart(spans)) == Total(spans)
  {
    hide InsertByStart;
    if spans != [] {
      TotalSorted(spans[..|spans| - 1]);
      TotalInsert(ByStart(spans[..|spans| - 1]), spans[|spans| - 1]);
    }
  }

  lemma {:induction false} TotalCons(s: Span, rest: seq<Span>)
    ensures Total([s] + rest) == s.duration + Total(rest)
  {
    var all := [s] + rest;
    if rest == [] {
      assert all[..0] == [];
    } else {
      assert all[..|all| - 1] == [s] + rest[..|rest| - 1];
      TotalCons(s, rest[..|rest| - 1]);
    }
  }

  /** Time of the spans without a parent: below another span, they are there because its id is empty. */
  function AdoptedTime(placed: seq<Placed>): nat {
    if placed == [] then 0
    else (if placed[0].span.parent == "" then placed[0].span.duration else 0) + AdoptedTime(placed[1..])
  }

  lemma {:induction false} AdoptedConcat(a: seq<Placed>, b: seq<Placed>)
    ensures AdoptedTime(a + b) == AdoptedTime(a) + AdoptedTime(b)
  {
    if a == [] {
      assert a + b == b;
    } else {
      AdoptedConcat(a[1..], b);
      assert (a + b)[1..] == a[1..] + b;
    }
  }

  /** The self times of a subtree add up to at least its top's duration and that of the spans adopted in it,
      and to exactly that when and only when nowhere in it do children outlast their parent. */
  lemma {:induction false} SubtreeSelfTime(spans: seq<Span>, root: Span, s: Span, depth: nat)
    requires IsTop(spans, root) && At(spans, root, s, depth)
    ensures var tree := Tree(spans, s, depth);
      && tree != [] && SelfSum(spans, tree) >= s.duration + AdoptedTime(tree[1..])
      && (SelfSum(spans, tree) == s.duration + AdoptedTime(tree[1..]) <==> ChildrenFit(spans, tree))
    decreases if depth < |spans| then |spans| - depth else 0, 0, 0
  {
    hide Find, Up, Kids, Total;
    DepthBound(spans, root, s, depth);
    var kids := Kids(spans, s.id);
    var below := Forest(spans, kids, depth + 1);
    assert s.id != "" ==> ChildTime(spans, s.id) == Total(kids) by {
      assert kids == ByStart(WithParent(spans, s.id)) by { KidsAreSorted(spans, s.id); }
      TotalSorted(WithParent(spans, s.id));
    }
    ForestSelfTime(spans, root, s, depth, kids);
    SelfSumConcat(spans, [Placed(s, depth)], below);
    OneSelf(spans, Placed(s, depth));
    assert Tree(spans, s, depth) == [Placed(s, depth)] + below;
    assert Tree(spans, s, depth)[1..] == below;
    forall e ensures e in Tree(spans, s, depth) <==> e == Placed(s, depth) || e in below {}
  }

  lemma {:induction false} KidsAreSorted(spans: seq<Span>, id: string)
    ensures Kids(spans, id) == ByStart(WithParent(spans, id))
  {}

  lemma {:induction false} OneSelf(spans: seq<Span>, e: Placed)
    ensures SelfSum(spans, [e]) == SelfOf(spans, e.span)
  {}

  lemma {:induction false} ForestSelfTime(spans: seq<Span>, root: Span, s: Span, depth: nat, siblings: seq<Span>)
    requires IsTop(spans, root) && At(spans, root, s, depth)
    requires forall c :: c in siblings ==> c in Kids(spans, s.id)
    ensures var forest := Forest(spans, siblings, depth + 1);
      var own := if s.id == "" then 0 else Total(siblings);
      && SelfSum(spans, forest) >= own + AdoptedTime(forest)
      && (SelfSum(spans, forest) == own + AdoptedTime(forest) <==> ChildrenFit(spans, forest))
    decreases if depth + 1 < |spans| then |spans| - depth - 1 else 0, 1, |siblings|
  {
    hide Find, Up, Kids, Tree, ChildTime, SelfOf;
    if siblings != [] {
      hide Total;
      var c, rest := siblings[0], siblings[1..];
      var a, b := Tree(spans, c, depth + 1), Forest(spans, rest, depth + 1);
      KidDepth(spans, root, s, depth, c);
      SubtreeSelfTime(spans, root, c, depth + 1);
      ForestSelfTime(spans, root, s, depth, rest);
      SelfSumConcat(spans, a, b);
      AdoptedConcat(a, b);
      TreeTop(spans, root, c, depth + 1);
      KidsMembers(spans, s.id);
      TotalCons(c, rest);
      assert siblings == [c] + rest;
      forall e ensures e in Forest(spans, siblings, depth + 1) <==> e in a || e in b {}
    }
  }

  lemma TreeTop(spans: seq<Span>, root: Span, s: Span, depth: nat)
    requires IsTop(spans, root) && At(spans, root, s, depth)
    ensures Tree(spans, s, depth) != [] && Tree(spans, s, depth)[0].span == s
  {
    hide Find, Up;
    DepthBound(spans, root, s, depth);
  }

  // ------------------------------------------------------- over any reached spans

  /** The spans whose parent is among `ids`, an empty id being nobody's parent. */
  function ChildrenOf(spans: seq<Span>, ids: set<string>): seq<Span> {
    if spans == [] then []
    else
      var front, last := ChildrenOf(spans[..|spans| - 1], ids), spans[|spans| - 1];
      if last.parent != "" && last.parent in ids then front + [last] else front
  }

  lemma {:induction false} ChildrenMembers(spans: seq<Span>, ids: set<string>)
    ensures forall c :: c in ChildrenOf(spans, ids) <==> c in spans && c.parent != "" && c.parent in ids
    ensures UniqueIds(spans) ==> UniqueIds(ChildrenOf(spans, ids))
  {
    if spans != [] {
      var front, last := spans[..|spans| - 1], spans[|spans| - 1];
      ChildrenMembers(front, ids);
      assert spans == front + [last];
    }
  }

  lemma {:induction false} OneMoreParent(spans: seq<Span>, ids: set<string>, id: string)
    requires id !in ids
    ensures Total(ChildrenOf(spans, ids + {id})) == Total(ChildrenOf(spans, ids)) + ChildTime(spans, id)
  {
    hide Total;
    if spans == [] {
      NoTime();
    } else {
      var front, last := spans[..|spans| - 1], spans[|spans| - 1];
      OneMoreParent(front, ids, id);
      TotalSnoc(ChildrenOf(front, ids + {id}), last);
      TotalSnoc(ChildrenOf(front, ids), last);
      TotalSnoc(WithParent(front, id), last);
    }
  }

  lemma TotalSnoc(spans: seq<Span>, s: Span)
    ensures Total(spans + [s]) == Total(spans) + s.duration
  {
    assert (spans + [s])[..|spans|] == spans;
  }

  function ChildSum(spans: seq<Span>, placed: seq<Placed>): nat {
    if placed == [] then 0 else ChildTime(spans, placed[0].span.id) + ChildSum(spans, placed[1..])
  }

  /** Each child's time is counted at its one parent. */
  lemma {:induction false} ChildSumIsTotal(spans: seq<Span>, placed: seq<Placed>)
    requires UniqueIds(SpansOf(placed))
    ensures ChildSum(spans, placed) == Total(ChildrenOf(spans, SeenIn(placed)))
  {
    hide ChildTime, Total;
    if placed == [] {
      NobodysChildren(spans);
      NoTime();
    } else {
      var e, rest := placed[0], placed[1..];
      forall i | 0 <= i < |rest| ensures SpansOf(rest)[i] == SpansOf(placed)[i + 1] {}
      ChildSumIsTotal(spans, rest);
      assert placed == [e] + rest;
      SeenCons(e, rest);
      forall x | x in rest ensures x.span.id != e.span.id {
        var i :| 0 <= i < |rest| && rest[i] == x;
        assert SpansOf(placed)[0].id != SpansOf(placed)[i + 1].id;
      }
      OneMoreParent(spans, SeenIn(rest), e.span.id);
      assert SeenIn(rest) + {e.span.id} == SeenIn(placed);
    }
  }

  lemma {:induction false} NobodysChildren(spans: seq<Span>)
    ensures ChildrenOf(spans, SeenIn([])) == []
  {
    if spans != [] { NobodysChildren(spans[..|spans| - 1]); }
  }

  lemma NoTime()
    ensures Total([]) == 0
  {}

  /** What is not self time is children's time, as far as it fits. */
  lemma {:induction false} SelfAndChildren(spans: seq<Span>, placed: seq<Placed>)
    ensures SelfSum(spans, placed) + ChildSum(spans, placed) >= Total(SpansOf(placed))
    ensures SelfSum(spans, placed) + ChildSum(spans, placed) == Total(SpansOf(placed)) <==> ChildrenFit(spans, placed)
  {
    hide ChildTime;
    if placed != [] {
      var e, rest := placed[0], placed[1..];
      SelfAndChildren(spans, rest);
      assert SpansOf(placed) == [e.span] + SpansOf(rest);
      TotalCons(e.span, SpansOf(rest));
      assert forall x :: x in placed <==> x == e || x in rest;
    } else {
      assert SpansOf(placed) == [];
    }
  }

  function WithParents(spans: seq<Span>): seq<Span> {
    if spans == [] then []
    else
      var front, last := WithParents(spans[..|spans| - 1]), spans[|spans| - 1];
      if last.parent != "" then front + [last] else front
  }

  lemma {:induction false} WithParentsMembers(spans: seq<Span>)
    ensures forall c :: c in WithParents(spans) <==> c in spans && c.parent != ""
    ensures UniqueIds(spans) ==> UniqueIds(WithParents(spans))
  {
    if spans != [] {
      var front, last := spans[..|spans| - 1], spans[|spans| - 1];
      WithParentsMembers(front);
      assert spans == front + [last];
    }
  }

  lemma {:induction false} AdoptedAndOthers(placed: seq<Placed>)
    ensures Total(SpansOf(placed)) == Total(WithParents(SpansOf(placed))) + AdoptedTime(placed)
  {
    if placed != [] {
      var n := |placed| - 1;
      var front, last := placed[..n], placed[n];
      AdoptedAndOthers(front);
      assert placed == front + [last];
      assert SpansOf(placed) == SpansOf(front) + [last.span];
      assert (SpansOf(front) + [last.span])[..n] == SpansOf(front);
      AdoptedConcat(front, [last]);
      TotalSnoc(SpansOf(front), last.span);
      TotalSnoc(WithParents(SpansOf(front)), last.span);
    }
  }

  lemma {:induction false} TotalConcat(a: seq<Span>, b: seq<Span>)
    ensures Total(a + b) == Total(a) + Total(b)
  {
    if b == [] {
      assert a + b == a;
    } else {
      assert (a + b)[..|a + b| - 1] == a + b[..|b| - 1];
      TotalConcat(a, b[..|b| - 1]);
    }
  }

  lemma TakeOut(a: seq<Span>, x: Span, b: seq<Span>)
    ensures Total(a + ([x] + b)) == Total(a + b) + x.duration
    ensures multiset(a + ([x] + b)) == multiset(a + b) + multiset{x}
  {
    TotalConcat(a, [x] + b);
    TotalCons(x, b);
    TotalConcat(a, b);
  }

  lemma {:induction false} TotalOfPermuted(a: seq<Span>, b: seq<Span>)
    requires multiset(a) == multiset(b)
    ensures Total(a) == Total(b)
  {
    hide Total;
    if a == [] {
      assert |multiset(b)| == |b| && |multiset(a)| == |a|;
    } else {
      var x, front := a[|a| - 1], a[..|a| - 1];
      assert x in multiset(a);
      var i :| 0 <= i < |b| && b[i] == x;
      var rest := b[..i] + b[i + 1..];
      assert a == front + ([x] + []) && front + [] == front;
      assert b == b[..i] + ([x] + b[i + 1..]);
      TakeOut(front, x, []);
      TakeOut(b[..i], x, b[i + 1..]);
      CancelOne(multiset(front), multiset(rest), x);
      TotalOfPermuted(front, rest);
    }
  }

  lemma RootFirst(spans: seq<Span>, root: Span)
    requires root in spans
    ensures var reached := Reached(spans, Some(root));
      reached != [] && reached[0].span == root && reached == [reached[0]] + reached[1..]
  {
    hide Walk, Pushed;
    WalkStep(spans, [], Placed(root, 0), {});
    assert [] + [Placed(root, 0)] == [Placed(root, 0)];
  }

  lemma SpanPlaced(spans: seq<Span>, root: Span, x: Span)
    requires UniqueIds(spans) && root in spans && x in spans && x.id in SeenIn(Reached(spans, Some(root)))
    ensures var reached := Reached(spans, Some(root));
      reached != [] && (x == root || x in SpansOf(reached[1..]))
  {
    hide Reached;
    RootFirst(spans, root);
    ReachedSpans(spans, Some(root));
    var reached := Reached(spans, Some(root));
    assert SpansOf(reached) == [root] + SpansOf(reached[1..]);
  }

  lemma ChildIsReached(spans: seq<Span>, root: Span, c: Span)
    requires UniqueIds(spans) && root in spans && Orphan(spans, root)
    requires c in spans && c.parent != "" && c.parent in SeenIn(Reached(spans, Some(root)))
    ensures c.id in SeenIn(Reached(spans, Some(root))) && c != root
  {
    hide Walk;
    var reached := Reached(spans, Some(root));
    WalkPlacesOnce(spans, [Placed(root, 0)], {});
    var e :| e in reached && e.span.id == c.parent;
    assert e.span in spans && e.span.id in Ids(spans);
    WalkIsClosed(spans, [Placed(root, 0)], {}, e, c);
  }

  lemma ReachedIsChild(spans: seq<Span>, root: Span, i: nat)
    requires UniqueIds(spans) && root in spans && 0 < i < |Reached(spans, Some(root))|
    ensures var reached := Reached(spans, Some(root));
      reached[i].span in spans && reached[i].span.parent in SeenIn(reached)
  {
    hide Walk;
    var reached := Reached(spans, Some(root));
    RootFirst(spans, root);
    WalkPlacesOnce(spans, [Placed(root, 0)], {});
    assert reached[0].span.id != reached[i].span.id && reached[i] in reached;
    WalkHasParents(spans, [Placed(root, 0)], {}, reached[i]);
  }

  /** The children of reached spans are the reached spans with a parent, the root aside. */
  lemma ReachedChildren(spans: seq<Span>, root: Span)
    requires UniqueIds(spans) && root in spans && Orphan(spans, root)
    ensures var reached := Reached(spans, Some(root));
      && reached != []
      && multiset(ChildrenOf(spans, SeenIn(reached))) == multiset(WithParents(SpansOf(reached[1..])))
  {
    hide Reached, Orphan, ChildrenOf, WithParents, SeenIn;
    RootFirst(spans, root);
    var reached := Reached(spans, Some(root));
    var below := SpansOf(reached[1..]);
    var a, b := ChildrenOf(spans, SeenIn(reached)), WithParents(below);
    ReachedSpans(spans, Some(root));
    ChildrenMembers(spans, SeenIn(reached));
    assert SpansOf(reached) == [root] + below;
    forall i | 0 <= i < |below| ensures below[i] == SpansOf(reached)[i + 1] {}
    WithParentsMembers(below);
    forall c | c in a ensures c in b {
      ChildIsReached(spans, root, c);
      SpanPlaced(spans, root, c);
    }
    forall c | c in b ensures c in a {
      var i :| 0 <= i < |below| && below[i] == c;
      ReachedIsChild(spans, root, i + 1);
    }
    SameMembersSameCounts(a, b);
  }

  /** Over everything a trace's root leads to, for any parent links and any ids. */
  lemma TraceSelfTime(spans: seq<Span>, root: Span)
    requires UniqueIds(spans) && root in spans && Orphan(spans, root)
    ensures var reached := Reached(spans, Some(root));
      && reached != [] && SelfSum(spans, reached) >= root.duration + AdoptedTime(reached[1..])
      && (SelfSum(spans, reached) == root.duration + AdoptedTime(reached[1..]) <==> ChildrenFit(spans, reached))
  {
    hide Reached, SelfSum, ChildrenFit, Orphan, UniqueIds, ChildSum, Total, WithParents, ChildrenOf;
    var reached := Reached(spans, Some(root));
    RootFirst(spans, root);
    ReachedSpans(spans, Some(root));
    SelfAndChildren(spans, reached);
    ChildSumIsTotal(spans, reached);
    ReachedChildren(spans, root);
    TotalOfPermuted(ChildrenOf(spans, SeenIn(reached)), WithParents(SpansOf(reached[1..])));
    AdoptedAndOthers(reached[1..]);
    assert SpansOf(reached) == [root] + SpansOf(reached[1..]);
    TotalCons(root, SpansOf(reached[1..]));
  }

  lemma {:induction false} TotalAppend(spans: seq<Span>, s: Span, id: string)
    ensures Total(WithParent(spans + [s], id)) == Total(WithParent(spans, id)) + if s.parent == id then s.duration else 0
  {
    assert (spans + [s])[..|spans|] == spans;
    var w := WithParent(spans, id);
    assert (w + [s])[..|w|] == w;
  }

  /** The accumulation loop and the subtraction, span by span. */
  method SelfTimes(spans: seq<Span>) returns (selfs: seq<nat>)
    ensures |selfs| == |spans|
    ensures forall i :: 0 <= i < |spans| ==> selfs[i] == SelfOf(spans, spans[i])
  {
    var childTime: map<string, nat> := map[];
    for i := 0 to |spans|
      invariant forall id :: (if id in childTime then childTime[id] else 0) == ChildTime(spans[..i], id)
    {
      var p := spans[i].parent;
      forall id ensures ChildTime(spans[..i + 1], id)
        == ChildTime(spans[..i], id) + if id != "" && p == id then spans[i].duration else 0
      {
        assert spans[..i + 1] == spans[..i] + [spans[i]];
        TotalAppend(spans[..i], spans[i], id);
      }
      if p != "" {
        childTime := childTime[p := (if p in childTime then childTime[p] else 0) + spans[i].duration];
      }
    }
    assert spans[..|spans|] == spans;
    selfs := [];
    for i := 0 to |spans|
      invariant |selfs| == i && forall j :: 0 <= j < i ==> selfs[j] == SelfOf(spans, spans[j])
    {
      var id := spans[i].id;
      var children := if id in childTime then childTime[id] else 0;
      selfs := selfs + [if children <= spans[i].duration then spans[i].duration - children else 0];
    }
  }
}
