// The waterfall's order: siblings by start time, parents before children.
module TraceTree {
  import opened Basics
  import opened Text

  /** One span of a trace; start and duration in nanoseconds. */
  datatype Span = Span(id: string, parent: string, start: int, duration: nat)

  datatype Placed = Placed(span: Span, depth: nat)

  ghost predicate UniqueIds(spans: seq<Span>) {
    forall i, j :: 0 <= i < j < |spans| ==> spans[i].id != spans[j].id
  }

  lemma SameIdSameSpan(spans: seq<Span>, a: Span, b: Span)
    requires UniqueIds(spans) && a in spans && b in spans && a.id == b.id
    ensures a == b
  {}

  // --------------------------------------------------------- stable start order

  /** Position after every element that starts no later: a stable sort puts a later element there. */
  function InsertByStart(sorted: seq<Span>, s: Span): seq<Span> {
    if sorted == [] || sorted[|sorted| - 1].start <= s.start then sorted + [s]
    else InsertByStart(sorted[..|sorted| - 1], s) + [sorted[|sorted| - 1]]
  }

  /** `sort(key=lambda s: s.start_time)`, which is stable. */
  function ByStart(spans: seq<Span>): seq<Span> {
    if spans == [] then [] else InsertByStart(ByStart(spans[..|spans| - 1]), spans[|spans| - 1])
  }

  ghost predicate Ascending(spans: seq<Span>) {
    forall i, j :: 0 <= i < j < |spans| ==> spans[i].start <= spans[j].start
  }

  function StartingAt(spans: seq<Span>, t: int): seq<Span> {
    if spans == [] then []
    else
      var front, last := StartingAt(spans[..|spans| - 1], t), spans[|spans| - 1];
      if last.start == t then front + [last] else front
  }

  lemma StartingAtAppend(spans: seq<Span>, s: Span, t: int)
    ensures StartingAt(spans + [s], t) == if s.start == t then StartingAt(spans, t) + [s] else StartingAt(spans, t)
  {
    assert (spans + [s])[..|spans|] == spans;
  }

  lemma {:induction false} InsertByStartAdds(sorted: seq<Span>, s: Span)
    ensures multiset(InsertByStart(sorted, s)) == multiset(sorted) + multiset{s}
  {
    if sorted != [] && sorted[|sorted| - 1].start > s.start {
      var front, last := sorted[..|sorted| - 1], sorted[|sorted| - 1];
      InsertByStartAdds(front, s);
      assert sorted == front + [last];
      SwapLast(multiset(front), multiset{s}, multiset{last});
    }
  }

  lemma {:induction false} InsertByStartSorts(sorted: seq<Span>, s: Span)
    requires Ascending(sorted)
    ensures Ascending(InsertByStart(sorted, s))
  {
    if sorted != [] && sorted[|sorted| - 1].start > s.start {
      var front, last := sorted[..|sorted| - 1], sorted[|sorted| - 1];
      InsertByStartSorts(front, s);
      InsertByStartAdds(front, s);
      var r := InsertByStart(front, s);
      forall x | x in r ensures x.start <= last.start {
        assert x in multiset(front) + multiset{s};
        assert x in front || x == s;
      }
    }
  }

  lemma {:induction false} InsertByStartIsStable(sorted: seq<Span>, s: Span, t: int)
    requires Ascending(sorted)
    ensures StartingAt(InsertByStart(sorted, s), t) == StartingAt(sorted, t) + (if s.start == t then [s] else [])
  {
    hide StartingAt;
    if sorted == [] || sorted[|sorted| - 1].start <= s.start {
      StartingAtAppend(sorted, s, t);
    } else {
      var front, last := sorted[..|sorted| - 1], sorted[|sorted| - 1];
      InsertByStartIsStable(front, s, t);
      StartingAtAppend(InsertByStart(front, s), last, t);
      StartingAtAppend(front, last, t);
      assert sorted == front + [last];
    }
  }

  /** A rearrangement in ascending start time that keeps the order of equal starts. */
  lemma {:induction false} ByStartSorts(spans: seq<Span>, t: int)
    ensures Ascending(ByStart(spans)) && multiset(ByStart(spans)) == multiset(spans)
    ensures StartingAt(ByStart(spans), t) == StartingAt(spans, t)
  {
    hide InsertByStart, StartingAt;
    if spans != [] {
      var front := spans[..|spans| - 1];
      ByStartSorts(front, t);
      InsertByStartSorts(ByStart(front), spans[|spans| - 1]);
      InsertByStartAdds(ByStart(front), spans[|spans| - 1]);
      InsertByStartIsStable(ByStart(front), spans[|spans| - 1], t);
      StartingAtAppend(front, spans[|spans| - 1], t);
      assert spans == front + [spans[|spans| - 1]];
    }
  }

  function WithParent(spans: seq<Span>, id: string): seq<Span> {
    if spans == [] then []
    else
      var front, last := WithParent(spans[..|spans| - 1], id), spans[|spans| - 1];
      if last.parent == id then front + [last] else front
  }

  /** A span's direct children, in stable start order. */
  function Kids(spans: seq<Span>, id: string): seq<Span> {
    ByStart(WithParent(spans, id))
  }

  lemma {:induction false} WithParentMembers(spans: seq<Span>, id: string)
    ensures forall c :: c in WithParent(spans, id) <==> c in spans && c.parent == id
    ensures UniqueIds(spans) ==> UniqueIds(WithParent(spans, id))
  {
    if spans != [] {
      var front, last := spans[..|spans| - 1], spans[|spans| - 1];
      WithParentMembers(front, id);
      assert spans == front + [last];
    }
  }

  lemma {:induction false} UniqueCounts(spans: seq<Span>, s: Span)
    requires UniqueIds(spans)
    ensures multiset(spans)[s] <= 1
  {
    if spans != [] {
      var front, last := spans[..|spans| - 1], spans[|spans| - 1];
      UniqueCounts(front, s);
      assert spans == front + [last];
    }
  }

  lemma {:induction false} DistinctFromCounts(spans: seq<Span>)
    requires forall s :: multiset(spans)[s] <= 1
    ensures forall i, j :: 0 <= i < j < |spans| ==> spans[i] != spans[j]
  {
    if spans != [] {
      var front, last := spans[..|spans| - 1], spans[|spans| - 1];
      assert spans == front + [last];
      forall s ensures multiset(front)[s] <= 1 {
        assert multiset(spans)[s] <= 1;
      }
      DistinctFromCounts(front);
      if last in front {
        assert multiset(spans)[last] >= 2;
      }
    }
  }

  lemma KidsMembers(spans: seq<Span>, id: string)
    ensures forall c :: c in Kids(spans, id) <==> c in spans && c.parent == id
    ensures UniqueIds(spans) ==> forall i, j :: 0 <= i < j < |Kids(spans, id)| ==> Kids(spans, id)[i] != Kids(spans, id)[j]
  {
    var w := WithParent(spans, id);
    WithParentMembers(spans, id);
    ByStartSorts(w, 0);
    forall c ensures c in Kids(spans, id) <==> c in w {
      assert c in multiset(Kids(spans, id)) <==> c in multiset(w);
    }
    if UniqueIds(spans) {
      forall s ensures multiset(Kids(spans, id))[s] <= 1 {
        UniqueCounts(w, s);
      }
      DistinctFromCounts(Kids(spans, id));
    }
  }

  // ------------------------------------------------------------------- preorder

  /** Recursive preorder. No path in a trace of n spans is longer than n, unless it repeats a span, so
      the depth bound only ever cuts cycles. */
  function Tree(spans: seq<Span>, s: Span, depth: nat): seq<Placed>
    decreases if depth < |spans| then |spans| - depth else 0, 0, 0
  {
    if depth >= |spans| then []
    else [Placed(s, depth)] + Forest(spans, Kids(spans, s.id), depth + 1)
  }

  function Forest(spans: seq<Span>, siblings: seq<Span>, depth: nat): seq<Placed>
    decreases if depth < |spans| then |spans| - depth else 0, 1, |siblings|
  {
    if siblings == [] then [] else Tree(spans, siblings[0], depth) + Forest(spans, siblings[1..], depth)
  }

  // ------------------------------------------------------------------- ancestors

  function Find(spans: seq<Span>, id: string): Option<Span> {
    if spans == [] then None
    else if spans[0].id == id then Some(spans[0])
    else Find(spans[1..], id)
  }

  lemma {:induction false} FindUnique(spans: seq<Span>, s: Span)
    requires UniqueIds(spans) && s in spans
    ensures Find(spans, s.id) == Some(s)
  {
    if spans[0] != s {
      assert s in spans[1..];
      FindUnique(spans[1..], s);
    }
  }

  lemma {:induction false} FindMember(spans: seq<Span>, id: string)
    ensures Find(spans, id).Some? <==> exists s :: s in spans && s.id == id
    ensures Find(spans, id).Some? ==> Find(spans, id).value in spans && Find(spans, id).value.id == id
  {
    if spans != [] {
      FindMember(spans[1..], id);
      assert spans == [spans[0]] + spans[1..];
      if spans[0].id == id { assert spans[0] in spans; }
    }
  }

  /** The k-th ancestor, if the trace has it. */
  function Up(spans: seq<Span>, s: Span, k: nat): Option<Span> {
    if k == 0 then Some(s)
    else
      match Up(spans, s, k - 1)
      case None => None
      case Some(m) => Find(spans, m.parent)
  }

  lemma {:induction false} UpCompose(spans: seq<Span>, s: Span, a: nat, b: nat)
    requires Up(spans, s, a).Some?
    ensures Up(spans, s, a + b) == Up(spans, Up(spans, s, a).value, b)
  {
    hide Find;
    if b > 0 {
      UpCompose(spans, s, a, b - 1);
    }
  }

  lemma {:induction false} UpMember(spans: seq<Span>, s: Span, k: nat)
    requires s in spans && Up(spans, s, k).Some?
    ensures Up(spans, s, k).value in spans
    ensures forall j :: 0 <= j <= k ==> Up(spans, s, j).Some?
  {
    if k > 0 {
      UpMember(spans, s, k - 1);
      FindMember(spans, Up(spans, s, k - 1).value.parent);
    }
  }

  /** `root` is a span whose parent the trace does not have. */
  ghost predicate IsTop(spans: seq<Span>, root: Span) {
    UniqueIds(spans) && root in spans && Find(spans, root.parent) == None
  }

  ghost predicate At(spans: seq<Span>, root: Span, s: Span, depth: nat) {
    s in spans && Up(spans, s, depth) == Some(root)
  }

  lemma UpZero(spans: seq<Span>, s: Span)
    ensures Up(spans, s, 0) == Some(s)
  {}

  lemma UpOnce(spans: seq<Span>, s: Span)
    ensures Up(spans, s, 1) == Find(spans, s.parent)
  {
    UpZero(spans, s);
  }

  /** A span hangs below a top span at one depth only. */
  lemma OneDepth(spans: seq<Span>, root: Span, s: Span, a: nat, b: nat)
    requires IsTop(spans, root) && At(spans, root, s, a) && At(spans, root, s, b)
    ensures a == b
  {
    hide Find;
    UpOnce(spans, root);
    if a < b {
      UpCompose(spans, s, a, 1);
      UpMember(spans, s, b);
    } else if b < a {
      UpCompose(spans, s, b, 1);
      UpMember(spans, s, a);
    }
  }

  lemma KidDepth(spans: seq<Span>, root: Span, s: Span, depth: nat, c: Span)
    requires IsTop(spans, root) && At(spans, root, s, depth) && c in Kids(spans, s.id)
    ensures At(spans, root, c, depth + 1) && Up(spans, c, 1) == Some(s)
  {
    hide Kids;
    KidsMembers(spans, s.id);
    FindUnique(spans, s);
    assert Up(spans, c, 0) == Some(c);
    UpCompose(spans, c, 1, depth);
  }

  lemma {:induction false} DistinctFitInSet<T>(path: seq<T>, all: set<T>)
    requires forall i, j :: 0 <= i < j < |path| ==> path[i] != path[j]
    requires forall x :: x in path ==> x in all
    ensures |path| <= |all|
  {
    if path != [] {
      var last := path[|path| - 1];
      DistinctFitInSet(path[..|path| - 1], all - {last});
    }
  }

  lemma {:induction false} SetSize(spans: seq<Span>)
    ensures |set s | s in spans| <= |spans|
  {
    if spans != [] {
      var front, last := spans[..|spans| - 1], spans[|spans| - 1];
      SetSize(front);
      assert spans == front + [last];
      assert (set s | s in spans) == (set s | s in front) + {last};
    }
  }

  /** Depths below a top span stay under the number of spans, so the preorder's bound never cuts it. */
  lemma DepthBound(spans: seq<Span>, root: Span, s: Span, depth: nat)
    requires IsTop(spans, root) && At(spans, root, s, depth)
    ensures depth < |spans|
  {
    hide Find;
    UpMember(spans, s, depth);
    var path := seq(depth + 1, i requires 0 <= i <= depth => Up(spans, s, i).value);
    var all := set x | x in spans;
    forall i, j | 0 <= i < j < |path| ensures path[i] != path[j] {
      UpMember(spans, s, i);
      UpMember(spans, s, j);
      UpCompose(spans, s, i, depth - i);
      UpCompose(spans, s, j, depth - j);
      if path[i] == path[j] {
        OneDepth(spans, root, path[i], depth - i, depth - j);
      }
    }
    forall x | x in path ensures x in all {
      var i :| 0 <= i < |path| && path[i] == x;
      UpMember(spans, s, i);
    }
    DistinctFitInSet(path, all);
    SetSize(spans);
  }

  // --------------------------------------------------------- what a preorder holds

  /** Every entry of a subtree is a span at its true depth below the subtree's top. */
  lemma {:induction false} TreeEntry(spans: seq<Span>, root: Span, s: Span, depth: nat, e: Placed)
    requires IsTop(spans, root) && At(spans, root, s, depth) && e in Tree(spans, s, depth)
    ensures e.depth >= depth && At(spans, root, e.span, e.depth) && Up(spans, e.span, e.depth - depth) == Some(s)
    decreases if depth < |spans| then |spans| - depth else 0, 0, 0
  {
    hide Kids, Find, Up;
    assert Up(spans, s, 0) == Some(s) by { UpZero(spans, s); }
    if e != Placed(s, depth) {
      var c := ForestEntry(spans, root, s, depth, Kids(spans, s.id), e);
      KidDepth(spans, root, s, depth, c);
      UpCompose(spans, e.span, e.depth - depth - 1, 1);
    }
  }

  lemma {:induction false} ForestEntry(spans: seq<Span>, root: Span, s: Span, depth: nat, siblings: seq<Span>, e: Placed)
    returns (c: Span)
    requires IsTop(spans, root) && At(spans, root, s, depth)
    requires forall c :: c in siblings ==> c in Kids(spans, s.id)
    requires e in Forest(spans, siblings, depth + 1)
    ensures c in siblings && e in Tree(spans, c, depth + 1)
    ensures e.depth >= depth + 1 && At(spans, root, e.span, e.depth) && Up(spans, e.span, e.depth - depth - 1) == Some(c)
    decreases if depth + 1 < |spans| then |spans| - depth - 1 else 0, 1, |siblings|
  {
    hide Kids, Find, Up;
    if e in Tree(spans, siblings[0], depth + 1) {
      c := siblings[0];
      KidDepth(spans, root, s, depth, c);
      if depth + 1 < |spans| {
        TreeEntry(spans, root, c, depth + 1, e);
      }
    } else {
      c := ForestEntry(spans, root, s, depth, siblings[1..], e);
    }
  }

  ghost predicate Distinct(placed: seq<Placed>) {
    forall i, j :: 0 <= i < j < |placed| ==> placed[i].span.id != placed[j].span.id
  }

  lemma DistinctConcat(a: seq<Placed>, b: seq<Placed>)
    requires Distinct(a) && Distinct(b)
    requires forall x, y :: x in a && y in b ==> x.span.id != y.span.id
    ensures Distinct(a + b)
  {
    forall i, j | 0 <= i < j < |a + b| ensures (a + b)[i].span.id != (a + b)[j].span.id {
      if i < |a| <= j {
        assert a[i] in a && b[j - |a|] in b;
      }
    }
  }

  /** A preorder below a top span places each span once. */
  lemma {:induction false} TreeDistinct(spans: seq<Span>, root: Span, s: Span, depth: nat)
    requires IsTop(spans, root) && At(spans, root, s, depth)
    ensures Distinct(Tree(spans, s, depth))
    decreases if depth < |spans| then |spans| - depth else 0, 0, 0
  {
    hide Kids, Find, Up;
    if depth < |spans| {
      var kids := Kids(spans, s.id);
      KidsMembers(spans, s.id);
      ForestDistinct(spans, root, s, depth, kids);
      forall x, y | x in [Placed(s, depth)] && y in Forest(spans, kids, depth + 1) ensures x.span.id != y.span.id {
        var c := ForestEntry(spans, root, s, depth, kids, y);
        if y.span.id == s.id {
          SameIdSameSpan(spans, y.span, s);
          OneDepth(spans, root, s, depth, y.depth);
        }
      }
      DistinctConcat([Placed(s, depth)], Forest(spans, kids, depth + 1));
    }
  }

  lemma {:induction false} ForestDistinct(spans: seq<Span>, root: Span, s: Span, depth: nat, siblings: seq<Span>)
    requires IsTop(spans, root) && At(spans, root, s, depth)
    requires forall c :: c in siblings ==> c in Kids(spans, s.id)
    requires forall i, j :: 0 <= i < j < |siblings| ==> siblings[i] != siblings[j]
    ensures Distinct(Forest(spans, siblings, depth + 1))
    decreases if depth + 1 < |spans| then |spans| - depth - 1 else 0, 1, |siblings|
  {
    hide Kids, Find, Up;
    if siblings != [] {
      var c, rest := siblings[0], siblings[1..];
      var a, b := Tree(spans, c, depth + 1), Forest(spans, rest, depth + 1);
      KidDepth(spans, root, s, depth, c);
      TreeDistinct(spans, root, c, depth + 1);
      ForestDistinct(spans, root, s, depth, rest);
      forall x, y | x in a && y in b ensures x.span.id != y.span.id {
        TreeEntry(spans, root, c, depth + 1, x);
        var c' := ForestEntry(spans, root, s, depth, rest, y);
        if x.span.id == y.span.id {
          SameIdSameSpan(spans, x.span, y.span);
          OneDepth(spans, root, x.span, x.depth, y.depth);
        }
      }
      DistinctConcat(a, b);
    }
  }

  lemma {:induction false} ForestSplit(spans: seq<Span>, siblings: seq<Span>, depth: nat, c: Span)
    returns (before: seq<Placed>, after: seq<Placed>)
    requires c in siblings
    ensures Forest(spans, siblings, depth) == before + Tree(spans, c, depth) + after
  {
    hide Tree;
    if c == siblings[0] {
      before, after := [], Forest(spans, siblings[1..], depth);
    } else {
      before, after := ForestSplit(spans, siblings[1..], depth, c);
      before := Tree(spans, siblings[0], depth) + before;
    }
  }

  /** Each subtree is contiguous, and is its own span followed by its children's subtrees. */
  lemma {:induction false} SubtreeContiguous(spans: seq<Span>, root: Span, s: Span, depth: nat)
    returns (before: seq<Placed>, after: seq<Placed>)
    requires IsTop(spans, root) && At(spans, root, s, depth)
    ensures Tree(spans, root, 0) == before + Tree(spans, s, depth) + after
    ensures Tree(spans, s, depth) == [Placed(s, depth)] + Forest(spans, Kids(spans, s.id), depth + 1)
    decreases depth
  {
    hide Kids, Find, Forest;
    DepthBound(spans, root, s, depth);
    if depth == 0 {
      before, after := [], [];
    } else {
      UpMember(spans, s, depth);
      UpCompose(spans, s, 1, depth - 1);
      var p := Up(spans, s, 1).value;
      UpMember(spans, s, 1);
      FindMember(spans, s.parent);
      UpZero(spans, s);
      var b, a := SubtreeContiguous(spans, root, p, depth - 1);
      KidsMembers(spans, p.id);
      var b', a' := ForestSplit(spans, Kids(spans, p.id), depth, s);
      before, after := b + [Placed(p, depth - 1)] + b', a' + a;
    }
  }

  /** Exactly the spans that reach the root by their parent links are placed, at that many steps. */
  lemma PlacedIffReachable(spans: seq<Span>, root: Span, s: Span, depth: nat)
    requires IsTop(spans, root)
    ensures Placed(s, depth) in Tree(spans, root, 0) <==> At(spans, root, s, depth)
  {
    hide Find, Forest;
    UpZero(spans, root);
    if At(spans, root, s, depth) {
      var b, a := SubtreeContiguous(spans, root, s, depth);
      assert Placed(s, depth) in Tree(spans, s, depth);
    } else if Placed(s, depth) in Tree(spans, root, 0) {
      TreeEntry(spans, root, root, 0, Placed(s, depth));
    }
  }

  /** Every placed span but the root stands after its parent, one level deeper. */
  lemma ParentFirst(spans: seq<Span>, root: Span, i: nat) returns (j: nat)
    requires IsTop(spans, root) && 0 < i < |Tree(spans, root, 0)|
    ensures j < i && Tree(spans, root, 0)[j].span.id == Tree(spans, root, 0)[i].span.parent
    ensures Tree(spans, root, 0)[i].depth == Tree(spans, root, 0)[j].depth + 1
  {
    hide Find, Kids, Tree, Forest;
    var t := Tree(spans, root, 0);
    var e := t[i];
    UpZero(spans, root);
    TreeEntry(spans, root, root, 0, e);
    TreeDistinct(spans, root, root, 0);
    var rb, ra := SubtreeContiguous(spans, root, root, 0);
    assert t[0] == Placed(root, 0) by { RootFirst(spans, root); }
    if e.depth == 0 {
      UpZero(spans, e.span);
      assert false;
    }
    UpMember(spans, e.span, e.depth);
    UpCompose(spans, e.span, 1, e.depth - 1);
    UpMember(spans, e.span, 1);
    UpZero(spans, e.span);
    FindMember(spans, e.span.parent);
    var p := Up(spans, e.span, 1).value;
    var b, a := SubtreeContiguous(spans, root, p, e.depth - 1);
    KidsMembers(spans, p.id);
    var b', a' := ForestSplit(spans, Kids(spans, p.id), e.depth, e.span);
    var b'', a'' := SubtreeContiguous(spans, root, e.span, e.depth);
    j := |b|;
    var own := Tree(spans, e.span, e.depth);
    var k := |b| + 1 + |b'|;
    assert t == b + ([Placed(p, e.depth - 1)] + (b' + own + a')) + a;
    assert own[0] == e;
    assert t[j] == Placed(p, e.depth - 1) && t[k] == e;
  }

  lemma RootFirst(spans: seq<Span>, root: Span)
    requires IsTop(spans, root)
    ensures Tree(spans, root, 0) != [] && Tree(spans, root, 0)[0] == Placed(root, 0)
  {}
}
