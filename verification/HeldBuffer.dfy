// What a bounded buffer of held spans should amount to, whatever order the pieces arrive in: a reference
// for both session-aware exporters.
module HeldBuffer {

  datatype Span = Span(id: nat)

  const MAX_PENDING_SPANS: nat := 2000

  /** One export continuation: its spans, and whether it found a session (so that the buffer was released). */
  datatype Continuation = Continuation(spans: seq<Span>, live: bool)

  function Cut(n: nat): nat {
    if n > MAX_PENDING_SPANS then n - MAX_PENDING_SPANS else 0
  }

  /** The last min(n, MAX_PENDING_SPANS) of n spans. */
  function Newest(held: seq<Span>): seq<Span> {
    held[Cut(|held|)..]
  }

  function Oldest(held: seq<Span>): seq<Span> {
    held[..Cut(|held|)]
  }

  /** The exporters' own hold: append, and give up the overflow from the front. */
  function Trim(pending: seq<Span>, spans: seq<Span>): (seq<Span>, seq<Span>) {
    var grown := pending + spans;
    var overflow := |grown| - MAX_PENDING_SPANS;
    if overflow > 0 then (grown[overflow..], grown[..overflow]) else (grown, [])
  }

  /** Everything held since the buffer was last released. */
  function HeldSince(past: seq<Continuation>): seq<Span> {
    if past == [] || past[|past| - 1].live then []
    else HeldSince(past[..|past| - 1]) + past[|past| - 1].spans
  }

  /** What has left the buffer for the collector, in order. */
  function Released(past: seq<Continuation>): seq<Span> {
    if past == [] then []
    else
      var front, last := past[..|past| - 1], past[|past| - 1];
      if last.live then Released(front) + (Newest(HeldSince(front)) + last.spans) else Released(front)
  }

  /** What had been dropped when the buffer was last released. */
  function DroppedBefore(past: seq<Continuation>): seq<Span> {
    if past == [] then []
    else
      var front, last := past[..|past| - 1], past[|past| - 1];
      if last.live then DroppedBefore(front) + Oldest(HeldSince(front)) else DroppedBefore(front)
  }

  function Dropped(past: seq<Continuation>): seq<Span> {
    DroppedBefore(past) + Oldest(HeldSince(past))
  }

  /** All spans whose continuation has run, in the order the continuations ran. */
  function Arrived(past: seq<Continuation>): seq<Span> {
    if past == [] then [] else Arrived(past[..|past| - 1]) + past[|past| - 1].spans
  }

  function ArrivedBefore(past: seq<Continuation>): seq<Span> {
    if past == [] then []
    else if past[|past| - 1].live then Arrived(past)
    else ArrivedBefore(past[..|past| - 1])
  }

  function Flat(batches: seq<seq<Span>>): seq<Span> {
    if batches == [] then [] else Flat(batches[..|batches| - 1]) + batches[|batches| - 1]
  }

  /** The buffer keeps the last 2000 of what is held, and gives up the ones before. */
  lemma NewestReads(held: seq<Span>)
    ensures var n := if |held| <= 2000 then 0 else |held| - 2000;
      Newest(held) == held[n..] && Oldest(held) == held[..n]
  {}

  /** Trimming after every hold is the same as trimming everything once. */
  lemma TrimmingComposes(held: seq<Span>, more: seq<Span>)
    ensures Newest(held + more) == Newest(Newest(held) + more)
    ensures Oldest(held + more) == Oldest(held) + Oldest(Newest(held) + more)
  {
    var cut := Cut(|held|);
    assert held + more == held[..cut] + (held[cut..] + more);
    assert |Newest(held) + more| == |held| - cut + |more|;
    assert Cut(|held + more|) == cut + Cut(|Newest(held) + more|);
  }

  lemma NewestAndOldest(held: seq<Span>)
    ensures Oldest(held) + Newest(held) == held && |Newest(held)| <= MAX_PENDING_SPANS
  {}

  // ------------------------------------------------------------- order and counting

  /** `c` is `a` and `b` merged, each in its own order. */
  ghost predicate Merge(a: seq<Span>, b: seq<Span>, c: seq<Span>)
    decreases |c|
  {
    if c == [] then a == [] && b == []
    else
      var rest, x := c[..|c| - 1], c[|c| - 1];
      || (a != [] && a[|a| - 1] == x && Merge(a[..|a| - 1], b, rest))
      || (b != [] && b[|b| - 1] == x && Merge(a, b[..|b| - 1], rest))
  }

  lemma {:induction false} MergeMore(a: seq<Span>, b: seq<Span>, c: seq<Span>, x: seq<Span>)
    requires Merge(a, b, c)
    ensures Merge(a + x, b, c + x) && Merge(a, b + x, c + x)
  {
    if x == [] {
      assert a + x == a && b + x == b && c + x == c;
    } else {
      var front := x[..|x| - 1];
      MergeMore(a, b, c, front);
      assert (c + x)[..|c + x| - 1] == c + front;
      assert (a + x)[..|a + x| - 1] == a + front && (b + x)[..|b + x| - 1] == b + front;
    }
  }

  lemma SnocCounts(s: seq<Span>)
    requires s != []
    ensures multiset(s) == multiset(s[..|s| - 1]) + multiset{s[|s| - 1]}
  {
    assert s == s[..|s| - 1] + [s[|s| - 1]];
  }

  lemma {:induction false} MergeCounts(a: seq<Span>, b: seq<Span>, c: seq<Span>)
    requires Merge(a, b, c)
    ensures multiset(c) == multiset(a) + multiset(b)
    decreases |c|
  {
    if c != [] {
      SnocCounts(c);
      var rest := c[..|c| - 1];
      if a != [] && a[|a| - 1] == c[|c| - 1] && Merge(a[..|a| - 1], b, rest) {
        SnocCounts(a);
        MergeCounts(a[..|a| - 1], b, rest);
      } else {
        SnocCounts(b);
        MergeCounts(a, b[..|b| - 1], rest);
      }
    }
  }

  lemma {:induction false} ArrivedSplit(past: seq<Continuation>)
    ensures Arrived(past) == ArrivedBefore(past) + HeldSince(past)
  {
    if past != [] && !past[|past| - 1].live {
      var front, last := past[..|past| - 1], past[|past| - 1];
      ArrivedSplit(front);
      assert ArrivedBefore(front) + (HeldSince(front) + last.spans) == ArrivedBefore(front) + HeldSince(front) + last.spans;
    }
  }

  lemma {:induction false} SettledOrder(past: seq<Continuation>)
    ensures Merge(Released(past), DroppedBefore(past), ArrivedBefore(past))
    decreases |past|, 0
  {
    hide Merge, Newest, Oldest, HeldSince;
    if past == [] {
      NothingMerged();
    } else {
      var front, last := past[..|past| - 1], past[|past| - 1];
      if last.live {
        OpenOrder(front);
        MergeMore(Released(front) + Newest(HeldSince(front)), Dropped(front), Arrived(front), last.spans);
        Associative(Released(front), Newest(HeldSince(front)), last.spans);
      } else {
        SettledOrder(front);
      }
    }
  }

  lemma NothingMerged()
    ensures Merge([], [], [])
  {}

  lemma Associative(a: seq<Span>, b: seq<Span>, c: seq<Span>)
    ensures a + b + c == a + (b + c)
  {}

  /** The spans released and still held, together with the dropped ones, are the arrivals: nothing is
      reordered, and drops leave gaps only. */
  lemma {:induction false} OpenOrder(past: seq<Continuation>)
    ensures Merge(Released(past) + Newest(HeldSince(past)), Dropped(past), Arrived(past))
    decreases |past|, 1
  {
    hide Merge, Newest, Oldest, HeldSince, Released, DroppedBefore, ArrivedBefore, Arrived;
    SettledOrder(past);
    ArrivedSplit(past);
    var held := HeldSince(past);
    NewestAndOldest(held);
    MergeMore(Released(past), DroppedBefore(past), ArrivedBefore(past), Oldest(held));
    MergeMore(Released(past), Dropped(past), ArrivedBefore(past) + Oldest(held), Newest(held));
    Associative(ArrivedBefore(past), Oldest(held), Newest(held));
  }

  /** One more continuation, as the exporters process it. */
  lemma {:induction false} AnotherContinuation(past: seq<Continuation>, c: Continuation)
    ensures var next := past + [c];
      && Arrived(next) == Arrived(past) + c.spans
      && (c.live ==>
            && HeldSince(next) == [] && Released(next) == Released(past) + (Newest(HeldSince(past)) + c.spans)
            && DroppedBefore(next) == Dropped(past) && Dropped(next) == Dropped(past))
      && (!c.live ==>
            && Released(next) == Released(past) && DroppedBefore(next) == DroppedBefore(past)
            && Newest(HeldSince(next)) == Newest(Newest(HeldSince(past)) + c.spans)
            && Oldest(HeldSince(next)) == Oldest(HeldSince(past)) + Oldest(Newest(HeldSince(past)) + c.spans))
  {
    var next := past + [c];
    assert next[..|next| - 1] == past;
    if c.live {
      assert Oldest([]) == [] && Dropped(past) + [] == Dropped(past);
    } else {
      TrimmingComposes(HeldSince(past), c.spans);
    }
  }

  // -------------------------------------------------------------------- in flight

  function Without<T>(batches: seq<T>, k: nat): seq<T>
    requires k < |batches|
  {
    batches[..k] + batches[k + 1..]
  }

  lemma {:induction false} FlatConcat(a: seq<seq<Span>>, b: seq<seq<Span>>)
    ensures Flat(a + b) == Flat(a) + Flat(b)
  {
    if b == [] {
      assert a + b == a;
    } else {
      var front := b[..|b| - 1];
      assert (a + b)[..|a + b| - 1] == a + front;
      FlatConcat(a, front);
      assert Flat(a) + (Flat(front) + b[|b| - 1]) == Flat(a) + Flat(front) + b[|b| - 1];
    }
  }

  lemma FlatOne(batch: seq<Span>)
    ensures Flat([batch]) == batch
  {
    assert [batch][..0] == [];
  }

  lemma MiddleCounts(a: seq<Span>, b: seq<Span>, c: seq<Span>)
    ensures multiset(a + (b + c)) == multiset(a + c) + multiset(b)
  {}

  /** Taking one batch out takes exactly its spans out. */
  lemma {:induction false} FlatWithout(batches: seq<seq<Span>>, k: nat)
    requires k < |batches|
    ensures multiset(Flat(batches)) == multiset(Flat(Without(batches, k))) + multiset(batches[k])
  {
    hide Flat;
    var x, y := batches[..k], batches[k + 1..];
    assert batches == x + ([batches[k]] + y);
    FlatConcat(x, [batches[k]] + y);
    FlatConcat([batches[k]], y);
    FlatOne(batches[k]);
    FlatConcat(x, y);
    MiddleCounts(Flat(x), batches[k], Flat(y));
  }

  lemma FlatAppend(batches: seq<seq<Span>>, batch: seq<Span>)
    ensures Flat(batches + [batch]) == Flat(batches) + batch
  {
    assert (batches + [batch])[..|batches|] == batches;
  }
}
