// The insert deduplication token: `topic|p:lo-hi,p:lo-hi` over the tracked offset ranges.
module DedupToken {
  import opened Basics
  import opened Text

  datatype Bounds = Bounds(lo: nat, hi: nat)

  type Ranges = map<nat, Bounds>

  datatype Entry = Entry(partition: nat, bounds: Bounds)

  // -------------------------------------------------------------------- tracking

  function Track(offsets: Ranges, partition: nat, offset: nat): Ranges {
    if partition !in offsets then
      offsets[partition := Bounds(offset, offset)]
    else
      var b := offsets[partition];
      offsets[partition := Bounds(Min(b.lo, offset), Max(b.hi, offset))]
  }

  function TrackAll(tracked: seq<(nat, nat)>): Ranges {
    if tracked == [] then map[]
    else Track(TrackAll(tracked[..|tracked| - 1]), tracked[|tracked| - 1].0, tracked[|tracked| - 1].1)
  }

  /** `offsets` maps each partition that occurs to its least and greatest offset. */
  ghost predicate TightBounds(offsets: Ranges, tracked: seq<(nat, nat)>) {
    && (forall t :: t in tracked ==> t.0 in offsets && offsets[t.0].lo <= t.1 <= offsets[t.0].hi)
    && (forall p :: p in offsets ==> (p, offsets[p].lo) in tracked && (p, offsets[p].hi) in tracked)
  }

  lemma TrackKeepsBounds(offsets: Ranges, tracked: seq<(nat, nat)>, p: nat, o: nat)
    requires TightBounds(offsets, tracked)
    ensures TightBounds(Track(offsets, p, o), tracked + [(p, o)])
  {
    var more := tracked + [(p, o)];
    assert more[|tracked|] == (p, o);
    forall t | t in tracked ensures t in more {}
  }

  lemma {:induction false} TrackAllBounds(tracked: seq<(nat, nat)>)
    ensures TightBounds(TrackAll(tracked), tracked)
  {
    if tracked != [] {
      var front, last := tracked[..|tracked| - 1], tracked[|tracked| - 1];
      TrackAllBounds(front);
      TrackKeepsBounds(TrackAll(front), front, last.0, last.1);
      assert tracked == front + [(last.0, last.1)];
    }
  }

  /** The tracked ranges depend on which offsets were tracked, not on their order or multiplicity. */
  lemma TrackingOrderIrrelevant(a: seq<(nat, nat)>, b: seq<(nat, nat)>)
    requires forall t :: t in a <==> t in b
    ensures TrackAll(a) == TrackAll(b)
  {
    TrackAllBounds(a);
    TrackAllBounds(b);
    var x, y := TrackAll(a), TrackAll(b);
    forall p | p in x ensures p in y && x[p] == y[p] {
      assert (p, x[p].lo) in b && (p, x[p].hi) in b;
      assert (p, y[p].lo) in a && (p, y[p].hi) in a;
    }
    forall p | p in y ensures p in x {
      assert (p, y[p].lo) in a;
    }
  }

  // ------------------------------------------------------------------- rendering

  lemma {:induction false} HasLeast(s: set<nat>)
    requires s != {}
    ensures exists x :: x in s && forall y :: y in s ==> x <= y
  {
    var a :| a in s;
    if s != {a} {
      HasLeast(s - {a});
      var x :| x in s - {a} && forall y :: y in s - {a} ==> x <= y;
      var m := Min(a, x);
      assert forall y :: y in s ==> y == a || y in s - {a};
      assert m in s && forall y :: y in s ==> m <= y;
    }
  }

  function Least(s: set<nat>): (x: nat)
    requires s != {}
    ensures x in s && forall y :: y in s ==> x <= y
  {
    HasLeast(s);
    var x :| x in s && forall y :: y in s ==> x <= y;
    x
  }

  /** `sorted(offsets.items())`. */
  function SortedEntries(offsets: Ranges): (entries: seq<Entry>)
    ensures forall e :: e in entries <==> e.partition in offsets && offsets[e.partition] == e.bounds
    ensures forall i, j :: 0 <= i < j < |entries| ==> entries[i].partition < entries[j].partition
    decreases |offsets|
  {
    if offsets == map[] then []
    else
      var p := Least(offsets.Keys);
      var rest := offsets - {p};
      assert rest.Keys == offsets.Keys - {p};
      assert |rest.Keys| == |rest| && |offsets.Keys| == |offsets|;
      [Entry(p, offsets[p])] + SortedEntries(rest)
  }

  function RenderEntry(e: Entry): string {
    Decimal(e.partition) + ":" + Decimal(e.bounds.lo) + "-" + Decimal(e.bounds.hi)
  }

  /** `",".join(...)` over the rendered entries. */
  function RenderEntries(entries: seq<Entry>): string {
    if entries == [] then ""
    else if |entries| == 1 then RenderEntry(entries[0])
    else RenderEntry(entries[0]) + "," + RenderEntries(entries[1..])
  }

  function Token(topic: string, offsets: Ranges): string {
    topic + "|" + RenderEntries(SortedEntries(offsets))
  }

  /** What follows the first entry in the rendering of a non-empty list. */
  ghost function Rest(entries: seq<Entry>): string
    requires entries != []
  {
    if |entries| == 1 then "" else "," + RenderEntries(entries[1..])
  }

  lemma Reassociate(p: string, l: string, h: string, x: string)
    ensures p + ":" + l + "-" + h + x == p + (":" + (l + ("-" + (h + x))))
  {}

  lemma FirstEntry(a: Entry, x: string, b: Entry, y: string)
    requires EndsDigits(x) && EndsDigits(y)
    requires RenderEntry(a) + x == RenderEntry(b) + y
    ensures a == b && x == y
  {
    Reassociate(Decimal(a.partition), Decimal(a.bounds.lo), Decimal(a.bounds.hi), x);
    Reassociate(Decimal(b.partition), Decimal(b.bounds.lo), Decimal(b.bounds.hi), y);
    var ha, hb := Decimal(a.bounds.hi) + x, Decimal(b.bounds.hi) + y;
    var la, lb := Decimal(a.bounds.lo) + ("-" + ha), Decimal(b.bounds.lo) + ("-" + hb);
    NumberSplit(a.partition, ":" + la, b.partition, ":" + lb);
    assert la == (":" + la)[1..] == (":" + lb)[1..] == lb;
    NumberSplit(a.bounds.lo, "-" + ha, b.bounds.lo, "-" + hb);
    assert ha == ("-" + ha)[1..] == ("-" + hb)[1..] == hb;
    NumberSplit(a.bounds.hi, x, b.bounds.hi, y);
  }

  lemma RenderNonEmpty(entries: seq<Entry>)
    requires entries != []
    ensures RenderEntries(entries) == RenderEntry(entries[0]) + Rest(entries)
    ensures RenderEntries(entries) != "" && EndsDigits(Rest(entries))
  {
    assert |RenderEntry(entries[0])| >= 1;
    if |entries| > 1 {
      assert RenderEntry(entries[0]) + "," + RenderEntries(entries[1..])
          == RenderEntry(entries[0]) + ("," + RenderEntries(entries[1..]));
    } else {
      assert RenderEntry(entries[0]) + "" == RenderEntry(entries[0]);
    }
  }

  lemma RestStep(a: seq<Entry>, b: seq<Entry>)
    requires a != [] && b != [] && Rest(a) == Rest(b)
    ensures RenderEntries(a[1..]) == RenderEntries(b[1..])
    ensures a[1..] == [] <==> b[1..] == []
  {
    if |a| > 1 && |b| > 1 {
      assert RenderEntries(a[1..]) == Rest(a)[1..];
      assert RenderEntries(b[1..]) == Rest(b)[1..];
    }
  }

  lemma {:induction false} RenderInjective(a: seq<Entry>, b: seq<Entry>)
    requires RenderEntries(a) == RenderEntries(b)
    ensures a == b
  {
    if a == [] || b == [] {
      if a != [] { RenderNonEmpty(a); }
      if b != [] { RenderNonEmpty(b); }
    } else {
      RenderNonEmpty(a);
      RenderNonEmpty(b);
      FirstEntry(a[0], Rest(a), b[0], Rest(b));
      RestStep(a, b);
      RenderInjective(a[1..], b[1..]);
      assert a == [a[0]] + a[1..] && b == [b[0]] + b[1..];
    }
  }

  /** The token as written, for one partition and for two: ascending partitions, each with its least and its
      greatest offset. */
  lemma TokenReads(topic: string, p: nat, b: Bounds, q: nat, c: Bounds)
    requires p < q
    ensures Token(topic, map[p := b]) == topic + "|" + (Decimal(p) + ":" + Decimal(b.lo) + "-" + Decimal(b.hi))
    ensures Token(topic, map[q := c, p := b]) == topic + "|" +
      ((Decimal(p) + ":" + Decimal(b.lo) + "-" + Decimal(b.hi)) + "," + (Decimal(q) + ":" + Decimal(c.lo) + "-" + Decimal(c.hi)))
  {
    hide Decimal;
    OneEntry(p, b);
    var one, two := map[p := b], map[q := c, p := b];
    assert two.Keys == {p, q} && p in two.Keys;
    assert Least(two.Keys) == p && two - {p} == map[q := c];
    OneEntry(q, c);
    assert SortedEntries(two) == [Entry(p, b)] + [Entry(q, c)];
    assert RenderEntries([Entry(q, c)]) == RenderEntry(Entry(q, c));
    assert [Entry(p, b), Entry(q, c)][1..] == [Entry(q, c)];
  }

  lemma OneEntry(p: nat, b: Bounds)
    ensures SortedEntries(map[p := b]) == [Entry(p, b)]
  {
    var m := map[p := b];
    assert m.Keys == {p} && p in m.Keys;
    assert Least(m.Keys) == p && m - {p} == map[];
  }

  /** For a fixed topic, equal tokens name equal ranges. */
  lemma TokenInjective(topic: string, a: Ranges, b: Ranges)
    requires Token(topic, a) == Token(topic, b)
    ensures a == b
  {
    var ea, eb := SortedEntries(a), SortedEntries(b);
    var ra, rb := RenderEntries(ea), RenderEntries(eb);
    assert ra == Token(topic, a)[|topic| + 1..] && rb == Token(topic, b)[|topic| + 1..];
    RenderInjective(ea, eb);
    forall p | p in a ensures p in b && a[p] == b[p] {
      assert Entry(p, a[p]) in ea;
    }
    forall p | p in b ensures p in a {
      assert Entry(p, b[p]) in eb;
    }
  }
}
