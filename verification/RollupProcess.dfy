// The span table, its rollup and the staged recompute, changed table by table.
module RollupProcess {
  import opened Text
  import opened RollupSpec
  import opened RollupTheorems

  /** Where a recompute is interrupted, if anywhere. */
  datatype Failure = Nowhere | AtFill | AtReplace

  class Database {
    var raw: seq<Row>
    var parts: seq<Part>
    var staging: Option<Part>

    constructor ()
      ensures Abs() == NEW
    {
      raw, parts, staging := [], [], None;
    }

    ghost function Abs(): Table
      reads this
    {
      Table(raw, parts, staging)
    }

    /** An insert into the span table; the view writes its aggregate as a new part. */
    method InsertSpans(batch: seq<Row>)
      modifies this`raw, this`parts
      ensures Abs() == Step(old(Abs()), Insert(batch))
    {
      raw := raw + batch;
      parts := parts + [GroupBatch(batch)];
    }

    method MergeParts(i: nat, j: nat)
      modifies this`parts
      ensures Abs() == Step(old(Abs()), Merge(i, j))
    {
      if i < j < |parts| {
        parts := parts[..i] + parts[i + 1..j] + parts[j + 1..] + [RollupSpec.MergeParts(parts[i], parts[j])];
      }
    }

    /** What other clients and the background do in the meantime. */
    method Others(events: seq<Event>)
      requires Maintenance(events)
      modifies this`raw, this`parts
      ensures Abs() == Run(old(Abs()), events)
    {
      for n := 0 to |events|
        invariant Abs() == Run(old(Abs()), events[..n])
      {
        assert events[n] in events && events[..n + 1][..n] == events[..n];
        match events[n]
        case Insert(batch) => InsertSpans(batch);
        case Merge(i, j) => MergeParts(i, j);
      }
      assert events[..|events|] == events;
    }

    /** `REPLACE PARTITION day FROM staging`. */
    method ReplacePartition(day: nat)
      modifies this`parts
      ensures Abs() == Step(old(Abs()), Event.ReplacePartition(day))
    {
      if staging.Some? {
        var kept: seq<Part> := [];
        for n := 0 to |parts|
          invariant parts == old(parts) && kept == WithoutDay(parts, day)[..n]
        {
          kept := kept + [Outside(parts[n], day)];
        }
        parts := kept + [Inside(staging.value, day)];
      }
    }

    /** `recompute_table`: stage the day, swap it in, drop the staging table whatever happened. Between
        staging and the swap others may insert. An interrupted recompute changes no cell. */
    method RecomputeTable(day: nat, between: seq<Event>, failure: Failure)
      requires Maintenance(between)
      modifies this
      ensures staging == None
      ensures failure == Nowhere ==> Abs() == Step(AfterRecompute(old(Abs()), between, day), DropStaging)
      ensures failure != Nowhere ==>
        parts == (if failure == AtFill then old(parts) else Run(old(Abs()), between).parts)
    {
      staging := None;
      if failure == AtFill { return; }
      staging := Some(GroupBatch(DayView(raw, day)));
      ghost var staged := Abs();
      assert staged == Step(old(Abs()), Stage(day));
      Others(between);
      if failure == AtReplace {
        RunIgnoresStaging(old(Abs()), staged, between);
        staging := None;
        return;
      }
      ReplacePartition(day);
      staging := None;
    }
  }

  lemma {:induction false} RunIgnoresStaging(t: Table, u: Table, events: seq<Event>)
    requires Maintenance(events) && t.raw == u.raw && t.parts == u.parts
    ensures Run(t, events).parts == Run(u, events).parts && Run(t, events).raw == Run(u, events).raw
  {
    hide MergeAt, GroupBatch;
    if events != [] {
      assert events[|events| - 1] in events;
      RunIgnoresStaging(t, u, events[..|events| - 1]);
    }
  }
}
