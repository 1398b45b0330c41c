// What every run of the archiver keeps, whatever crashes happen and wherever a flush stops.
module ArchiverSafety {
  import opened Basics
  import opened Text
  import opened Framing
  import opened ArchiveKey
  import opened Otlp
  import opened ArchiverSpec

  // ----------------------------------------------------- one message, by tenant

  lemma {:induction false} TenantsDistinct(rss: seq<ResourceSpans>)
    ensures forall i, j :: 0 <= i < j < |Tenants(rss)| ==> Tenants(rss)[i] != Tenants(rss)[j]
    ensures forall r :: r in rss ==> FirstTenant(r.attributes) in Tenants(rss)
  {
    if rss != [] {
      var front := rss[..|rss| - 1];
      TenantsDistinct(front);
      forall r | r in rss ensures FirstTenant(r.attributes) in Tenants(rss) {
        assert r in front || r == rss[|rss| - 1];
      }
    }
  }

  /** Splitting by tenant loses and duplicates nothing: each ResourceSpans is in its own tenant's
      share as often as it is in the message, and in no other. */
  lemma {:induction false} OwnedExactly(rss: seq<ResourceSpans>, t: string, r: ResourceSpans)
    ensures multiset(Owned(rss, t))[r] == if FirstTenant(r.attributes) == t then multiset(rss)[r] else 0
  {
    if rss != [] {
      OwnedExactly(rss[..|rss| - 1], t, r);
      assert rss == rss[..|rss| - 1] + [rss[|rss| - 1]];
    }
  }

  lemma OwnedMembers(rss: seq<ResourceSpans>, t: string)
    ensures forall r :: r in Owned(rss, t) <==> r in rss && FirstTenant(r.attributes) == t
  {
    forall r ensures r in Owned(rss, t) <==> r in rss && FirstTenant(r.attributes) == t {
      OwnedExactly(rss, t, r);
      assert r in Owned(rss, t) <==> r in multiset(Owned(rss, t));
      assert r in rss <==> r in multiset(rss);
    }
  }

  lemma NoPayloads(t: string)
    ensures PayloadsOf([], t) == []
  {}

  lemma PayloadsOfAppend(parts: seq<Part>, part: Part, t: string)
    ensures PayloadsOf(parts + [part], t)
         == if part.tenant == t then PayloadsOf(parts, t) + [part.payload] else PayloadsOf(parts, t)
  {
    assert (parts + [part])[..|parts|] == parts;
  }

  lemma {:induction false} SerializedPayloads(w: World, rss: seq<ResourceSpans>, tenants: seq<string>, t: string)
    requires forall i, j :: 0 <= i < j < |tenants| ==> tenants[i] != tenants[j]
    ensures PayloadsOf(Serialized(w, rss, tenants), t)
         == if t in tenants then [w.serialize(Owned(rss, t))] else []
  {
    hide Owned, PayloadsOf;
    NoPayloads(t);
    if tenants != [] {
      var front, last := tenants[..|tenants| - 1], tenants[|tenants| - 1];
      SerializedPayloads(w, rss, front, t);
      assert tenants == front + [last];
      PayloadsOfAppend(Serialized(w, rss, front), Part(last, w.serialize(Owned(rss, last))), t);
    }
  }

  /** What lands under a tenant for one message: nothing, the whole undecodable message under
      `unknown`, or the serialization of exactly that tenant's ResourceSpans. */
  lemma PartsBelongToTenant(w: World, t: string, p: nat, o: nat)
    requires p < |w.logs| && o < |w.logs[p]|
    ensures var payload := w.logs[p][o];
      PartsAt(w, t, p, o) ==
        if payload == [] then []
        else if w.parse(payload).None? then (if t == UNKNOWN then [payload] else [])
        else if t in Tenants(w.parse(payload).value) then [w.serialize(Owned(w.parse(payload).value, t))]
        else []
  {
    var payload := w.logs[p][o];
    if payload != [] {
      match w.parse(payload)
      case None =>
        NoPayloads(t);
        PayloadsOfAppend([], Part(UNKNOWN, payload), t);
        assert [] + [Part(UNKNOWN, payload)] == [Part(UNKNOWN, payload)];
      case Some(rss) =>
        TenantsDistinct(rss);
        SerializedPayloads(w, rss, Tenants(rss), t);
    }
  }

  // ------------------------------------------------------------------ invariant

  ghost predicate Shaped(w: World, s: State) {
    && |s.position| == |s.committed| == |s.base| == |w.logs|
    && forall p :: 0 <= p < |w.logs| ==>
         && s.committed[p] <= s.position[p] <= |w.logs[p]|
         && s.base[p] <= s.position[p]
         && (!s.failed ==> s.committed[p] <= s.base[p])
  }

  /** A tenant's group for a partition holds exactly its payloads of the window [from, end), its
      bounds being the first and last messages that have any; with none there is no group. */
  ghost predicate GroupMatches(w: World, g: Groups, t: string, p: nat, from: nat, end: nat) {
    var k := GroupKey(t, p);
    var window := Range(w, t, p, from, end);
    if k in g.at then
      var group := g.at[k];
      && from <= group.first <= group.last < end
      && group.payloads == window
      && Range(w, t, p, from, group.first) == [] && PartsAt(w, t, p, group.first) != []
      && Range(w, t, p, group.last + 1, end) == [] && PartsAt(w, t, p, group.last) != []
    else window == []
  }

  ghost predicate BatchMatches(w: World, g: Groups, from: seq<nat>, end: seq<nat>)
    requires |from| == |end|
  {
    && Listed(g)
    && (forall k :: k in g.at ==> k.partition < |end|)
    && forall t, p :: 0 <= p < |end| ==> GroupMatches(w, g, t, p, from[p], end[p])
  }

  /** The object is what its name says: that tenant's payloads of all messages in [first, last]. */
  ghost predicate Correct(w: World, name: string, payloads: seq<Bytes>) {
    exists t, h: UtcHour, p: nat, f: nat, l: nat :: name == Key(t, h, p, f, l) && Holds(w, t, p, f, l, payloads)
  }

  ghost predicate Holds(w: World, t: string, p: nat, f: nat, l: nat, payloads: seq<Bytes>) {
    && f <= l && payloads == Range(w, t, p, f, l + 1)
    && PartsAt(w, t, p, f) != [] && PartsAt(w, t, p, l) != []
  }

  ghost predicate Archived(w: World, store: Store, t: string, p: nat, o: nat) {
    exists h: UtcHour, f: nat, l: nat :: f <= o <= l && Key(t, h, p, f, l) in store
  }

  ghost predicate ArchivedBelow(w: World, store: Store, upTo: seq<nat>) {
    forall t, p, o :: 0 <= p < |upTo| && 0 <= o < upTo[p] && PartsAt(w, t, p, o) != [] ==> Archived(w, store, t, p, o)
  }

  ghost predicate AllCorrect(w: World, store: Store) {
    forall name :: name in store ==> Correct(w, name, store[name])
  }

  ghost predicate Inv(w: World, s: State) {
    && Shaped(w, s) && BatchMatches(w, s.groups, s.base, s.position)
    && AllCorrect(w, s.store)
    && ArchivedBelow(w, s.store, s.committed) && ArchivedBelow(w, s.store, s.base)
  }

  // -------------------------------------------------------------------- deliver

  lemma {:induction false} AddAllAt(g: Groups, parts: seq<Part>, p: nat, o: nat, k: GroupKey)
    ensures var mine := if k.partition == p then PayloadsOf(parts, k.tenant) else [];
      var after := AddAll(g, parts, p, o).at;
      && (mine == [] ==> (k in after <==> k in g.at) && (k in g.at ==> after[k] == g.at[k]))
      && (mine != [] ==> k in after)
      && (mine != [] && k !in g.at ==> after[k] == Group(mine, o, o))
      && (mine != [] && k in g.at ==>
           after[k] == Group(g.at[k].payloads + mine, Min(g.at[k].first, o), Max(g.at[k].last, o)))
  {
    if parts != [] {
      AddAllAt(g, parts[..|parts| - 1], p, o, k);
    }
  }

  lemma {:induction false} AddAllKeys(g: Groups, parts: seq<Part>, p: nat, o: nat, n: nat)
    requires p < n && forall k :: k in g.at ==> k.partition < n
    ensures forall k :: k in AddAll(g, parts, p, o).at ==> k.partition < n
  {
    if parts != [] {
      AddAllKeys(g, parts[..|parts| - 1], p, o, n);
    }
  }

  lemma DeliverMatches(w: World, g: Groups, t: string, p: nat, from: nat, o: nat)
    requires p < |w.logs| && o < |w.logs[p]| && from <= o
    requires GroupMatches(w, g, t, p, from, o)
    ensures GroupMatches(w, AddAll(g, Parts(w, w.logs[p][o]), p, o), t, p, from, o + 1)
  {
    hide Parts, PayloadsOf, AddAll, Range;
    var k := GroupKey(t, p);
    var parts := Parts(w, w.logs[p][o]);
    AddAllAt(g, parts, p, o, k);
    assert PartsAt(w, t, p, o) == PayloadsOf(parts, t);
    RangeStep(w, t, p, from, o);
    RangeEmpty(w, t, p, o + 1);
    if k in g.at {
      RangeStep(w, t, p, g.at[k].last + 1, o);
    }
  }

  lemma DeliverElsewhere(w: World, g: Groups, t: string, q: nat, from: nat, end: nat, p: nat, o: nat)
    requires p < |w.logs| && o < |w.logs[p]| && q != p
    requires GroupMatches(w, g, t, q, from, end)
    ensures GroupMatches(w, AddAll(g, Parts(w, w.logs[p][o]), p, o), t, q, from, end)
  {
    hide Parts, PayloadsOf, AddAll, Range, PartsAt;
    AddAllAt(g, Parts(w, w.logs[p][o]), p, o, GroupKey(t, q));
  }

  lemma DeliverKeeps(w: World, s: State, p: nat)
    requires Inv(w, s) && p < |w.logs| && s.position[p] < |w.logs[p]|
    ensures Inv(w, DeliverSpec(w, s, p))
  {
    hide Parts, PayloadsOf, AddAll, Range, PartsAt;
    var o := s.position[p];
    var parts := Parts(w, w.logs[p][o]);
    var next := DeliverSpec(w, s, p);
    AddAllListed(s.groups, parts, p, o);
    AddAllKeys(s.groups, parts, p, o, |w.logs|);
    forall t, q | 0 <= q < |w.logs|
      ensures GroupMatches(w, next.groups, t, q, s.base[q], next.position[q])
    {
      assert GroupMatches(w, s.groups, t, q, s.base[q], s.position[q]);
      if q == p {
        DeliverMatches(w, s.groups, t, p, s.base[p], o);
      } else {
        DeliverElsewhere(w, s.groups, t, q, s.base[q], s.position[q], p, o);
      }
    }
  }

  // ---------------------------------------------------------------------- flush

  lemma {:induction false} GroupIsItsRange(w: World, g: Groups, t: string, p: nat, from: nat, end: nat)
    requires GroupMatches(w, g, t, p, from, end) && GroupKey(t, p) in g.at
    ensures var group := g.at[GroupKey(t, p)]; Holds(w, t, p, group.first, group.last, group.payloads)
  {
    hide PartsAt;
    var group := g.at[GroupKey(t, p)];
    RangeSplit(w, t, p, from, group.first, end);
    RangeSplit(w, t, p, group.first, group.last + 1, end);
  }

  lemma {:induction false} PutFirstKeeps(w: World, store: Store, g: Groups, hour: UtcHour, n: nat,
      from: seq<nat>, end: seq<nat>)
    requires |from| == |end| && BatchMatches(w, g, from, end) && n <= |g.order|
    requires AllCorrect(w, store)
    ensures AllCorrect(w, PutFirst(store, g, hour, n))
    ensures forall name :: name in store ==> name in PutFirst(store, g, hour, n)
    ensures forall i :: 0 <= i < n ==> ObjectName(g.order[i], g.at[g.order[i]], hour) in PutFirst(store, g, hour, n)
  {
    hide Key, Range, PartsAt;
    if n > 0 {
      PutFirstKeeps(w, store, g, hour, n - 1, from, end);
      var k := g.order[n - 1];
      assert k in g.at;
      assert GroupMatches(w, g, k.tenant, k.partition, from[k.partition], end[k.partition]);
      GroupIsItsRange(w, g, k.tenant, k.partition, from[k.partition], end[k.partition]);
      assert Correct(w, ObjectName(k, g.at[k], hour), g.at[k].payloads);
    }
  }

  lemma {:induction false} EmptyRangeMember(w: World, t: string, p: nat, from: nat, end: nat, o: nat)
    requires Range(w, t, p, from, end) == [] && from <= o < end
    ensures PartsAt(w, t, p, o) == []
  {
    hide PartsAt;
    if PartsAt(w, t, p, o) != [] {
      InRange(w, t, p, from, end, o, PartsAt(w, t, p, o)[0]);
      assert false;
    }
  }

  /** With all groups put, everything below the position is archived. */
  lemma AllPutsArchive(w: World, s: State, store: Store, hour: UtcHour)
    requires Shaped(w, s) && BatchMatches(w, s.groups, s.base, s.position)
    requires ArchivedBelow(w, s.store, s.base) && forall name :: name in s.store ==> name in store
    requires forall k :: k in s.groups.at ==> ObjectName(k, s.groups.at[k], hour) in store
    ensures ArchivedBelow(w, store, s.position)
  {
    hide Key, Range, PartsAt;
    forall t, p, o | 0 <= p < |s.position| && 0 <= o < s.position[p] && PartsAt(w, t, p, o) != []
      ensures Archived(w, store, t, p, o)
    {
      if o < s.base[p] {
        assert Archived(w, s.store, t, p, o);
      } else {
        assert GroupMatches(w, s.groups, t, p, s.base[p], s.position[p]);
        var k := GroupKey(t, p);
        if k !in s.groups.at {
          EmptyRangeMember(w, t, p, s.base[p], s.position[p], o);
          assert false;
        } else {
          var group := s.groups.at[k];
          if o < group.first {
            EmptyRangeMember(w, t, p, s.base[p], group.first, o);
            assert false;
          } else if group.last < o {
            EmptyRangeMember(w, t, p, group.last + 1, s.position[p], o);
            assert false;
          }
          assert Key(t, hour, p, group.first, group.last) in store;
        }
      }
    }
  }

  lemma EmptyBatchMatches(w: World, at: seq<nat>)
    ensures BatchMatches(w, EMPTY, at, at)
  {
    hide PartsAt;
  }

  lemma MoreObjects(w: World, store: Store, more: Store, upTo: seq<nat>)
    requires ArchivedBelow(w, store, upTo) && forall name :: name in store ==> name in more
    ensures ArchivedBelow(w, more, upTo)
  {
    hide Key, Range, PartsAt;
    forall t, p, o | 0 <= p < |upTo| && 0 <= o < upTo[p] && PartsAt(w, t, p, o) != [] ensures Archived(w, more, t, p, o) {
      assert Archived(w, store, t, p, o);
    }
  }

  lemma FlushKeeps(w: World, s: State, hour: UtcHour, outcome: Outcome)
    requires Inv(w, s)
    ensures Inv(w, FlushSpec(w, s, hour, outcome))
  {
    hide Key, Range, PartsAt, PutFirst, Archived, GroupMatches;
    var t := FlushSpec(w, s, hour, outcome);
    EmptyBatchMatches(w, s.position);
    if s.groups.at == map[] {
      AllPutsArchive(w, s, s.store, hour);
    } else {
      var n := |s.groups.order|;
      var puts := if outcome.PutRaised? then Min(outcome.puts, n - 1) else n;
      var store := PutFirst(s.store, s.groups, hour, puts);
      PutFirstKeeps(w, s.store, s.groups, hour, puts, s.base, s.position);
      MoreObjects(w, s.store, store, s.committed);
      MoreObjects(w, s.store, store, s.base);
      if !outcome.PutRaised? {
        forall k | k in s.groups.at ensures ObjectName(k, s.groups.at[k], hour) in store {
          var i :| 0 <= i < n && s.groups.order[i] == k;
        }
        AllPutsArchive(w, s, store, hour);
      }
    }
  }

  lemma StepKeeps(w: World, s: State, e: Event)
    requires Inv(w, s)
    ensures Inv(w, Step(w, s, e))
  {
    hide Key, Range, PartsAt, PutFirst, Archived, GroupMatches;
    match e
    case Deliver(p) =>
      if !s.failed && p < |w.logs| && s.position[p] < |w.logs[p]| {
        DeliverKeeps(w, s, p);
      }
    case Flush(hour, outcome) => FlushKeeps(w, s, hour, outcome);
    case Restart => EmptyBatchMatches(w, s.committed);
  }

  lemma {:induction false} RunKeeps(w: World, events: seq<Event>)
    ensures Inv(w, Run(w, Initial(w), events))
  {
    hide Step, GroupMatches, Archived, Correct;
    if events == [] {
      EmptyBatchMatches(w, Initial(w).position);
    } else {
      RunKeeps(w, events[..|events| - 1]);
      StepKeeps(w, Run(w, Initial(w), events[..|events| - 1]), events[|events| - 1]);
    }
  }

  // ------------------------------------------------------------------- theorems

  /** Every stored object holds exactly what its name says, so two puts to one name always carry the
      same payloads, whichever runs, batches and hours produced them. */
  lemma {:induction false} NameDeterminesContent(w: World, events: seq<Event>, t: string, h: UtcHour, p: nat, f: nat, l: nat)
    requires Key(t, h, p, f, l) in Run(w, Initial(w), events).store
    ensures Holds(w, t, p, f, l, Run(w, Initial(w), events).store[Key(t, h, p, f, l)])
  {
    hide Key, Run, PartsAt, Range;
    RunKeeps(w, events);
    var name := Key(t, h, p, f, l);
    var payloads := Run(w, Initial(w), events).store[name];
    assert Correct(w, name, payloads);
    var t', h': UtcHour, p': nat, f': nat, l': nat :| name == Key(t', h', p', f', l') && Holds(w, t', p', f', l', payloads);
    KeyInjective(t, h, p, f, l, t', h', p', f', l');
  }

  ghost predicate Contains(store: Store, name: string, b: Bytes) {
    name in store && b in store[name]
  }

  /** Every payload of every committed message is in some object under its tenant. */
  lemma {:induction false} CommittedMeansArchived(w: World, events: seq<Event>, t: string, p: nat, o: nat, b: Bytes)
    requires p < |w.logs| && p < |Run(w, Initial(w), events).committed| && o < Run(w, Initial(w), events).committed[p]
    requires b in PartsAt(w, t, p, o)
    ensures exists h: UtcHour, f: nat, l: nat :: f <= o <= l && Contains(Run(w, Initial(w), events).store, Key(t, h, p, f, l), b)
  {
    hide Key, Run, PartsAt;
    RunKeeps(w, events);
    var store := Run(w, Initial(w), events).store;
    assert Archived(w, store, t, p, o);
    var h: UtcHour, f: nat, l: nat :| f <= o <= l && Key(t, h, p, f, l) in store;
    NameDeterminesContent(w, events, t, h, p, f, l);
    InRange(w, t, p, f, l + 1, o, b);
    assert Contains(store, Key(t, h, p, f, l), b);
  }

  /** A decodable message's ResourceSpans all survive, each in the payload of its own tenant. */
  lemma {:induction false} CommittedResourceSpansArchived(w: World, events: seq<Event>, p: nat, o: nat,
      rss: seq<ResourceSpans>, rs: ResourceSpans)
    requires p < |w.logs| && o < |w.logs[p]|
    requires p < |Run(w, Initial(w), events).committed| && o < Run(w, Initial(w), events).committed[p]
    requires w.logs[p][o] != [] && w.parse(w.logs[p][o]) == Some(rss) && rs in rss
    ensures var t := FirstTenant(rs.attributes);
      var mine := Owned(rss, t);
      && rs in mine && (forall r :: r in mine ==> FirstTenant(r.attributes) == t)
      && exists h: UtcHour, f: nat, l: nat ::
           f <= o <= l && Contains(Run(w, Initial(w), events).store, Key(t, h, p, f, l), w.serialize(mine))
  {
    hide Key, Run;
    var t := FirstTenant(rs.attributes);
    OwnedMembers(rss, t);
    TenantsDistinct(rss);
    PartsBelongToTenant(w, t, p, o);
    CommittedMeansArchived(w, events, t, p, o, w.serialize(Owned(rss, t)));
  }

  /** No object mixes tenants: each payload under a tenant is the serialization of ResourceSpans that
      are all its own, or an undecodable message kept verbatim under `unknown`. */
  lemma {:induction false} ObjectsAreSingleTenant(w: World, events: seq<Event>, t: string, h: UtcHour, p: nat,
      f: nat, l: nat, b: Bytes)
    returns (o: nat)
    requires p < |w.logs| && Contains(Run(w, Initial(w), events).store, Key(t, h, p, f, l), b)
    ensures f <= o <= l && o < |w.logs[p]| && w.logs[p][o] != []
    ensures w.parse(w.logs[p][o]).None? ==> t == UNKNOWN && b == w.logs[p][o]
    ensures w.parse(w.logs[p][o]).Some? ==>
      var mine := Owned(w.parse(w.logs[p][o]).value, t);
      b == w.serialize(mine) && forall r :: r in mine ==> FirstTenant(r.attributes) == t
  {
    hide Key, Run;
    NameDeterminesContent(w, events, t, h, p, f, l);
    o := RangeOrigin(w, t, p, f, l + 1, b);
    PartsBelongToTenant(w, t, p, o);
    match w.parse(w.logs[p][o])
    case None =>
    case Some(rss) => OwnedMembers(rss, t);
  }
}
