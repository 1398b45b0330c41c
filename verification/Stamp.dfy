// The gateway's stamp: trusted resource attributes replace whatever the sender claimed, so that both
// downstream readers see the authenticated tenant.
module Stamp {
  import opened Framing
  import opened Otlp
  import ArchiverSpec
  import NormalizerSpec

  const PROJECT: string := "project.id"
  const REGION_KEY: string := "data.region"
  const SESSION_PREFIX: string := "mcpobs.session."
  const SOFT_QUOTA: Attribute := Attribute("mcpobs.quota.soft_exceeded", BoolValue(true))

  datatype Principal = Principal(tenant: string, project: string, session: seq<(string, string)>)

  /** A dict of trusted keys in insertion order. */
  type Trusted = seq<(string, string)>

  predicate Has(t: Trusted, key: string) {
    exists i :: 0 <= i < |t| && t[i].0 == key
  }

  /** Dict assignment: in place for a known key, else at the end. */
  function Assign(t: Trusted, key: string, value: string): Trusted {
    if t == [] then [(key, value)]
    else if t[0].0 == key then [(key, value)] + t[1..]
    else [t[0]] + Assign(t[1..], key, value)
  }

  function TrustedFor(p: Principal, region: string): Trusted {
    WithSession([(TENANT, p.tenant), (PROJECT, p.project), (REGION_KEY, region)], p.session)
  }

  function WithSession(t: Trusted, session: seq<(string, string)>): Trusted {
    if session == [] then t
    else
      var last := session[|session| - 1];
      Assign(WithSession(t, session[..|session| - 1]), SESSION_PREFIX + last.0, last.1)
  }

  function Untrusted(attributes: seq<Attribute>, t: Trusted): seq<Attribute> {
    if attributes == [] then []
    else
      var front, last := Untrusted(attributes[..|attributes| - 1], t), attributes[|attributes| - 1];
      if Has(t, last.key) then front else front + [last]
  }

  function AsAttributes(t: Trusted): seq<Attribute> {
    seq(|t|, i requires 0 <= i < |t| => Attribute(t[i].0, StringValue(t[i].1)))
  }

  /** The attributes of one ResourceSpans after the stamp. */
  function Stamped(attributes: seq<Attribute>, t: Trusted, soft: bool): seq<Attribute> {
    Untrusted(attributes, t) + AsAttributes(t) + if soft then [SOFT_QUOTA] else []
  }

  function StampedAll(rss: seq<ResourceSpans>, t: Trusted, soft: bool): seq<ResourceSpans> {
    seq(|rss|, i requires 0 <= i < |rss| => rss[i].(attributes := Stamped(rss[i].attributes, t, soft)))
  }

  // ------------------------------------------------------------- the trusted set

  ghost predicate DistinctKeys(t: Trusted) {
    forall i, j :: 0 <= i < j < |t| ==> t[i].0 != t[j].0
  }

  /** `a` is `t` with `key` assigned: in place if it was there, else somewhere at the end. */
  ghost predicate Assigned(t: Trusted, key: string, value: string, a: Trusted) {
    && DistinctKeys(a) && |t| <= |a| && (key, value) in a
    && (forall e :: e in a && e.0 != key ==> e in t)
    && (forall i :: 0 <= i < |t| && t[i].0 != key ==> a[i] == t[i])
  }

  lemma KeyBehind(first: (string, string), t: Trusted, key: string, e: (string, string))
    requires first.0 != key && DistinctKeys([first] + t) && (e.0 != key ==> e in t)
    ensures e.0 != first.0 && (e.0 != key ==> e in [first] + t)
  {
    if e.0 != key {
      var i :| 0 <= i < |t| && t[i] == e;
      assert ([first] + t)[0].0 != ([first] + t)[i + 1].0;
    }
  }

  lemma AssignedBehind(first: (string, string), t: Trusted, key: string, value: string, a: Trusted)
    requires first.0 != key && DistinctKeys([first] + t) && Assigned(t, key, value, a)
    ensures Assigned([first] + t, key, value, [first] + a)
  {
    var whole, next := [first] + t, [first] + a;
    forall e | e in a ensures e.0 != first.0 && (e.0 != key ==> e in whole) {
      KeyBehind(first, t, key, e);
    }
    forall j | 0 < j < |next| ensures next[j] == a[j - 1] && a[j - 1] in a {}
    forall i | 0 < i < |whole| ensures whole[i] == t[i - 1] {}
    var i :| 0 <= i < |a| && a[i] == (key, value);
    assert next[i + 1] == a[i];
  }

  lemma {:induction false} AssignKeys(t: Trusted, key: string, value: string)
    requires DistinctKeys(t)
    ensures Assigned(t, key, value, Assign(t, key, value))
  {
    if t != [] && t[0].0 != key {
      hide Assigned;
      assert t == [t[0]] + t[1..];
      AssignKeys(t[1..], key, value);
      AssignedBehind(t[0], t[1..], key, value, Assign(t[1..], key, value));
    }
  }

  lemma PrefixIsSessionOnly(key: string)
    ensures SESSION_PREFIX + key != TENANT && SESSION_PREFIX + key != PROJECT
    ensures SESSION_PREFIX + key != REGION_KEY && SESSION_PREFIX + key != SOFT_QUOTA.key
  {
    var k := SESSION_PREFIX + key;
    assert k[0] == 'm' && TENANT[0] == 't' && PROJECT[0] == 'p' && REGION_KEY[0] == 'd';
    assert k[7] == 's' && SOFT_QUOTA.key[7] == 'q';
  }

  lemma {:induction false} SessionKeepsIdentity(t: Trusted, session: seq<(string, string)>)
    requires |t| == 3 && DistinctKeys(t) && t[0].0 == TENANT && t[1].0 == PROJECT && t[2].0 == REGION_KEY
    ensures var w := WithSession(t, session);
      && DistinctKeys(w) && |w| >= 3 && w[..3] == t
      && (forall i :: 3 <= i < |w| ==> SESSION_PREFIX <= w[i].0)
  {
    hide Assign;
    if session != [] {
      var last := session[|session| - 1];
      var w, key := WithSession(t, session[..|session| - 1]), SESSION_PREFIX + last.0;
      SessionKeepsIdentity(t, session[..|session| - 1]);
      PrefixIsSessionOnly(last.0);
      AssignKeys(w, key, last.1);
      var a := Assign(w, key, last.1);
      assert w[0] == t[0] && w[1] == t[1] && w[2] == t[2];
      assert a[0] == t[0] && a[1] == t[1] && a[2] == t[2];
      forall i | 3 <= i < |a| ensures SESSION_PREFIX <= a[i].0 {
        assert a[i] in a;
        if a[i].0 != key {
          var k :| 0 <= k < |w| && w[k] == a[i];
          assert k >= 3;
        }
      }
    }
  }

  /** The trusted keys are distinct; the first three name the principal's tenant and project and the
      region, whatever the session attributes are called. */
  lemma TrustedIdentity(p: Principal, region: string)
    ensures var t := TrustedFor(p, region);
      && DistinctKeys(t) && |t| >= 3
      && t[0] == (TENANT, p.tenant) && t[1] == (PROJECT, p.project) && t[2] == (REGION_KEY, region)
      && !Has(t, SOFT_QUOTA.key)
  {
    var base := [(TENANT, p.tenant), (PROJECT, p.project), (REGION_KEY, region)];
    assert TENANT[0] == 't' && PROJECT[0] == 'p' && REGION_KEY[0] == 'd';
    SessionKeepsIdentity(base, p.session);
    var t := TrustedFor(p, region);
    assert t[..3] == base && t[0] == base[0] && t[1] == base[1] && t[2] == base[2];
    PrefixIsSessionOnly("");
    forall i | 0 <= i < |t| ensures t[i].0 != SOFT_QUOTA.key {
      assert i >= 3 ==> t[i].0[7] == SESSION_PREFIX[7] == 's';
      assert SOFT_QUOTA.key[7] == 'q' && SOFT_QUOTA.key[0] == 'm';
    }
  }

  // --------------------------------------------------------------- what a stamp does

  /** All attributes under one key, in order. */
  function Under(attributes: seq<Attribute>, key: string): seq<Attribute> {
    if attributes == [] then []
    else
      var front, last := Under(attributes[..|attributes| - 1], key), attributes[|attributes| - 1];
      if last.key == key then front + [last] else front
  }

  lemma {:induction false} UnderConcat(a: seq<Attribute>, b: seq<Attribute>, key: string)
    ensures Under(a + b, key) == Under(a, key) + Under(b, key)
  {
    if b == [] {
      assert a + b == a;
    } else {
      assert (a + b)[..|a + b| - 1] == a + b[..|b| - 1];
      UnderConcat(a, b[..|b| - 1], key);
    }
  }

  lemma {:induction false} UnderUntrusted(attributes: seq<Attribute>, t: Trusted, key: string)
    ensures Under(Untrusted(attributes, t), key) == if Has(t, key) then [] else Under(attributes, key)
  {
    hide Has;
    if attributes != [] {
      var front, last := attributes[..|attributes| - 1], attributes[|attributes| - 1];
      UnderUntrusted(front, t, key);
      UnderConcat(Untrusted(front, t), [last], key);
      assert [last][..0] == [];
    }
  }

  lemma {:induction false} UnderTrusted(t: Trusted, key: string)
    requires DistinctKeys(t)
    ensures !Has(t, key) ==> Under(AsAttributes(t), key) == []
    ensures forall i :: 0 <= i < |t| && t[i].0 == key ==> Under(AsAttributes(t), key) == [Attribute(key, StringValue(t[i].1))]
  {
    if t != [] {
      var front, last := t[..|t| - 1], t[|t| - 1];
      UnderTrusted(front, key);
      assert AsAttributes(t)[..|t| - 1] == AsAttributes(front);
      if last.0 == key {
        assert !Has(front, key) && Has(t, key);
        assert [] + [Attribute(key, StringValue(last.1))] == [Attribute(key, StringValue(last.1))];
      } else {
        assert Has(t, key) ==> Has(front, key) by {
          if Has(t, key) {
            var i :| 0 <= i < |t| && t[i].0 == key;
            assert front[i].0 == key;
          }
        }
        forall i | 0 <= i < |t| && t[i].0 == key ensures front[i] == t[i] {}
      }
    }
  }

  /** The names the stamp writes, and each session attribute under its own. */
  lemma TrustedReads(p: Principal, region: string)
    requires forall i, j :: 0 <= i < j < |p.session| ==> p.session[i].0 != p.session[j].0
    ensures var t := TrustedFor(p, region);
      && |t| == 3 + |p.session|
      && t[0] == ("tenant.id", p.tenant) && t[1] == ("project.id", p.project) && t[2] == ("data.region", region)
      && forall i :: 0 <= i < |p.session| ==> t[3 + i] == ("mcpobs.session." + p.session[i].0, p.session[i].1)
  {
    hide WithSession;
    DistinctSession([(TENANT, p.tenant), (PROJECT, p.project), (REGION_KEY, region)], p.session);
  }

  lemma {:induction false} DistinctSession(t: Trusted, session: seq<(string, string)>)
    requires |t| == 3 && DistinctKeys(t) && t[0].0 == TENANT && t[1].0 == PROJECT && t[2].0 == REGION_KEY
    requires forall i, j :: 0 <= i < j < |session| ==> session[i].0 != session[j].0
    ensures var w := WithSession(t, session);
      && |w| == 3 + |session| && w[..3] == t
      && forall i :: 0 <= i < |session| ==> w[3 + i] == (SESSION_PREFIX + session[i].0, session[i].1)
  {
    hide Assign;
    if session != [] {
      var n := |session| - 1;
      var w, key := WithSession(t, session[..n]), SESSION_PREFIX + session[n].0;
      DistinctSession(t, session[..n]);
      PrefixIsSessionOnly(session[n].0);
      forall i | 0 <= i < |w| ensures w[i].0 != key {
        if i < 3 {
          assert w[i] == w[..3][i];
        } else {
          assert session[..n][i - 3] == session[i - 3];
          assert w[i].0 == SESSION_PREFIX + session[i - 3].0;
          PrefixedDiffer(session[i - 3].0, session[n].0);
        }
      }
      AssignNew(w, key, session[n].1);
    }
  }

  lemma PrefixedDiffer(a: string, b: string)
    requires a != b
    ensures SESSION_PREFIX + a != SESSION_PREFIX + b
  {
    var n := |SESSION_PREFIX|;
    assert (SESSION_PREFIX + a)[n..] == a && (SESSION_PREFIX + b)[n..] == b;
  }

  lemma {:induction false} AssignNew(t: Trusted, key: string, value: string)
    requires forall i :: 0 <= i < |t| ==> t[i].0 != key
    ensures Assign(t, key, value) == t + [(key, value)]
  {
    if t != [] { AssignNew(t[1..], key, value); }
  }

  /** The soft-quota flag goes last, and only when asked for. */
  lemma FlagReads(attributes: seq<Attribute>, t: Trusted)
    ensures Stamped(attributes, t, true) ==
      Stamped(attributes, t, false) + [Attribute("mcpobs.quota.soft_exceeded", BoolValue(true))]
    ensures Stamped(attributes, t, false) == Untrusted(attributes, t) + AsAttributes(t)
  {
    var u := Untrusted(attributes, t) + AsAttributes(t);
    assert u + [] == u;
  }

  /** Every trusted key occurs exactly once, with the trusted value; every other key keeps exactly the
      occurrences it had, but for the soft-quota flag this request earned. */
  lemma KeysAfterStamp(attributes: seq<Attribute>, p: Principal, region: string, soft: bool, key: string)
    ensures var t := TrustedFor(p, region); var s := Stamped(attributes, t, soft);
      && (forall i :: 0 <= i < |t| && t[i].0 == key ==> Under(s, key) == [Attribute(key, StringValue(t[i].1))])
      && (!Has(t, key) ==>
            Under(s, key) == Under(attributes, key) + if soft && key == SOFT_QUOTA.key then [SOFT_QUOTA] else [])
  {
    hide TrustedFor, Under, Untrusted, AsAttributes;
    var t := TrustedFor(p, region);
    TrustedIdentity(p, region);
    var flag := if soft then [SOFT_QUOTA] else [];
    UnderConcat(Untrusted(attributes, t) + AsAttributes(t), flag, key);
    UnderConcat(Untrusted(attributes, t), AsAttributes(t), key);
    UnderUntrusted(attributes, t, key);
    UnderTrusted(t, key);
    UnderFlag(soft, key);
  }

  lemma UnderFlag(soft: bool, key: string)
    ensures Under(if soft then [SOFT_QUOTA] else [], key) == if soft && key == SOFT_QUOTA.key then [SOFT_QUOTA] else []
  {
    assert [SOFT_QUOTA][..0] == [];
  }

  lemma {:induction false} UntrustedConcat(a: seq<Attribute>, b: seq<Attribute>, t: Trusted)
    ensures Untrusted(a + b, t) == Untrusted(a, t) + Untrusted(b, t)
  {
    if b == [] {
      assert a + b == a;
    } else {
      assert (a + b)[..|a + b| - 1] == a + b[..|b| - 1];
      UntrustedConcat(a, b[..|b| - 1], t);
    }
  }

  lemma {:induction false} UntrustedKept(attributes: seq<Attribute>, t: Trusted)
    ensures Untrusted(Untrusted(attributes, t), t) == Untrusted(attributes, t)
  {
    if attributes != [] {
      var front, last := attributes[..|attributes| - 1], attributes[|attributes| - 1];
      UntrustedKept(front, t);
      UntrustedConcat(Untrusted(front, t), [last], t);
      assert [last][..0] == [];
    }
  }

  lemma {:induction false} NoneUntrusted(t: Trusted, n: nat)
    requires n <= |t|
    ensures Untrusted(AsAttributes(t)[..n], t) == []
  {
    if n > 0 {
      NoneUntrusted(t, n - 1);
      assert AsAttributes(t)[..n][..n - 1] == AsAttributes(t)[..n - 1];
      assert Has(t, t[n - 1].0);
    }
  }

  /** What of a stamped request a second stamp keeps: the untrusted attributes, in order. */
  lemma UntrustedSurvive(attributes: seq<Attribute>, p: Principal, region: string, soft: bool)
    ensures var t := TrustedFor(p, region);
      Untrusted(Stamped(attributes, t, soft), t) == Untrusted(attributes, t) + if soft then [SOFT_QUOTA] else []
  {
    var t := TrustedFor(p, region);
    TrustedIdentity(p, region);
    var flag := if soft then [SOFT_QUOTA] else [];
    UntrustedConcat(Untrusted(attributes, t) + AsAttributes(t), flag, t);
    UntrustedConcat(Untrusted(attributes, t), AsAttributes(t), t);
    UntrustedKept(attributes, t);
    NoneUntrusted(t, |t|);
    assert AsAttributes(t)[..|t|] == AsAttributes(t);
    assert [SOFT_QUOTA][..0] == [];
  }

  /** Stamping again without the soft flag changes nothing, if and only if the first stamp did not set
      the flag: a set flag ends up before the trusted attributes. */
  lemma RestampExactly(attributes: seq<Attribute>, p: Principal, region: string, soft: bool)
    ensures var t := TrustedFor(p, region);
      Stamped(Stamped(attributes, t, soft), t, false) == Stamped(attributes, t, soft) <==> !soft
  {
    hide TrustedFor, Untrusted;
    var t := TrustedFor(p, region);
    TrustedIdentity(p, region);
    UntrustedSurvive(attributes, p, region, soft);
    var u, a := Untrusted(attributes, t), AsAttributes(t);
    if soft {
      var once, twice := u + a + [SOFT_QUOTA], u + [SOFT_QUOTA] + a + [];
      assert twice[|u|] == SOFT_QUOTA && once[|u|] == a[0] && a[0].key == TENANT;
      assert TENANT[0] == 't' && SOFT_QUOTA.key[0] == 'm';
    } else {
      assert u + [] + a + [] == u + a + [];
    }
  }

  // ---------------------------------------------------------------- the two readers

  /** `str` of a decoded attribute value: a string is itself. */
  function Shown(v: AnyValue, other: AnyValue -> string): string {
    if v.StringValue? then v.s else other(v)
  }

  /** The decoder's attribute dict: the last occurrence of a key wins. */
  function Decoded(attributes: seq<Attribute>, other: AnyValue -> string): map<string, string> {
    if attributes == [] then map[]
    else
      var front, last := Decoded(attributes[..|attributes| - 1], other), attributes[|attributes| - 1];
      front[last.key := Shown(last.value, other)]
  }

  lemma {:induction false} LastWins(attributes: seq<Attribute>, other: AnyValue -> string, key: string)
    ensures var u, d := Under(attributes, key), Decoded(attributes, other);
      if u == [] then key !in d else key in d && d[key] == Shown(u[|u| - 1].value, other)
  {
    if attributes != [] {
      LastWins(attributes[..|attributes| - 1], other, key);
    }
  }

  lemma {:induction false} FirstWins(attributes: seq<Attribute>)
    ensures Under(attributes, TENANT) == [] ==> FirstTenant(attributes) == UNKNOWN
    ensures |Under(attributes, TENANT)| == 1 ==>
      var a := Under(attributes, TENANT)[0];
      FirstTenant(attributes) == if NamesTenant(a) then a.value.s else UNKNOWN
  {
    if attributes != [] {
      FirstWins(attributes[1..]);
      UnderConcat([attributes[0]], attributes[1..], TENANT);
      assert [attributes[0]] + attributes[1..] == attributes && [attributes[0]][..0] == [];
    }
  }

  /** After a stamp, the archiver's first-match reader and the row builder behind the decoder's last-wins
      dict both read the principal's tenant, and so agree, if and only if that is not empty; the project
      is read back in the same way. */
  lemma ReadersAgreeExactly(
    attributes: seq<Attribute>, p: Principal, region: string, soft: bool, other: AnyValue -> string)
    ensures var s := Stamped(attributes, TrustedFor(p, region), soft);
      var d := Decoded(s, other);
      && FirstTenant(s) == (if p.tenant != "" then p.tenant else UNKNOWN)
      && NormalizerSpec.OrLocal(d, TENANT) == (if p.tenant != "" then p.tenant else "local")
      && NormalizerSpec.OrLocal(d, PROJECT) == (if p.project != "" then p.project else "local")
      && (FirstTenant(s) == NormalizerSpec.OrLocal(d, TENANT) <==> p.tenant != "")
  {
    hide TrustedFor, Stamped, Under, Decoded;
    var t := TrustedFor(p, region);
    var s := Stamped(attributes, t, soft);
    TrustedIdentity(p, region);
    KeysAfterStamp(attributes, p, region, soft, TENANT);
    KeysAfterStamp(attributes, p, region, soft, PROJECT);
    assert t[0].0 == TENANT && t[1].0 == PROJECT;
    FirstWins(s);
    LastWins(s, other, TENANT);
    LastWins(s, other, PROJECT);
    assert UNKNOWN[0] == 'u' && "local"[0] == 'l';
  }

  /** The row the normalizer builds of a span under a stamped resource carries the principal's tenant and
      project. */
  lemma StampedRow(attributes: seq<Attribute>, p: Principal, region: string, soft: bool, other: AnyValue -> string,
      codec: NormalizerSpec.Codec, span: NormalizerSpec.DecodedSpan, partition: nat, offset: nat)
    requires span.resource == Decoded(Stamped(attributes, TrustedFor(p, region), soft), other)
    requires NormalizerSpec.ToRow(codec, span, partition, offset).Some?
    ensures var key := NormalizerSpec.ToRow(codec, span, partition, offset).value.key;
      && key.tenant == (if p.tenant != "" then p.tenant else "local")
      && key.project == (if p.project != "" then p.project else "local")
  {
    hide TrustedFor, Stamped, Decoded;
    ReadersAgreeExactly(attributes, p, region, soft, other);
    NormalizerSpec.RowReads(codec, span, partition, offset);
  }

  lemma {:induction false} OneTenantOnly(rss: seq<ResourceSpans>, tenant: string)
    requires forall r :: r in rss ==> FirstTenant(r.attributes) == tenant
    ensures ArchiverSpec.Tenants(rss) == if rss == [] then [] else [tenant]
    ensures ArchiverSpec.Owned(rss, tenant) == rss
  {
    hide FirstTenant;
    if rss != [] {
      var front, last := rss[..|rss| - 1], rss[|rss| - 1];
      assert rss == front + [last];
      assert last in rss && forall r :: r in front ==> r in rss;
      OneTenantOnly(front, tenant);
      assert front == [] ==> ArchiverSpec.Tenants(front) + [tenant] == [tenant];
    }
  }

  /** A stamped request is archived under its principal's tenant alone, whole, with its spans as they
      were: same number, same bytes, under whatever way of counting. */
  lemma StampedRequest(rss: seq<ResourceSpans>, p: Principal, region: string, soft: bool)
    requires p.tenant != ""
    ensures var s := StampedAll(rss, TrustedFor(p, region), soft);
      && ArchiverSpec.Tenants(s) == (if rss == [] then [] else [p.tenant])
      && ArchiverSpec.Owned(s, p.tenant) == s
      && |s| == |rss| && forall i :: 0 <= i < |s| ==> s[i].spans == rss[i].spans
  {
    hide TrustedFor;
    var t := TrustedFor(p, region);
    var s := StampedAll(rss, t, soft);
    forall r | r in s ensures FirstTenant(r.attributes) == p.tenant {
      var i :| 0 <= i < |s| && s[i] == r;
      ReadersAgreeExactly(rss[i].attributes, p, region, soft, _ => "");
    }
    OneTenantOnly(s, p.tenant);
  }

  // ------------------------------------------------------------------ in place

  /** A ResourceSpans message, whose attributes the gateway rewrites. */
  class Message {
    var attributes: seq<Attribute>
    const scopes: seq<seq<Bytes>>   // the spans under each ScopeSpans

    constructor (attributes: seq<Attribute>, scopes: seq<seq<Bytes>>)
      ensures this.attributes == attributes && this.scopes == scopes
    {
      this.attributes, this.scopes := attributes, scopes;
    }
  }

  method TrustedAttributes(p: Principal, region: string) returns (t: Trusted)
    ensures t == TrustedFor(p, region)
  {
    var base := [(TENANT, p.tenant), (PROJECT, p.project), (REGION_KEY, region)];
    t := base;
    for i := 0 to |p.session|
      invariant t == WithSession(base, p.session[..i])
    {
      assert p.session[..i + 1][..i] == p.session[..i];
      t := Assign(t, SESSION_PREFIX + p.session[i].0, p.session[i].1);
    }
    assert p.session[..|p.session|] == p.session;
  }

  method Restamp(m: Message, t: Trusted, soft: bool)
    modifies m
    ensures m.attributes == Stamped(old(m.attributes), t, soft)
  {
    var sent := m.attributes;
    var kept: seq<Attribute> := [];
    for i := 0 to |sent|
      invariant kept == Untrusted(sent[..i], t)
    {
      assert sent[..i + 1][..i] == sent[..i];
      if !Has(t, sent[i].key) {
        kept := kept + [sent[i]];
      }
    }
    assert sent[..|sent|] == sent;
    m.attributes := kept;
    for i := 0 to |t|
      invariant m.attributes == kept + AsAttributes(t)[..i]
    {
      m.attributes := m.attributes + [Attribute(t[i].0, StringValue(t[i].1))];
    }
    if soft {
      m.attributes := m.attributes + [SOFT_QUOTA];
    }
  }

  /** Distinct messages of one request, each stamped in place. */
  method StampParsed(request: seq<Message>, p: Principal, region: string, soft: bool)
    requires forall i, j :: 0 <= i < j < |request| ==> request[i] != request[j]
    modifies request
    ensures forall i :: 0 <= i < |request| ==>
      request[i].attributes == Stamped(old(request[i].attributes), TrustedFor(p, region), soft)
  {
    var t := TrustedAttributes(p, region);
    for n := 0 to |request|
      invariant forall i :: 0 <= i < n ==> request[i].attributes == Stamped(old(request[i].attributes), t, soft)
      invariant forall i :: n <= i < |request| ==> request[i].attributes == old(request[i].attributes)
    {
      Restamp(request[n], t, soft);
    }
  }

  /** All spans of some scopes, and of a request, as one list. */
  function Flattened(scopes: seq<seq<Bytes>>): seq<Bytes> {
    if scopes == [] then [] else Flattened(scopes[..|scopes| - 1]) + scopes[|scopes| - 1]
  }

  function AllSpans(request: seq<Message>): seq<Bytes> {
    if request == [] then []
    else AllSpans(request[..|request| - 1]) + Flattened(request[|request| - 1].scopes)
  }

  /** The metered unit: every span of every scope of every message. */
  method CountSpans(request: seq<Message>) returns (n: nat)
    ensures n == |AllSpans(request)|
  {
    n := 0;
    for i := 0 to |request|
      invariant n == |AllSpans(request[..i])|
    {
      assert request[..i + 1][..i] == request[..i];
      var scopes := request[i].scopes;
      for j := 0 to |scopes|
        invariant n == |AllSpans(request[..i])| + |Flattened(scopes[..j])|
      {
        assert scopes[..j + 1][..j] == scopes[..j];
        n := n + |scopes[j]|;
      }
      assert scopes[..|scopes|] == scopes;
    }
    assert request[..|request|] == request;
  }
}
