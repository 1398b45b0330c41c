// The parts of an OTLP request that tenancy depends on.
module Otlp {
  import opened Framing

  datatype AnyValue = StringValue(s: string) | BoolValue(b: bool) | OtherValue(raw: Bytes)

  datatype Attribute = Attribute(key: string, value: AnyValue)

  /** One ResourceSpans: its resource attributes, in order, and the spans under it. */
  datatype ResourceSpans = ResourceSpans(attributes: seq<Attribute>, spans: Bytes)

  const TENANT: string := "tenant.id"
  const UNKNOWN: string := "unknown"

  predicate NamesTenant(a: Attribute) {
    a.key == TENANT && a.value.StringValue? && a.value.s != ""
  }

  /** The archiver's reader: the first non-empty `tenant.id`, else `unknown`. */
  function FirstTenant(attributes: seq<Attribute>): string {
    if attributes == [] then UNKNOWN
    else if NamesTenant(attributes[0]) then attributes[0].value.s
    else FirstTenant(attributes[1..])
  }

  /** An attribute that names a tenant: a text that is not empty, under `tenant.id`. */
  predicate Names(a: Attribute, tenant: string) {
    a.key == "tenant.id" && a.value == StringValue(tenant) && tenant != ""
  }

  /** The reader returns what the first attribute that names a tenant says, and `unknown` when none does. */
  lemma {:induction false} FirstTenantReads(attributes: seq<Attribute>, i: nat)
    ensures i < |attributes| && (exists t :: Names(attributes[i], t)) && (forall j, t :: 0 <= j < i ==> !Names(attributes[j], t)) ==>
      Names(attributes[i], FirstTenant(attributes))
    ensures (forall j, t :: 0 <= j < |attributes| ==> !Names(attributes[j], t)) ==> FirstTenant(attributes) == "unknown"
  {
    if attributes != [] {
      var first, rest := attributes[0], attributes[1..];
      assert NamesTenant(first) ==> Names(first, first.value.s);
      forall j | 0 <= j < |rest| ensures rest[j] == attributes[j + 1] {}
      if i > 0 { FirstTenantReads(rest, i - 1); } else { FirstTenantReads(rest, |rest|); }
    }
  }
}
