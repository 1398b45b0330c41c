// Query strings in, clauses and bound parameters out.
module FilterRequest {
  import opened Strings
  import opened Text
  import opened FilterSql
  import opened FilterMeaning

  const MAX_CONDITIONS: nat := 10
  const MAX_TEXT: nat := 200

  // --------------------------------------------------------------------- clauses

  /** The parameter dict a request writes into. */
  class Bound {
    var params: Params

    constructor (scope: Params)
      ensures params == scope
    {
      params := scope;
    }

    method Bind(name: string, v: Value)
      modifies this
      ensures params == old(params)[name := v]
    {
      params := params[name := v];
    }
  }

  method Clause(spec: Filter, v: Option<Value>, bound: Bound, nameColumn: string) returns (c: Option<Sql>)
    modifies bound
    ensures c == ClauseOf(spec, v, nameColumn)
    ensures bound.params == old(bound.params) + BindingOf(spec, v)
  {
    if !Active(v) { return None; }
    if spec.predicates != [] {
      return if v.value.Text? then Chosen(spec.predicates, v.value.s) else None;
    }
    if spec.kind == Search {
      bound.Bind(Param(spec), v.value);
      return Some(Matches(NamedAll(spec.columns, nameColumn), Param(spec)));
    }
    if spec.kind == Toggle {
      return Some(spec.flag);
    }
    bound.Bind(Param(spec), v.value);
    return Some(Compare(Named(spec.column, nameColumn), spec.op, Param(spec), spec.chType));
  }

  lemma PlusAssoc(a: Params, b: Params, c: Params)
    ensures a + b + c == a + (b + c)
  {}

  method ConditionClauses(f: Filters, bound: Bound, nameColumn: string) returns (out: seq<Sql>)
    modifies bound
    ensures out == CondClauses(f.view, f.conditions, nameColumn)
    ensures bound.params == old(bound.params) + CondBindings(f.view, f.conditions)
  {
    hide ValidCondition, Trim, AttrKey, SpecNamed, Specs;
    out := [];
    for i := 0 to |f.conditions|
      invariant out == CondClauses(f.view, f.conditions[..i], nameColumn)
      invariant bound.params == old(bound.params) + CondBindings(f.view, f.conditions[..i])
    {
      var c := f.conditions[i];
      assert f.conditions[..i + 1][..i] == f.conditions[..i];
      if ValidCondition(f.view, c) {
        PlusAssoc(old(bound.params), CondBindings(f.view, f.conditions[..i]), CondBinding(f.view, c, i));
        ghost var before := bound.params;
        if IsAttr(c) {
          bound.Bind(KeyParam(i), Text(AttrKey(c)));
          bound.Bind(ValueParam(i), Text(Trim(c.value)));
        } else {
          bound.Bind(CondParam(i), Text(Trim(c.value)));
        }
        assert bound.params == before + CondBinding(f.view, c, i);
        out := out + [CondClause(f.view, c, i, nameColumn)];
      }
    }
    assert f.conditions[..|f.conditions|] == f.conditions;
  }

  /** `Filters.clauses`: fragments for one stage, every value bound into the dict. */
  method StageClauses(f: Filters, stage: Stage, bound: Bound, nameColumn: string) returns (out: seq<Sql>)
    modifies bound
    ensures out == Clauses(f, stage, nameColumn)
    ensures bound.params == old(bound.params) + Bindings(f, stage)
  {
    hide ClauseOf, BindingOf, CondClauses, CondBindings, Specs, ValueFor;
    var specs := Specs(f.view);
    out := [];
    for i := 0 to |specs|
      invariant out == SpecClauses(f, specs[..i], stage, nameColumn)
      invariant bound.params == old(bound.params) + SpecBindings(f, specs[..i], stage)
    {
      assert specs[..i + 1][..i] == specs[..i];
      if specs[i].stage == stage {
        PlusAssoc(old(bound.params), SpecBindings(f, specs[..i], stage), BindingOf(specs[i], ValueFor(f, specs[i])));
        var c := Clause(specs[i], ValueFor(f, specs[i]), bound, nameColumn);
        if c.Some? { out := out + [c.value]; }
      }
    }
    assert specs[..|specs|] == specs;
    if stage == Where {
      PlusAssoc(old(bound.params), SpecBindings(f, specs, stage), CondBindings(f.view, f.conditions));
      var more := ConditionClauses(f, bound, nameColumn);
      out := out + more;
    }
  }

  // --------------------------------------------------------------------- parsing

  /** `str.partition(":")`, without the separator. */
  function Cut(s: string): (string, string) {
    if s == "" then ("", "")
    else if s[0] == ':' then ("", s[1..])
    else
      var rest := Cut(s[1..]);
      ([s[0]] + rest.0, rest.1)
  }

  ghost predicate NoColon(s: string) {
    forall i :: 0 <= i < |s| ==> s[i] != ':'
  }

  lemma {:induction false} CutAtFirst(a: string, b: string)
    requires NoColon(a)
    ensures Cut(a + ":" + b) == (a, b)
  {
    if a == "" {
      assert ("" + ":" + b)[1..] == b;
    } else {
      CutAtFirst(a[1..], b);
      var s := a + ":" + b;
      assert s[0] == a[0] && s[1..] == a[1..] + ":" + b && a == [a[0]] + a[1..];
    }
  }

  function ParseCondition(raw: string): Condition {
    var (field, rest) := Cut(raw);
    var (op, value) := Cut(rest);
    Condition(field, if op == "" then "is" else op, value)
  }

  /** A row written as field:op:value is read back, whatever colons the value has. */
  lemma ConditionRoundTrip(field: string, op: string, value: string)
    requires NoColon(field) && NoColon(op) && op != ""
    ensures ParseCondition(field + ":" + op + ":" + value) == Condition(field, op, value)
  {
    assert field + ":" + op + ":" + value == field + ":" + (op + ":" + value);
    CutAtFirst(field, op + ":" + value);
    CutAtFirst(op, value);
  }

  /** A row without an operator, or with nothing behind its field, asks for equality. */
  lemma ConditionDefaults(field: string, value: string)
    requires NoColon(field)
    ensures ParseCondition(field + ":" + ":" + value) == Condition(field, "is", value)
    ensures ParseCondition(field) == Condition(field, "is", "")
  {
    assert field + ":" + ":" + value == field + ":" + (":" + value);
    CutAtFirst(field, ":" + value);
    assert (":" + value)[1..] == value && Cut(":" + value) == ("", value);
    NoCut(field);
  }

  lemma {:induction false} NoCut(s: string)
    requires NoColon(s)
    ensures Cut(s) == (s, "")
  {
    if s != "" {
      NoCut(s[1..]);
      assert s == [s[0]] + s[1..];
    }
  }

  datatype ParsedValue = Good(v: Value) | Bad

  /** `Filter.parse`; `toNumber` is `float(...)`, `None` when it raises. */
  function ParseValue(spec: Filter, raw: string, toNumber: string -> Option<real>): ParsedValue {
    match spec.kind
    case Toggle => Good(Flag(Lower(raw) in ["1", "true", "yes", "on"]))
    case NumberInput =>
      (match toNumber(raw)
       case None => Bad
       case Some(r) =>
         if r < 0.0 || (spec.maximum.Some? && r > spec.maximum.value) then Bad
         else Good(Number(if spec.chType == "UInt32" then r.Floor as real else r)))
    case _ =>
      var text := Trim(raw);
      if |text| > MAX_TEXT then Bad
      else if spec.kind == Select && spec.choices != [] && text != "" && text !in spec.choices then Good(Text(""))
      else Good(Text(text))
  }

  /** A toggle is on for four words, in any case, and off for anything else. */
  lemma ToggleWords(spec: Filter, raw: string, toNumber: string -> Option<real>)
    requires spec.kind == Toggle
    ensures ParseValue(spec, raw, toNumber) ==
      Good(Flag(Lower(raw) == "1" || Lower(raw) == "true" || Lower(raw) == "yes" || Lower(raw) == "on"))
  {
    var words := ["1", "true", "yes", "on"];
    assert forall w :: w in words <==> w == words[0] || w == words[1] || w == words[2] || w == words[3];
  }

  /** A duration is any number from zero up; a call count a whole number of at most a million, rounded down. */
  lemma NumbersRead(raw: string, toNumber: string -> Option<real>)
    ensures ParseValue(TRACE_FILTERS[7], raw, toNumber) == ParseValue(TRACE_FILTERS[8], raw, toNumber) ==
      if toNumber(raw).Some? && toNumber(raw).value >= 0.0 then Good(Number(toNumber(raw).value)) else Bad
    ensures ParseValue(CAPABILITY_FILTERS[3], raw, toNumber) ==
      if toNumber(raw).Some? && 0.0 <= toNumber(raw).value <= 1000000.0
      then Good(Number(toNumber(raw).value.Floor as real)) else Bad
  {}

  /** Text is trimmed and rejected beyond 200 characters; a picker with fixed choices drops anything else. */
  lemma TextReads(spec: Filter, raw: string, toNumber: string -> Option<real>)
    requires spec.kind == Search || spec.kind == Select
    ensures |Trim(raw)| > 200 <==> ParseValue(spec, raw, toNumber) == Bad
    ensures |Trim(raw)| <= 200 ==>
      ParseValue(spec, raw, toNumber) ==
        Good(Text(if spec.kind == Select && |spec.choices| > 0 && Trim(raw) !in spec.choices then "" else Trim(raw)))
  {}

  lemma ParsedIsTyped(spec: Filter, raw: string, toNumber: string -> Option<real>)
    requires ParseValue(spec, raw, toNumber).Good?
    ensures WellTyped(spec, Some(ParseValue(spec, raw, toNumber).v))
  {
    hide Trim;
  }

  /** What the parsed value of a filter should be: absent, or the parse of its query parameter. */
  ghost function Expected(spec: Filter, query: map<string, string>, toNumber: string -> Option<real>): Option<Value> {
    if spec.key !in query || query[spec.key] == "" then None
    else
      match ParseValue(spec, query[spec.key], toNumber)
      case Bad => None
      case Good(v) => if v == Text("") then None else Some(v)
  }

  ghost predicate Rejected(spec: Filter, query: map<string, string>, toNumber: string -> Option<real>) {
    spec.key in query && query[spec.key] != "" && ParseValue(spec, query[spec.key], toNumber).Bad?
  }

  /** The valid rows among the first ten, in order. */
  function ValidRows(view: string, rows: seq<string>): seq<Condition> {
    if rows == [] then []
    else
      var front, last := ValidRows(view, rows[..|rows| - 1]), ParseCondition(rows[|rows| - 1]);
      if ValidCondition(view, last) then front + [last] else front
  }

  function FirstTen(rows: seq<string>): seq<string> {
    if |rows| > MAX_CONDITIONS then rows[..MAX_CONDITIONS] else rows
  }

  lemma {:induction false} ValidRowsValid(view: string, rows: seq<string>)
    ensures |ValidRows(view, rows)| <= |rows|
    ensures forall c :: c in ValidRows(view, rows) ==> ValidCondition(view, c)
  {
    hide ValidCondition, ParseCondition;
    if rows != [] {
      ValidRowsValid(view, rows[..|rows| - 1]);
    }
  }

  method ParseValues(specs: seq<Filter>, query: map<string, string>, toNumber: string -> Option<real>)
    returns (r: Option<map<string, Value>>)
    requires forall i, j :: 0 <= i < j < |specs| ==> specs[i].key != specs[j].key
    ensures r.None? <==> exists s :: s in specs && Rejected(s, query, toNumber)
    ensures r.Some? ==> forall s :: s in specs ==>
      (if s.key in r.value then Some(r.value[s.key]) else None) == Expected(s, query, toNumber)
  {
    hide ParseValue;
    var values: map<string, Value> := map[];
    for i := 0 to |specs|
      invariant forall j :: 0 <= j < i ==> !Rejected(specs[j], query, toNumber)
      invariant forall j :: 0 <= j < i ==>
        (if specs[j].key in values then Some(values[specs[j].key]) else None) == Expected(specs[j], query, toNumber)
      invariant forall k :: k in values ==> exists j :: 0 <= j < i && k == specs[j].key
    {
      var spec := specs[i];
      if spec.key in query && query[spec.key] != "" {
        match ParseValue(spec, query[spec.key], toNumber)
        case Bad =>
          assert spec in specs && Rejected(spec, query, toNumber);
          return None;
        case Good(v) =>
          if v != Text("") { values := values[spec.key := v]; }
      }
    }
    return Some(values);
  }

  /** `parse`: unknown parameters are ignored, a bad value rejects the request, and what is returned is
      what the compiler theorem asks for: typed values and at most ten valid conditions. */
  method Parse(view: string, query: map<string, string>, rows: seq<string>, toNumber: string -> Option<real>)
    returns (r: Option<Filters>)
    ensures r.None? <==> exists s :: s in Specs(view) && Rejected(s, query, toNumber)
    ensures r.Some? ==>
      && r.value.view == view && AllTyped(r.value)
      && (forall s :: s in Specs(view) ==> ValueFor(r.value, s) == Expected(s, query, toNumber))
      && r.value.conditions == ValidRows(view, if |rows| > 10 then rows[..10] else rows) && |r.value.conditions| <= 10
      && (forall c :: c in r.value.conditions ==> ValidCondition(view, c))
  {
    hide Specs, ParseValue, ParseCondition, ValidCondition, WellTyped;
    ViewKeysApart(view);
    var values := ParseValues(Specs(view), query, toNumber);
    if values.None? { return None; }
    var conditions: seq<Condition> := [];
    var first := FirstTen(rows);
    for i := 0 to |first|
      invariant conditions == ValidRows(view, first[..i])
    {
      assert first[..i + 1][..i] == first[..i];
      var c := ParseCondition(first[i]);
      if ValidCondition(view, c) { conditions := conditions + [c]; }
    }
    assert first[..|first|] == first;
    ValidRowsValid(view, first);
    r := Some(Filters(view, values.value, conditions));
    forall s | s in Specs(view) ensures WellTyped(s, ValueFor(r.value, s)) {
      assert ValueFor(r.value, s) == Expected(s, query, toNumber);
      if Expected(s, query, toNumber).Some? {
        ParsedIsTyped(s, query[s.key], toNumber);
      } else {
        AbsentIsTyped(s);
      }
    }
  }

  lemma AbsentIsTyped(spec: Filter)
    ensures WellTyped(spec, None)
  {}
}
