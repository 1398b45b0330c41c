// The compiled clauses select what was asked for, their placeholders never collide, and their text
// does not depend on the values.
module FilterMeaning {
  import opened Strings
  import opened Text
  import opened FilterSql

  // -------------------------------------------------------------------- intention

  ghost predicate WellTyped(spec: Filter, v: Option<Value>) {
    match v
    case None => true
    case Some(x) =>
      match spec.kind
      case Select => x.Text?
      case Search => x.Text?
      case Toggle => x.Flag?
      case NumberInput => x.Number? && x.r >= 0.0
  }

  ghost predicate AllTyped(f: Filters) {
    forall spec :: spec in Specs(f.view) ==> WellTyped(spec, ValueFor(f, spec))
  }

  ghost predicate SomeColumnHas(columns: seq<string>, nameColumn: string, row: Row, needle: string) {
    exists column :: column in columns && OccursIgnoringCase(TextOf(row, Named(column, nameColumn)), needle)
  }

  /** What an active filter asks of a row. */
  ghost predicate Asks(spec: Filter, v: Value, row: Row, nameColumn: string) {
    if spec.predicates != [] then
      v.Text? && forall c :: Chosen(spec.predicates, v.s) == Some(c) ==> Holds(c, map[], row, {})
    else
      match spec.kind
      case Toggle => Holds(spec.flag, map[], row, {})
      case Search => v.Text? && SomeColumnHas(spec.columns, nameColumn, row, v.s)
      case NumberInput => CompareValues(spec.op, row, Named(spec.column, nameColumn), v)
      case Select => CompareValues(spec.op, row, Named(spec.column, nameColumn), v)
  }

  ghost predicate SpecWanted(f: Filters, spec: Filter, row: Row, nameColumn: string) {
    Active(ValueFor(f, spec)) ==> Asks(spec, ValueFor(f, spec).value, row, nameColumn)
  }

  ghost predicate TestPasses(test: Test, actual: string, value: string) {
    match test
    case Is => actual == value
    case IsNot => actual != value
    case Contains => OccursIgnoringCase(actual, value)
  }

  /** An attribute condition asks for some stored version of some span of the trace that HAS the key,
      with a value that passes; any other condition tests the row's column. */
  ghost predicate ConditionWanted(view: string, c: Condition, params: Params, row: Row, spans: set<StoredSpan>,
      nameColumn: string)
    requires ValidCondition(view, c)
  {
    var test, value := TestNamed(c.op).value, Trim(c.value);
    if IsAttr(c) then
      exists span :: span in spans && span.traceId == TextOf(row, "trace_id") && InScope(span, params)
        && AttrKey(c) in span.attributes && TestPasses(test, span.attributes[AttrKey(c)], value)
    else
      TestPasses(test, TextOf(row, Named(SpecNamed(Specs(view), c.field).value.column, nameColumn)), value)
  }

  ghost predicate ConditionsWanted(f: Filters, params: Params, row: Row, spans: set<StoredSpan>, nameColumn: string) {
    forall i :: 0 <= i < |f.conditions| && ValidCondition(f.view, f.conditions[i]) ==>
      ConditionWanted(f.view, f.conditions[i], params, row, spans, nameColumn)
  }

  ghost predicate Wanted(f: Filters, stage: Stage, params: Params, row: Row, spans: set<StoredSpan>, nameColumn: string) {
    && (forall spec :: spec in Specs(f.view) && spec.stage == stage ==> SpecWanted(f, spec, row, nameColumn))
    && (stage == Where ==> ConditionsWanted(f, params, row, spans, nameColumn))
  }

  ghost predicate AllHold(clauses: seq<Sql>, params: Params, row: Row, spans: set<StoredSpan>) {
    forall c :: c in clauses ==> Holds(c, params, row, spans)
  }

  ghost predicate Extends(params: Params, part: Params) {
    forall k :: k in part ==> k in params && params[k] == part[k]
  }

  // ---------------------------------------------------------- names do not collide

  /** Filter keys of a view differ, and none starts like a condition's parameter. */
  ghost predicate KeysApart(specs: seq<Filter>) {
    && (forall i, j :: 0 <= i < j < |specs| ==> specs[i].key != specs[j].key)
    && (forall s :: s in specs ==> s.key != "" && s.key[0] != 'c')
  }

  lemma TraceKeysApart()
    ensures |TRACE_FILTERS| == 9 && KeysApart(TRACE_FILTERS)
  {
    var s := TRACE_FILTERS;
    assert s[0].key == "q" && s[1].key == "server" && s[2].key == "tool" && s[3].key == "method" && s[4].key == "transport";
    assert s[5].key == "status" && s[6].key == "failure_category" && s[7].key == "min_duration_ms" && s[8].key == "max_duration_ms";
    assert s[1].key[1] == 'e' && s[5].key[1] == 't' && s[2].key[1] == 'o' && s[4].key[1] == 'r';
    assert s[7].key[1] == 'i' && s[8].key[1] == 'a' && s[3].key[1] == 'e';
  }

  lemma DroppingKeepsApart(specs: seq<Filter>, n: nat)
    requires KeysApart(specs) && n < |specs|
    ensures KeysApart(specs[..n] + specs[n + 1..])
  {}

  lemma CapabilityKeysApart()
    ensures KeysApart(CAPABILITY_FILTERS)
  {
    var c := CAPABILITY_FILTERS;
    assert c[0].key == "q" && c[1].key == "server" && c[2].key == "errors_only" && c[3].key == "min_calls" && c[4].key == "sort";
    assert c[1].key[1] == 'e' && c[4].key[1] == 'o';
  }

  lemma ErrorKeysApart()
    ensures KeysApart(ERROR_FILTERS)
  {
    hide KeysApart, TRACE_FILTERS;
    TraceKeysApart();
    DroppingKeepsApart(TRACE_FILTERS, 5);
  }

  lemma {:induction false} ViewKeysApart(view: string)
    ensures KeysApart(Specs(view))
  {
    hide KeysApart, TRACE_FILTERS, ERROR_FILTERS, CAPABILITY_FILTERS;
    TraceKeysApart();
    ErrorKeysApart();
    CapabilityKeysApart();
    NoKeysApart();
  }

  lemma NoKeysApart()
    ensures KeysApart([])
  {}

  lemma PrefixSplit(p: string, a: string, b: string)
    requires p + a == p + b
    ensures a == b
  {
    assert a == (p + a)[|p|..] == (p + b)[|p|..] == b;
  }

  /** A condition's parameter name determines the condition's position and the parameter's role. */
  lemma ConditionNames(i: nat, a: string, j: nat, b: string)
    requires EndsDigits(a) && EndsDigits(b)
    requires "f_c" + Decimal(i) + a == "f_c" + Decimal(j) + b
    ensures i == j && a == b
  {
    assert "f_c" + Decimal(i) + a == "f_c" + (Decimal(i) + a);
    assert "f_c" + Decimal(j) + b == "f_c" + (Decimal(j) + b);
    PrefixSplit("f_c", Decimal(i) + a, Decimal(j) + b);
    NumberSplit(i, a, j, b);
  }

  lemma RolesDiffer(i: nat, j: nat)
    ensures CondParam(i) == CondParam(j) ==> i == j
    ensures KeyParam(i) == KeyParam(j) ==> i == j
    ensures ValueParam(i) == ValueParam(j) ==> i == j
    ensures CondParam(i) != KeyParam(j) && CondParam(i) != ValueParam(j) && KeyParam(i) != ValueParam(j)
  {
    assert "f_c" + Decimal(i) == "f_c" + Decimal(i) + "" && "f_c" + Decimal(j) == "f_c" + Decimal(j) + "";
    assert "_key"[1] != "_val"[1];
    if CondParam(i) == CondParam(j) { ConditionNames(i, "", j, ""); }
    if KeyParam(i) == KeyParam(j) { ConditionNames(i, "_key", j, "_key"); }
    if ValueParam(i) == ValueParam(j) { ConditionNames(i, "_val", j, "_val"); }
    if CondParam(i) == KeyParam(j) { ConditionNames(i, "", j, "_key"); }
    if CondParam(i) == ValueParam(j) { ConditionNames(i, "", j, "_val"); }
    if KeyParam(i) == ValueParam(j) { ConditionNames(i, "_key", j, "_val"); }
  }

  lemma SpecNameIsNoConditionName(spec: Filter, i: nat)
    requires spec.key != "" && spec.key[0] != 'c'
    ensures Param(spec) != CondParam(i) && Param(spec) != KeyParam(i) && Param(spec) != ValueParam(i)
  {
    assert Param(spec)[2] == spec.key[0];
    assert CondParam(i)[2] == 'c' && KeyParam(i)[2] == 'c' && ValueParam(i)[2] == 'c';
  }

  ghost predicate SpecNamesOnly(params: Params, specs: seq<Filter>) {
    forall k :: k in params ==> exists s :: s in specs && k == Param(s)
  }

  lemma BindingName(spec: Filter, v: Option<Value>)
    ensures forall k :: k in BindingOf(spec, v) ==> k == Param(spec)
  {}

  /** Every filter's own binding survives the later ones. */
  lemma {:induction false} SpecBindingsKept(f: Filters, specs: seq<Filter>, stage: Stage)
    requires KeysApart(specs)
    ensures SpecNamesOnly(SpecBindings(f, specs, stage), specs)
    ensures forall s :: s in specs && s.stage == stage ==> Extends(SpecBindings(f, specs, stage), BindingOf(s, ValueFor(f, s)))
  {
    hide BindingOf, ValueFor, Param;
    if specs != [] {
      var front, last := specs[..|specs| - 1], specs[|specs| - 1];
      assert specs == front + [last];
      SpecBindingsKept(f, front, stage);
      BindingName(last, ValueFor(f, last));
      forall s | s in front ensures Param(s) != Param(last) {
        ParamsDiffer(s, last);
      }
      forall s | s in front && s.stage == stage
        ensures Extends(SpecBindings(f, specs, stage), BindingOf(s, ValueFor(f, s)))
      {
        BindingName(s, ValueFor(f, s));
      }
    }
  }

  lemma ParamsDiffer(a: Filter, b: Filter)
    requires a.key != b.key
    ensures Param(a) != Param(b)
  {
    if Param(a) == Param(b) { PrefixSplit("f_", a.key, b.key); }
  }

  ghost predicate ConditionNameBelow(k: string, n: nat) {
    exists i: nat :: i < n && NamedAfter(k, i)
  }

  predicate NamedAfter(k: string, i: nat) {
    k == CondParam(i) || k == KeyParam(i) || k == ValueParam(i)
  }

  lemma {:induction false} CondBindingNames(view: string, c: Condition, i: nat)
    requires ValidCondition(view, c)
    ensures forall k :: k in CondBinding(view, c, i) ==> NamedAfter(k, i)
  {}

  lemma NamesApart(k: string, i: nat, j: nat)
    requires NamedAfter(k, i) && NamedAfter(k, j)
    ensures i == j
  {
    hide CondParam, KeyParam, ValueParam;
    RolesDiffer(i, j);
    RolesDiffer(j, i);
  }

  lemma {:induction false} CondBindingsKept(view: string, conditions: seq<Condition>)
    ensures forall k :: k in CondBindings(view, conditions) ==> ConditionNameBelow(k, |conditions|)
    ensures forall i :: 0 <= i < |conditions| && ValidCondition(view, conditions[i]) ==>
      Extends(CondBindings(view, conditions), CondBinding(view, conditions[i], i))
  {
    hide ValidCondition, CondBinding, NamedAfter;
    if conditions != [] {
      var n := |conditions| - 1;
      CondBindingsKept(view, conditions[..n]);
      var front := CondBindings(view, conditions[..n]);
      if ValidCondition(view, conditions[n]) {
        CondBindingNames(view, conditions[n], n);
      }
      forall i | 0 <= i < n && ValidCondition(view, conditions[i])
        ensures Extends(CondBindings(view, conditions), CondBinding(view, conditions[i], i))
      {
        assert conditions[..n][i] == conditions[i];
        CondBindingNames(view, conditions[i], i);
        forall k | k in CondBinding(view, conditions[i], i) && ValidCondition(view, conditions[n])
          ensures k !in CondBinding(view, conditions[n], n)
        {
          if NamedAfter(k, n) { NamesApart(k, i, n); }
        }
      }
    }
  }

  /** In the bindings of one request, every filter and condition finds its own values. */
  lemma BindingsKept(f: Filters, stage: Stage)
    ensures forall s :: s in Specs(f.view) && s.stage == stage ==> Extends(Bindings(f, stage), BindingOf(s, ValueFor(f, s)))
    ensures stage == Where ==> forall i :: 0 <= i < |f.conditions| && ValidCondition(f.view, f.conditions[i]) ==>
      Extends(Bindings(f, stage), CondBinding(f.view, f.conditions[i], i))
    ensures forall k :: k in Bindings(f, stage) ==> "f_" <= k
  {
    hide ValidCondition, Specs, CondBinding, BindingOf, ValueFor, CondBindings, SpecBindings;
    ViewKeysApart(f.view);
    SpecBindingsKept(f, Specs(f.view), stage);
    CondBindingsKept(f.view, f.conditions);
    var a, b := SpecBindings(f, Specs(f.view), stage), CondBindings(f.view, f.conditions);
    forall k | k in a ensures k !in b {
      var s :| s in Specs(f.view) && k == Param(s);
      if k in b {
        assert ConditionNameBelow(k, |f.conditions|);
        var i: nat :| i < |f.conditions| && NamedAfter(k, i);
        SpecNameIsNoConditionName(s, i);
      }
    }
    forall k | k in b ensures "f_" <= k {
      assert ConditionNameBelow(k, |f.conditions|);
    }
  }

  /** The request's own parameters (scope before, cursor and limit after) and the filters' never meet. */
  lemma ScopeUndisturbed(f: Filters, stage: Stage, scope: Params, later: Params)
    requires (forall k :: k in scope ==> !("f_" <= k)) && (forall k :: k in later ==> !("f_" <= k))
    ensures Extends(scope + Bindings(f, stage) + later, Bindings(f, stage))
    ensures forall k :: k in scope && k !in later ==> (scope + Bindings(f, stage) + later)[k] == scope[k]
  {
    hide Bindings;
    BindingsKept(f, stage);
  }

  // ---------------------------------------------------------------- meaning preserved

  lemma SearchMeaning(columns: seq<string>, nameColumn: string, param: string, params: Params, row: Row, spans: set<StoredSpan>)
    ensures Holds(Matches(NamedAll(columns, nameColumn), param), params, row, spans)
       <==> SomeColumnHas(columns, nameColumn, row, TextOf(params, param))
  {
    hide OccursIgnoringCase, TextOf, Named;
    var named, needle := NamedAll(columns, nameColumn), TextOf(params, param);
    assert forall i :: 0 <= i < |columns| ==> named[i] == Named(columns[i], nameColumn);
    if column :| column in columns && OccursIgnoringCase(TextOf(row, Named(column, nameColumn)), needle) {
      var i :| 0 <= i < |columns| && columns[i] == column;
      assert OccursIgnoringCase(TextOf(row, named[i]), needle);
    }
    if i :| 0 <= i < |named| && OccursIgnoringCase(TextOf(row, named[i]), needle) {
      assert columns[i] in columns;
    }
  }

  lemma SpecClauseMeaning(f: Filters, spec: Filter, params: Params, row: Row, spans: set<StoredSpan>, nameColumn: string)
    requires WellTyped(spec, ValueFor(f, spec))
    requires Extends(params, BindingOf(spec, ValueFor(f, spec)))
    requires spec.predicates != [] || spec.kind == Toggle ==> ConstantFragments(spec)
    ensures AllHold(OptionalClause(ClauseOf(spec, ValueFor(f, spec), nameColumn)), params, row, spans)
       <==> SpecWanted(f, spec, row, nameColumn)
  {
    hide OccursIgnoringCase, Holds, Constant;
    var v := ValueFor(f, spec);
    if !Active(v) {
      AllHoldNone(params, row, spans);
    } else if spec.predicates != [] {
      var chosen := Chosen(spec.predicates, v.value.s);
      if chosen.Some? {
        ChosenIsConstant(spec.predicates, v.value.s);
        AllHoldOne(chosen.value, params, row, spans);
        ConstantHolds(chosen.value, params, row, spans);
      } else {
        AllHoldNone(params, row, spans);
      }
    } else {
      var c := ClauseOf(spec, v, nameColumn).value;
      AllHoldOne(c, params, row, spans);
      if spec.kind == Toggle {
        ConstantHolds(c, params, row, spans);
      } else {
        assert params[Param(spec)] == v.value;
        if spec.kind == Search {
          SearchMeaning(spec.columns, nameColumn, Param(spec), params, row, spans);
        } else {
          CompareMeaning(c, params, row, spans);
        }
      }
    }
  }

  lemma AllHoldNone(params: Params, row: Row, spans: set<StoredSpan>)
    ensures AllHold([], params, row, spans)
  {}

  lemma AllHoldOne(c: Sql, params: Params, row: Row, spans: set<StoredSpan>)
    ensures AllHold([c], params, row, spans) <==> Holds(c, params, row, spans)
  {
    hide Holds;
    assert c in [c];
  }

  lemma ConstantHolds(c: Sql, params: Params, row: Row, spans: set<StoredSpan>)
    requires Constant(c)
    ensures Holds(c, params, row, spans) <==> Holds(c, map[], row, {})
  {}

  lemma CompareMeaning(c: Sql, params: Params, row: Row, spans: set<StoredSpan>)
    requires c.Compare? && c.param in params
    ensures Holds(c, params, row, spans) <==> CompareValues(c.op, row, c.column, params[c.param])
  {}

  /** A fragment without placeholders. */
  predicate Constant(c: Sql) {
    c.OneOf? || c.NoneOf? || c.Positive?
  }

  ghost predicate ConstantFragments(spec: Filter) {
    && (forall p :: p in spec.predicates ==> Constant(p.1))
    && (spec.predicates != [] ==> spec.kind == Select)
    && (spec.kind == Toggle ==> Constant(spec.flag))
  }

  lemma {:induction false} ChosenIsConstant(predicates: seq<(string, Sql)>, value: string)
    requires forall p :: p in predicates ==> Constant(p.1)
    requires Chosen(predicates, value).Some?
    ensures Constant(Chosen(predicates, value).value)
  {
    if predicates[|predicates| - 1].0 != value {
      ChosenIsConstant(predicates[..|predicates| - 1], value);
    }
  }

  lemma TraceFragmentsConstant()
    ensures forall s :: s in TRACE_FILTERS ==> ConstantFragments(s)
  {
    var t := TRACE_FILTERS;
    forall i | 0 <= i < |t| && i != 5 ensures t[i].predicates == [] && t[i].kind != Toggle {}
    assert ConstantFragments(STATUS);
    assert t[5] == STATUS;
  }

  lemma CapabilityFragmentsConstant()
    ensures forall s :: s in CAPABILITY_FILTERS ==> ConstantFragments(s)
  {
    var c := CAPABILITY_FILTERS;
    forall i | 0 <= i < |c| ensures ConstantFragments(c[i]) {}
  }

  lemma ViewFragmentsConstant(view: string)
    ensures forall s :: s in Specs(view) ==> ConstantFragments(s)
  {
    hide ConstantFragments;
    TraceFragmentsConstant();
    CapabilityFragmentsConstant();
    var t := TRACE_FILTERS;
    assert ERROR_FILTERS == t[..5] + t[6..];
  }

  lemma {:induction false} SpecClausesMeaning(f: Filters, specs: seq<Filter>, stage: Stage, params: Params,
      row: Row, spans: set<StoredSpan>, nameColumn: string)
    requires forall s :: s in specs ==> WellTyped(s, ValueFor(f, s)) && ConstantFragments(s)
    requires forall s :: s in specs && s.stage == stage ==> Extends(params, BindingOf(s, ValueFor(f, s)))
    ensures AllHold(SpecClauses(f, specs, stage, nameColumn), params, row, spans)
       <==> forall s :: s in specs && s.stage == stage ==> SpecWanted(f, s, row, nameColumn)
  {
    hide Holds, SpecWanted, ClauseOf, BindingOf, WellTyped, ConstantFragments, Extends, OptionalClause;
    if specs != [] {
      var front, last := specs[..|specs| - 1], specs[|specs| - 1];
      assert specs == front + [last];
      SpecClausesMeaning(f, front, stage, params, row, spans, nameColumn);
      if last.stage == stage {
        SpecClauseMeaning(f, last, params, row, spans, nameColumn);
        AllHoldConcat(SpecClauses(f, front, stage, nameColumn), OptionalClause(ClauseOf(last, ValueFor(f, last), nameColumn)),
                      params, row, spans);
      }
    }
  }

  lemma AllHoldConcat(a: seq<Sql>, b: seq<Sql>, params: Params, row: Row, spans: set<StoredSpan>)
    ensures AllHold(a + b, params, row, spans) <==> AllHold(a, params, row, spans) && AllHold(b, params, row, spans)
  {
    hide Holds;
    forall c ensures c in a + b <==> c in a || c in b {}
  }

  lemma LowerLength(s: string)
    ensures |Lower(s)| == |s|
  {}

  /** Nothing but the empty string occurs in the empty string. */
  lemma NotInEmpty(value: string)
    requires value != ""
    ensures !OccursIgnoringCase("", value)
  {
    LowerLength(value);
    LowerLength("");
  }

  /** Reading a missing key as "" never lets a condition match it, because condition values are not
      empty and `is_not` checks for the key. */
  lemma MissingKeyNeverMatches(test: Test, span: StoredSpan, key: string, value: string)
    requires value != ""
    ensures SpanTest(test, span, key, value)
       <==> key in span.attributes && TestPasses(test, span.attributes[key], value)
  {
    hide OccursIgnoringCase;
    NotInEmpty(value);
  }

  lemma OneColumnMatch(column: string, param: string, params: Params, row: Row, spans: set<StoredSpan>)
    ensures Holds(Matches([column], param), params, row, spans)
       <==> OccursIgnoringCase(TextOf(row, column), TextOf(params, param))
  {
    assert [column][0] == column;
  }

  lemma {:induction false} CondClauseMeaning(view: string, c: Condition, i: nat, params: Params, row: Row,
      spans: set<StoredSpan>, nameColumn: string)
    requires ValidCondition(view, c) && Extends(params, CondBinding(view, c, i))
    ensures Holds(CondClause(view, c, i, nameColumn), params, row, spans)
       <==> ConditionWanted(view, c, params, row, spans, nameColumn)
  {
    hide OccursIgnoringCase, Trim, Specs, SpecNamed, InScope, SpanTest;
    var test, value := TestNamed(c.op).value, Trim(c.value);
    if IsAttr(c) {
      var key := AttrKey(c);
      hide AttrKey;
      var bound := CondBinding(view, c, i);
      RolesDiffer(i, i);
      assert TextOf(params, KeyParam(i)) == key && TextOf(params, ValueParam(i)) == value by {
        assert KeyParam(i) in bound && ValueParam(i) in bound;
      }
      forall span ensures SpanTest(test, span, key, value)
        <==> key in span.attributes && TestPasses(test, span.attributes[key], value)
      {
        MissingKeyNeverMatches(test, span, key, value);
      }
      hide TestPasses;
      assert CondClause(view, c, i, nameColumn) == SpanHas(test, KeyParam(i), ValueParam(i));
    } else {
      assert CondParam(i) in CondBinding(view, c, i);
      var column := Named(SpecNamed(Specs(view), c.field).value.column, nameColumn);
      OneColumnMatch(column, CondParam(i), params, row, spans);
    }
  }

  lemma {:induction false} CondClausesMeaning(f: Filters, conditions: seq<Condition>, params: Params, row: Row,
      spans: set<StoredSpan>, nameColumn: string)
    requires forall i :: 0 <= i < |conditions| && ValidCondition(f.view, conditions[i]) ==>
      Extends(params, CondBinding(f.view, conditions[i], i))
    ensures AllHold(CondClauses(f.view, conditions, nameColumn), params, row, spans)
       <==> forall i :: 0 <= i < |conditions| && ValidCondition(f.view, conditions[i]) ==>
              ConditionWanted(f.view, conditions[i], params, row, spans, nameColumn)
  {
    hide Holds, ConditionWanted, CondClause, CondBinding, ValidCondition, Extends;
    if conditions != [] {
      var n := |conditions| - 1;
      var front, last := conditions[..n], conditions[n];
      assert forall i :: 0 <= i < n ==> front[i] == conditions[i];
      CondClausesMeaning(f, front, params, row, spans, nameColumn);
      if ValidCondition(f.view, last) {
        CondClauseMeaning(f.view, last, n, params, row, spans, nameColumn);
        AllHoldConcat(CondClauses(f.view, front, nameColumn), [CondClause(f.view, last, n, nameColumn)], params, row, spans);
      }
    }
  }

  /** Under any parameters that keep the request's bindings, the clauses of a stage together select
      exactly the rows that satisfy every active filter and every valid condition. */
  lemma CompilerPreservesMeaning(f: Filters, stage: Stage, params: Params, row: Row, spans: set<StoredSpan>, nameColumn: string)
    requires AllTyped(f) && Extends(params, Bindings(f, stage))
    ensures AllHold(Clauses(f, stage, nameColumn), params, row, spans)
       <==> Wanted(f, stage, params, row, spans, nameColumn)
  {
    hide Holds, SpecWanted, ConditionWanted, BindingOf, CondBinding, Bindings, ValidCondition, Specs, WellTyped, ConstantFragments;
    BindingsKept(f, stage);
    ViewFragmentsConstant(f.view);
    SpecClausesMeaning(f, Specs(f.view), stage, params, row, spans, nameColumn);
    if stage == Where {
      CondClausesMeaning(f, f.conditions, params, row, spans, nameColumn);
    }
    AllHoldConcat(SpecClauses(f, Specs(f.view), stage, nameColumn),
                  if stage == Where then CondClauses(f.view, f.conditions, nameColumn) else [], params, row, spans);
  }

  // ------------------------------------------------------------ the dropped zero

  /** What was asked, a zero counting as a number like any other. */
  ghost predicate StrictlyWanted(f: Filters, stage: Stage, params: Params, row: Row, spans: set<StoredSpan>,
      nameColumn: string) {
    && Wanted(f, stage, params, row, spans, nameColumn)
    && forall spec :: spec in Specs(f.view) && spec.stage == stage && ValueFor(f, spec) == Some(Number(0.0)) ==>
         Asks(spec, Number(0.0), row, nameColumn)
  }

  ghost predicate NoNegatives(row: Row) {
    forall k :: k in row && row[k].Number? ==> row[k].r >= 0.0
  }

  /** The only number filter that is not a lower bound is `max_duration_ms`. */
  ghost predicate LowerBoundOrMaxDuration(spec: Filter) {
    && (spec.key == "max_duration_ms" ==> spec.op == AtMost && spec.column == "duration_ms")
    && (spec.key != "max_duration_ms" ==> spec.op == AtLeast)
    && spec.predicates == []
  }

  lemma NumberFilters(specs: seq<Filter>, spec: Filter)
    requires specs == TRACE_FILTERS || specs == CAPABILITY_FILTERS
    requires spec in specs && spec.kind == NumberInput
    ensures LowerBoundOrMaxDuration(spec)
  {
    var i :| 0 <= i < |specs| && specs[i] == spec;
    if specs == TRACE_FILTERS {
      assert i == 7 || i == 8;
      assert specs[7].key[1] == 'i' && specs[8].key == "max_duration_ms" && "max_duration_ms"[1] == 'a';
    } else {
      assert i == 3 && spec.key == "min_calls" && |spec.key| == 9;
    }
  }

  lemma ViewNumberFilters(view: string, spec: Filter)
    requires spec in Specs(view) && spec.kind == NumberInput
    ensures LowerBoundOrMaxDuration(spec)
  {
    hide LowerBoundOrMaxDuration;
    var t := TRACE_FILTERS;
    assert ERROR_FILTERS == t[..5] + t[6..];
    NumberFilters(if view == "capabilities" then CAPABILITY_FILTERS else t, spec);
  }

  lemma ZeroBitesOnlyAtMost(view: string, spec: Filter, row: Row, nameColumn: string)
    requires NoNegatives(row) && spec in Specs(view) && spec.kind == NumberInput
    ensures Asks(spec, Number(0.0), row, nameColumn)
       <==> (spec.key == "max_duration_ms" ==> NumberOf(row, "duration_ms") == 0.0)
  {
    hide Specs;
    ViewNumberFilters(view, spec);
    if spec.key == "max_duration_ms" {
      assert "duration_ms"[0] != '{';
    }
  }

  /** A row the clauses select is one that was not asked for exactly when a zero `max_duration_ms` was
      given, which is dropped, and the row took longer than nothing. */
  lemma {:induction false} ZeroIsDropped(f: Filters, stage: Stage, params: Params, row: Row,
      spans: set<StoredSpan>, nameColumn: string)
    requires AllTyped(f) && Extends(params, Bindings(f, stage)) && NoNegatives(row)
    requires AllHold(Clauses(f, stage, nameColumn), params, row, spans)
    ensures !StrictlyWanted(f, stage, params, row, spans, nameColumn) <==>
      exists spec :: spec in Specs(f.view) && spec.stage == stage && spec.key == "max_duration_ms"
        && spec.kind == NumberInput && ValueFor(f, spec) == Some(Number(0.0)) && NumberOf(row, "duration_ms") > 0.0
  {
    hide Holds, SpecWanted, ConditionsWanted, Bindings, Specs, Clauses, Asks;
    CompilerPreservesMeaning(f, stage, params, row, spans, nameColumn);
    assert NumberOf(row, "duration_ms") >= 0.0;
    forall spec | spec in Specs(f.view) && spec.stage == stage && ValueFor(f, spec) == Some(Number(0.0))
      ensures spec.kind == NumberInput
      ensures Asks(spec, Number(0.0), row, nameColumn)
        <==> (spec.key == "max_duration_ms" ==> NumberOf(row, "duration_ms") == 0.0)
    {
      assert WellTyped(spec, ValueFor(f, spec));
      ZeroBitesOnlyAtMost(f.view, spec, row, nameColumn);
    }
  }

  lemma {:induction false} NothingActive(f: Filters, specs: seq<Filter>, stage: Stage, nameColumn: string)
    requires forall spec :: spec in specs ==> !Active(ValueFor(f, spec))
    ensures SpecClauses(f, specs, stage, nameColumn) == [] && SpecBindings(f, specs, stage) == map[]
  {
    if specs != [] {
      var front := specs[..|specs| - 1];
      assert specs[|specs| - 1] in specs;
      forall spec | spec in front ensures !Active(ValueFor(f, spec)) { assert spec in specs; }
      NothingActive(f, front, stage, nameColumn);
    }
  }

  const ZERO_DURATION: Filters := Filters("traces", map["max_duration_ms" := Number(0.0)], [])

  lemma ZeroIsTyped()
    ensures AllTyped(ZERO_DURATION)
    ensures exists spec :: spec in Specs("traces") && spec.stage == Where && spec.key == "max_duration_ms" && spec.kind == NumberInput
  {
    var t := TRACE_FILTERS;
    TraceKeysApart();
    assert t[8].key == "max_duration_ms" && t[8].kind == NumberInput && t[8].stage == Where && t[8] in t;
    forall spec | spec in t ensures WellTyped(spec, ValueFor(ZERO_DURATION, spec)) {
      var i :| 0 <= i < |t| && t[i] == spec;
      assert i != 8 ==> t[i].key != t[8].key;
    }
  }

  /** The request that goes wrong: traces of at most 0 ms, and every trace is selected, however long it took. */
  lemma ZeroSelectsEverything(params: Params, row: Row, spans: set<StoredSpan>, nameColumn: string)
    requires NoNegatives(row) && NumberOf(row, "duration_ms") > 0.0
    ensures AllHold(Clauses(ZERO_DURATION, Where, nameColumn), params, row, spans)
    ensures !StrictlyWanted(ZERO_DURATION, Where, params, row, spans, nameColumn)
  {
    hide Specs, StrictlyWanted, Active, AllTyped;
    var f := ZERO_DURATION;
    ZeroIsTyped();
    forall spec | spec in Specs("traces") ensures !Active(ValueFor(f, spec)) { ZeroInactive(spec); }
    NothingActive(f, Specs("traces"), Where, nameColumn);
    AllHoldNone(params, row, spans);
    assert Bindings(f, Where) == map[];
    var spec :| spec in Specs("traces") && spec.stage == Where && spec.key == "max_duration_ms" && spec.kind == NumberInput;
    assert ValueFor(f, spec) == Some(Number(0.0));
    ZeroIsDropped(f, Where, params, row, spans, nameColumn);
  }

  lemma ZeroInactive(spec: Filter)
    ensures !Active(ValueFor(ZERO_DURATION, spec))
  {}

  // ------------------------------------------------------- the text ignores values

  /** Which fragment a filter contributes: none, the value's fragment, or its one comparison. */
  ghost predicate SameChoice(spec: Filter, a: Option<Value>, b: Option<Value>) {
    && (Active(a) <==> Active(b))
    && (Active(a) && spec.predicates != [] ==> a == b)
  }

  ghost predicate SameShape(f: Filters, g: Filters) {
    && f.view == g.view && |f.conditions| == |g.conditions|
    && (forall spec :: spec in Specs(f.view) ==> SameChoice(spec, ValueFor(f, spec), ValueFor(g, spec)))
    && forall i :: 0 <= i < |f.conditions| ==> SameRow(f.view, f.conditions[i], g.conditions[i])
  }

  /** Conditions that differ at most in their values and, for attributes, in their keys. */
  ghost predicate SameRow(view: string, a: Condition, b: Condition) {
    && (ValidCondition(view, a) <==> ValidCondition(view, b))
    && a.op == b.op && (IsAttr(a) <==> IsAttr(b)) && (!IsAttr(a) ==> a.field == b.field)
  }

  lemma {:induction false} SameSpecClauses(f: Filters, g: Filters, specs: seq<Filter>, stage: Stage, nameColumn: string)
    requires forall spec :: spec in specs ==> SameChoice(spec, ValueFor(f, spec), ValueFor(g, spec))
    ensures SpecClauses(f, specs, stage, nameColumn) == SpecClauses(g, specs, stage, nameColumn)
  {
    if specs != [] {
      var front := specs[..|specs| - 1];
      forall s | s in front ensures s in specs {}
      SameSpecClauses(f, g, front, stage, nameColumn);
      assert specs[|specs| - 1] in specs;
    }
  }

  lemma {:induction false} SameCondClauses(view: string, a: seq<Condition>, b: seq<Condition>, nameColumn: string)
    requires |a| == |b| && forall i :: 0 <= i < |a| ==> SameRow(view, a[i], b[i])
    ensures CondClauses(view, a, nameColumn) == CondClauses(view, b, nameColumn)
  {
    hide ValidCondition;
    if a != [] {
      var n := |a| - 1;
      SameCondClauses(view, a[..n], b[..n], nameColumn);
      assert SameRow(view, a[n], b[n]);
      if ValidCondition(view, a[n]) {
        SameCondClause(view, a[n], b[n], n, nameColumn);
      }
    }
  }

  lemma {:induction false} SameCondClause(view: string, a: Condition, b: Condition, n: nat, nameColumn: string)
    requires ValidCondition(view, a) && ValidCondition(view, b) && SameRow(view, a, b)
    ensures CondClause(view, a, n, nameColumn) == CondClause(view, b, n, nameColumn)
  {
    hide Specs, Trim, AttrKey, IsAttr, SpecNamed;
  }

  ghost function Texts(clauses: seq<Sql>): seq<string> {
    seq(|clauses|, i requires 0 <= i < |clauses| => Render(clauses[i]))
  }

  /** The SQL depends on which filters, fragments, fields and operators were chosen, never on a value
      or an attribute key. */
  lemma TextIgnoresValues(f: Filters, g: Filters, stage: Stage, nameColumn: string)
    requires SameShape(f, g)
    ensures Texts(Clauses(f, stage, nameColumn)) == Texts(Clauses(g, stage, nameColumn))
  {
    hide SpecClauses, CondClauses, Specs, Render;
    SameSpecClauses(f, g, Specs(f.view), stage, nameColumn);
    SameCondClauses(f.view, f.conditions, g.conditions, nameColumn);
  }
}
