// What each control of each view selects, column by column, with no filter table in between.
module FilterViews {
  import opened Strings
  import opened Text
  import opened FilterSql
  import opened FilterMeaning

  // --------------------------------------------------------------- single controls

  /** The text given for a control, "" when there is none. */
  function Given(f: Filters, key: string): string {
    if key in f.values && f.values[key].Text? then f.values[key].s else ""
  }

  /** The number given, 0 when there is none. */
  function GivenNumber(f: Filters, key: string): real {
    if key in f.values && f.values[key].Number? then f.values[key].r else 0.0
  }

  predicate Picked(f: Filters, key: string, row: Row, column: string) {
    Given(f, key) != "" ==> TextOf(row, column) == Given(f, key)
  }

  predicate TextGiven(f: Filters, key: string) {
    key in f.values ==> f.values[key].Text?
  }

  predicate NumberGiven(f: Filters, key: string) {
    key in f.values ==> f.values[key].Number? && f.values[key].r >= 0.0
  }

  // ------------------------------------------------------------------ the three views

  predicate TypedPickers(f: Filters) {
    && TextGiven(f, "q") && TextGiven(f, "server") && TextGiven(f, "tool") && TextGiven(f, "method")
    && TextGiven(f, "transport") && TextGiven(f, "failure_category")
    && NumberGiven(f, "min_duration_ms") && NumberGiven(f, "max_duration_ms")
  }

  /** Searching looks in four columns, each picker compares its own, the durations bound one. */
  predicate PickersMean(f: Filters, row: Row) {
    && (Given(f, "q") != "" ==>
          || OccursIgnoringCase(TextOf(row, "trace_id"), Given(f, "q"))
          || OccursIgnoringCase(TextOf(row, "mcp_tool_name"), Given(f, "q"))
          || OccursIgnoringCase(TextOf(row, "service_name"), Given(f, "q"))
          || OccursIgnoringCase(TextOf(row, "mcp_method"), Given(f, "q")))
    && Picked(f, "server", row, "service_name") && Picked(f, "tool", row, "mcp_tool_name")
    && Picked(f, "method", row, "mcp_method") && Picked(f, "transport", row, "transport")
    && Picked(f, "failure_category", row, "failure_category")
    && (GivenNumber(f, "min_duration_ms") != 0.0 ==> NumberOf(row, "duration_ms") >= GivenNumber(f, "min_duration_ms"))
    && (GivenNumber(f, "max_duration_ms") != 0.0 ==> NumberOf(row, "duration_ms") <= GivenNumber(f, "max_duration_ms"))
  }

  /** Failed is any category that is neither a success nor one that is nobody's fault. */
  predicate StatusMeans(f: Filters, row: Row) {
    var category := TextOf(row, "failure_category");
    && (Given(f, "status") == "error" ==>
          category != "" && category != "ok" && category != "pending_input" && category != "cancelled"
          && category != "unauthorized" && category != "forbidden")
    && (Given(f, "status") == "ok" ==> category == "" || category == "ok")
  }

  predicate CapabilityWhere(f: Filters, row: Row, nameColumn: string) {
    && (Given(f, "q") != "" ==> OccursIgnoringCase(TextOf(row, nameColumn), Given(f, "q")))
    && Picked(f, "server", row, "service_name")
  }

  predicate CapabilityHaving(f: Filters, row: Row) {
    && ("errors_only" in f.values && f.values["errors_only"] == Flag(true) ==> NumberOf(row, "errors") > 0.0)
    && (GivenNumber(f, "min_calls") != 0.0 ==> NumberOf(row, "calls") >= GivenNumber(f, "min_calls"))
  }

  predicate TypedCapabilities(f: Filters) {
    && TextGiven(f, "q") && TextGiven(f, "server") && TextGiven(f, "sort") && NumberGiven(f, "min_calls")
    && ("errors_only" in f.values ==> f.values["errors_only"].Flag?)
  }

  // --------------------------------------------------------------------- conditions

  /** The columns an advanced row may name, on the trace and error lists only. */
  function ConditionColumn(view: string, field: string): string {
    if view != "traces" && view != "errors" then ""
    else if field == "server" then "service_name"
    else if field == "tool" then "mcp_tool_name"
    else if field == "method" then "mcp_method"
    else if field == "transport" then "transport"
    else if field == "failure_category" then "failure_category"
    else ""
  }

  predicate Passes(op: string, actual: string, value: string) {
    || (op == "is" && actual == value)
    || (op == "is_not" && actual != value)
    || (op == "contains" && OccursIgnoringCase(actual, value))
  }

  predicate KnownOp(op: string) {
    op == "is" || op == "is_not" || op == "contains"
  }

  /** A row with an unknown operator, a blank value, an unknown field or a blank attribute asks for nothing. */
  ghost predicate RowMeans(view: string, c: Condition, params: Params, row: Row, spans: set<StoredSpan>) {
    var value := Trim(c.value);
    KnownOp(c.op) && value != "" ==>
      if "attr." <= c.field then
        (view == "traces" || view == "errors") && Trim(c.field[5..]) != "" ==>
          exists s :: s in spans && s.traceId == TextOf(row, "trace_id")
            && s.tenant == TextOf(params, "tenant") && s.project == TextOf(params, "project")
            && s.timestamp >= NumberOf(params, "since")
            && Trim(c.field[5..]) in s.attributes && Passes(c.op, s.attributes[Trim(c.field[5..])], value)
      else
        ConditionColumn(view, c.field) != "" ==> Passes(c.op, TextOf(row, ConditionColumn(view, c.field)), value)
  }

  ghost predicate RowsMean(f: Filters, params: Params, row: Row, spans: set<StoredSpan>) {
    forall c :: c in f.conditions ==> RowMeans(f.view, c, params, row, spans)
  }

  // ------------------------------------------------------------- one filter at a time

  lemma PickerMeans(f: Filters, key: string, column: string, advanced: bool, choices: seq<string>, row: Row, nameColumn: string)
    requires TextGiven(f, key) && column != "{name}"
    ensures SpecWanted(f, Picker(key, column, advanced).(choices := choices), row, nameColumn) <==> Picked(f, key, row, column)
  {}

  lemma SearchMeans(f: Filters, row: Row, nameColumn: string)
    requires TextGiven(f, "q")
    ensures SpecWanted(f, SearchBox(["trace_id", "mcp_tool_name", "service_name", "mcp_method"]), row, nameColumn) <==>
      (Given(f, "q") != "" ==>
        || OccursIgnoringCase(TextOf(row, "trace_id"), Given(f, "q"))
        || OccursIgnoringCase(TextOf(row, "mcp_tool_name"), Given(f, "q"))
        || OccursIgnoringCase(TextOf(row, "service_name"), Given(f, "q"))
        || OccursIgnoringCase(TextOf(row, "mcp_method"), Given(f, "q")))
  {
    hide OccursIgnoringCase, TextOf;
    var columns := ["trace_id", "mcp_tool_name", "service_name", "mcp_method"];
    assert columns[0] in columns && columns[1] in columns && columns[2] in columns && columns[3] in columns;
    assert forall c :: c in columns ==> c == columns[0] || c == columns[1] || c == columns[2] || c == columns[3];
    forall i | 0 <= i < 4 ensures Named(columns[i], nameColumn) == columns[i] { assert columns[i][0] != '{'; }
    var needle := Given(f, "q");
    assert SomeColumnHas(columns, nameColumn, row, needle) <==>
      (exists i :: 0 <= i < 4 && OccursIgnoringCase(TextOf(row, columns[i]), needle));
  }

  lemma NameSearchMeans(f: Filters, row: Row, nameColumn: string)
    requires TextGiven(f, "q")
    ensures SpecWanted(f, SearchBox(["{name}"]), row, nameColumn) <==>
      (Given(f, "q") != "" ==> OccursIgnoringCase(TextOf(row, nameColumn), Given(f, "q")))
  {
    hide OccursIgnoringCase, TextOf;
    assert "{name}" in ["{name}"];
  }

  lemma StatusFilterMeans(f: Filters, row: Row, nameColumn: string)
    requires TextGiven(f, "status")
    ensures SpecWanted(f, STATUS, row, nameColumn) <==> StatusMeans(f, row)
  {
    var s, p := Given(f, "status"), STATUS.predicates;
    assert p[..1] == [p[0]] && p[..1][..0] == [];
    assert Chosen(p[..1], s) == if p[0].0 == s then Some(p[0].1) else None;
    assert Chosen(p, s) == if s == "ok" then Some(p[1].1) else if s == "error" then Some(p[0].1) else None;
    var out, ok := NOT_A_FAILURE, ["", "ok"];
    assert forall c :: c in out <==> c == out[0] || c == out[1] || c == out[2] || c == out[3] || c == out[4] || c == out[5];
    assert forall c :: c in ok <==> c == ok[0] || c == ok[1];
  }

  lemma ThresholdMeans(f: Filters, key: string, column: string, op: Op, chType: string, maximum: Option<real>, stage: Stage,
      row: Row, nameColumn: string)
    requires NumberGiven(f, key) && column != "{name}" && op != Equal
    ensures SpecWanted(f, Threshold(key, column, op, chType, maximum, stage), row, nameColumn) <==>
      (GivenNumber(f, key) != 0.0 ==>
        if op == AtLeast then NumberOf(row, column) >= GivenNumber(f, key) else NumberOf(row, column) <= GivenNumber(f, key))
  {}

  // ------------------------------------------------------------------- whole tables

  ghost predicate TableWanted(f: Filters, specs: seq<Filter>, stage: Stage, row: Row, nameColumn: string) {
    forall spec :: spec in specs && spec.stage == stage ==> SpecWanted(f, spec, row, nameColumn)
  }

  lemma EightWanted(f: Filters, specs: seq<Filter>, row: Row, nameColumn: string)
    requires |specs| == 8 && forall i :: 0 <= i < 8 ==> specs[i].stage == Where
    ensures TableWanted(f, specs, Where, row, nameColumn) <==>
      && SpecWanted(f, specs[0], row, nameColumn) && SpecWanted(f, specs[1], row, nameColumn)
      && SpecWanted(f, specs[2], row, nameColumn) && SpecWanted(f, specs[3], row, nameColumn)
      && SpecWanted(f, specs[4], row, nameColumn) && SpecWanted(f, specs[5], row, nameColumn)
      && SpecWanted(f, specs[6], row, nameColumn) && SpecWanted(f, specs[7], row, nameColumn)
  {
    hide SpecWanted;
    forall i | 0 <= i < 8 ensures specs[i] in specs {}
  }

  /** The filters that the trace and error lists share. */
  function SharedFilters(): (t: seq<Filter>)
    ensures |t| == 8 && forall i :: 0 <= i < 8 ==> t[i].stage == Where
  {
    [SearchBox(["trace_id", "mcp_tool_name", "service_name", "mcp_method"]),
     Picker("server", "service_name", true), Picker("tool", "mcp_tool_name", true), Picker("method", "mcp_method", true),
     Picker("transport", "transport", true).(choices := ["", "stdio", "streamable-http"]),
     Picker("failure_category", "failure_category", true),
     Threshold("min_duration_ms", "duration_ms", AtLeast, "Float64", None, Where),
     Threshold("max_duration_ms", "duration_ms", AtMost, "Float64", None, Where)]
  }

  lemma SharedAre()
    ensures TRACE_FILTERS == SharedFilters()[..5] + [STATUS] + SharedFilters()[5..]
    ensures ERROR_FILTERS == SharedFilters()
  {}

  lemma SharedWanted(f: Filters, row: Row, nameColumn: string)
    requires TypedPickers(f)
    ensures TableWanted(f, SharedFilters(), Where, row, nameColumn) <==> PickersMean(f, row)
  {
    hide SpecWanted, OccursIgnoringCase, TextOf, NumberOf, Given, GivenNumber, TableWanted, Picker, SearchBox, Threshold;
    var t := SharedFilters();
    EightWanted(f, t, row, nameColumn);
    SearchMeans(f, row, nameColumn);
    PlainPickerMeans(f, "server", "service_name", row, nameColumn);
    PlainPickerMeans(f, "tool", "mcp_tool_name", row, nameColumn);
    PlainPickerMeans(f, "method", "mcp_method", row, nameColumn);
    PickerMeans(f, "transport", "transport", true, ["", "stdio", "streamable-http"], row, nameColumn);
    PlainPickerMeans(f, "failure_category", "failure_category", row, nameColumn);
    ThresholdMeans(f, "min_duration_ms", "duration_ms", AtLeast, "Float64", None, Where, row, nameColumn);
    ThresholdMeans(f, "max_duration_ms", "duration_ms", AtMost, "Float64", None, Where, row, nameColumn);
  }

  lemma PlainPickerMeans(f: Filters, key: string, column: string, row: Row, nameColumn: string)
    requires TextGiven(f, key) && column != "{name}"
    ensures SpecWanted(f, Picker(key, column, true), row, nameColumn) <==> Picked(f, key, row, column)
  {
    assert Picker(key, column, true).(choices := []) == Picker(key, column, true);
    PickerMeans(f, key, column, true, [], row, nameColumn);
  }

  lemma TracesWanted(f: Filters, row: Row, nameColumn: string)
    requires TypedPickers(f) && TextGiven(f, "status")
    ensures TableWanted(f, TRACE_FILTERS, Where, row, nameColumn) <==> PickersMean(f, row) && StatusMeans(f, row)
  {
    hide SpecWanted, SharedFilters, PickersMean, StatusMeans, TRACE_FILTERS, ERROR_FILTERS;
    SharedAre();
    SharedWanted(f, row, nameColumn);
    StatusFilterMeans(f, row, nameColumn);
    var s := SharedFilters();
    forall spec ensures spec in TRACE_FILTERS <==> spec in s || spec == STATUS {
      assert s == s[..5] + s[5..];
    }
  }

  lemma FiveWanted(f: Filters, specs: seq<Filter>, row: Row, nameColumn: string)
    requires |specs| == 5 && specs[0].stage == specs[1].stage == Where && specs[2].stage == specs[3].stage == Having
    requires specs[4].stage == Sort
    ensures TableWanted(f, specs, Where, row, nameColumn) <==>
      SpecWanted(f, specs[0], row, nameColumn) && SpecWanted(f, specs[1], row, nameColumn)
    ensures TableWanted(f, specs, Having, row, nameColumn) <==>
      SpecWanted(f, specs[2], row, nameColumn) && SpecWanted(f, specs[3], row, nameColumn)
  {
    hide SpecWanted;
    forall i | 0 <= i < 5 ensures specs[i] in specs {}
  }

  lemma CapabilitiesWanted(f: Filters, row: Row, nameColumn: string)
    requires TypedCapabilities(f)
    ensures TableWanted(f, CAPABILITY_FILTERS, Where, row, nameColumn) <==> CapabilityWhere(f, row, nameColumn)
    ensures TableWanted(f, CAPABILITY_FILTERS, Having, row, nameColumn) <==> CapabilityHaving(f, row)
  {
    hide SpecWanted, OccursIgnoringCase, TextOf, NumberOf, Given, GivenNumber, TableWanted;
    var c := CAPABILITY_FILTERS;
    FiveWanted(f, c, row, nameColumn);
    NameSearchMeans(f, row, nameColumn);
    assert c[1] == Picker("server", "service_name", false).(choices := []);
    PickerMeans(f, "server", "service_name", false, [], row, nameColumn);
    ErrorsOnlyMeans(f, c[2], row, nameColumn);
    ThresholdMeans(f, "min_calls", "calls", AtLeast, "UInt32", Some(1000000.0), Having, row, nameColumn);
  }

  lemma ErrorsOnlyMeans(f: Filters, spec: Filter, row: Row, nameColumn: string)
    requires spec == Filter("errors_only", Toggle, "", [], [], [], Equal, "String", None, Having, false, Positive("errors"))
    requires "errors_only" in f.values ==> f.values["errors_only"].Flag?
    ensures SpecWanted(f, spec, row, nameColumn) <==>
      ("errors_only" in f.values && f.values["errors_only"] == Flag(true) ==> NumberOf(row, "errors") > 0.0)
  {}

  // --------------------------------------------------------------- advanced rows

  lemma {:induction false} SpecNamedFinds(specs: seq<Filter>, field: string)
    ensures SpecNamed(specs, field).Some? ==>
      SpecNamed(specs, field).value in specs && SpecNamed(specs, field).value.key == field && SpecNamed(specs, field).value.advanced
    ensures SpecNamed(specs, field).None? ==> forall s :: s in specs ==> !(s.key == field && s.advanced)
  {
    if specs != [] {
      SpecNamedFinds(specs[1..], field);
      assert specs == [specs[0]] + specs[1..];
    }
  }

  /** Of the shared filters the pickers are advanced, each naming its own column. */
  lemma SharedColumns()
    ensures forall s :: s in SharedFilters() && s.advanced ==>
      s.column == ConditionColumn("traces", s.key) && s.column != "" && s.column != "{name}"
    ensures forall field :: ConditionColumn("traces", field) != "" ==>
      exists s :: s in SharedFilters() && s.advanced && s.key == field
  {
    var t := SharedFilters();
    assert forall i :: 0 <= i < 8 ==> (t[i].advanced <==> 1 <= i <= 5);
    forall i | 1 <= i <= 5
      ensures t[i].column == ConditionColumn("traces", t[i].key) && t[i].column != "" && t[i].column != "{name}"
    {
      assert t[1].key == "server" && t[2].key == "tool" && t[3].key == "method" && t[4].key == "transport";
      assert t[5].key == "failure_category" && t[i].column[0] != '{';
    }
    forall field | ConditionColumn("traces", field) != "" ensures exists s :: s in t && s.advanced && s.key == field {
      var i := if field == "server" then 1 else if field == "tool" then 2 else if field == "method" then 3
               else if field == "transport" then 4 else 5;
      assert t[i] in t && t[i].key == field;
    }
  }

  lemma FieldColumn(view: string, field: string, nameColumn: string)
    ensures var spec := SpecNamed(Specs(view), field);
      && (spec.Some? <==> ConditionColumn(view, field) != "")
      && (spec.Some? ==> Named(spec.value.column, nameColumn) == ConditionColumn(view, field))
  {
    hide SharedFilters, TRACE_FILTERS, ERROR_FILTERS, SpecNamed, ConditionColumn;
    SpecNamedFinds(Specs(view), field);
    SharedAre();
    SharedColumns();
    SameColumns(view, field);
    var s := SharedFilters();
    if view == "traces" {
      forall spec ensures spec in TRACE_FILTERS <==> spec in s || spec == STATUS { assert s == s[..5] + s[5..]; }
    } else if view == "capabilities" {
      NothingAdvanced();
    }
  }

  lemma SameColumns(view: string, field: string)
    ensures ConditionColumn(view, field) ==
      if view == "traces" || view == "errors" then ConditionColumn("traces", field) else ""
  {}

  lemma NothingAdvanced()
    ensures forall s :: s in CAPABILITY_FILTERS ==> !s.advanced
  {
    var c := CAPABILITY_FILTERS;
    forall i | 0 <= i < |c| ensures !c[i].advanced {}
  }

  lemma OpsMean(op: string, actual: string, value: string)
    ensures TestNamed(op).Some? <==> KnownOp(op)
    ensures TestNamed(op).Some? ==> (TestPasses(TestNamed(op).value, actual, value) <==> Passes(op, actual, value))
  {
    hide OccursIgnoringCase;
  }

  lemma AttrRowAsWanted(view: string, c: Condition, params: Params, row: Row, spans: set<StoredSpan>, nameColumn: string)
    requires ValidCondition(view, c) && IsAttr(c)
    ensures RowMeans(view, c, params, row, spans) <==> ConditionWanted(view, c, params, row, spans, nameColumn)
  {
    hide TestNamed, TestPasses, Passes, KnownOp, Trim, TextOf, NumberOf;
    var key, value := Trim(c.field[5..]), Trim(c.value);
    assert |ATTR| == 5 && AttrKey(c) == key;
    OpsMean(c.op, "", value);
    forall s: StoredSpan | key in s.attributes
      ensures TestPasses(TestNamed(c.op).value, s.attributes[key], value) <==> Passes(c.op, s.attributes[key], value)
    {
      OpsMean(c.op, s.attributes[key], value);
    }
  }

  lemma FieldRowAsWanted(view: string, c: Condition, params: Params, row: Row, spans: set<StoredSpan>, nameColumn: string)
    requires ValidCondition(view, c) && !IsAttr(c)
    ensures RowMeans(view, c, params, row, spans) <==> ConditionWanted(view, c, params, row, spans, nameColumn)
  {
    hide TestNamed, TestPasses, Passes, KnownOp, Trim, ConditionColumn, SpecNamed, Specs, TextOf;
    FieldColumn(view, c.field, nameColumn);
    OpsMean(c.op, TextOf(row, ConditionColumn(view, c.field)), Trim(c.value));
  }

  lemma RowIsAsWanted(view: string, c: Condition, params: Params, row: Row, spans: set<StoredSpan>, nameColumn: string)
    ensures RowMeans(view, c, params, row, spans) <==>
      (ValidCondition(view, c) ==> ConditionWanted(view, c, params, row, spans, nameColumn))
  {
    hide ConditionWanted, TestPasses, Passes, Trim, ConditionColumn, SpecNamed, Specs, TextOf, NumberOf;
    if ValidCondition(view, c) {
      if IsAttr(c) { AttrRowAsWanted(view, c, params, row, spans, nameColumn); }
      else { FieldRowAsWanted(view, c, params, row, spans, nameColumn); }
    } else {
      FieldColumn(view, c.field, nameColumn);
      assert |ATTR| == 5;
    }
  }

  // ------------------------------------------------------------------ whole requests

  lemma ConditionsAsWanted(f: Filters, params: Params, row: Row, spans: set<StoredSpan>, nameColumn: string)
    ensures RowsMean(f, params, row, spans) <==> ConditionsWanted(f, params, row, spans, nameColumn)
  {
    hide RowMeans, ConditionWanted, ValidCondition;
    forall c ensures RowMeans(f.view, c, params, row, spans) <==>
      (ValidCondition(f.view, c) ==> ConditionWanted(f.view, c, params, row, spans, nameColumn))
    {
      RowIsAsWanted(f.view, c, params, row, spans, nameColumn);
    }
  }

  lemma SharedTyped(f: Filters)
    requires TypedPickers(f)
    ensures forall s :: s in SharedFilters() ==> WellTyped(s, ValueFor(f, s))
  {
    var t := SharedFilters();
    forall i | 0 <= i < 8 ensures WellTyped(t[i], ValueFor(f, t[i])) {
      assert t[0].key == "q" && t[1].key == "server" && t[2].key == "tool" && t[3].key == "method" && t[4].key == "transport";
      assert t[5].key == "failure_category" && t[6].key == "min_duration_ms" && t[7].key == "max_duration_ms";
    }
  }

  /** The trace list selects exactly what its controls and advanced rows ask for. */
  lemma TracesSelect(f: Filters, params: Params, row: Row, spans: set<StoredSpan>, nameColumn: string)
    requires f.view == "traces" && TypedPickers(f) && TextGiven(f, "status") && Extends(params, Bindings(f, Where))
    ensures AllHold(Clauses(f, Where, nameColumn), params, row, spans) <==>
      PickersMean(f, row) && StatusMeans(f, row) && RowsMean(f, params, row, spans)
  {
    hide AllHold, Clauses, Bindings, SpecWanted, ConditionsWanted, RowsMean, PickersMean, StatusMeans, SharedFilters, TRACE_FILTERS, WellTyped;
    SharedAre();
    SharedTyped(f);
    StatusTyped(f);
    var s := SharedFilters();
    forall spec ensures spec in TRACE_FILTERS <==> spec in s || spec == STATUS { assert s == s[..5] + s[5..]; }
    CompilerPreservesMeaning(f, Where, params, row, spans, nameColumn);
    TracesWanted(f, row, nameColumn);
    ConditionsAsWanted(f, params, row, spans, nameColumn);
  }

  lemma StatusTyped(f: Filters)
    requires TextGiven(f, "status")
    ensures WellTyped(STATUS, ValueFor(f, STATUS))
  {}

  /** The error list does too; it has no status. */
  lemma ErrorsSelect(f: Filters, params: Params, row: Row, spans: set<StoredSpan>, nameColumn: string)
    requires f.view == "errors" && TypedPickers(f) && Extends(params, Bindings(f, Where))
    ensures AllHold(Clauses(f, Where, nameColumn), params, row, spans) <==> PickersMean(f, row) && RowsMean(f, params, row, spans)
  {
    hide AllHold, Clauses, Bindings, SpecWanted, ConditionsWanted, RowsMean, PickersMean, SharedFilters, ERROR_FILTERS, WellTyped;
    SharedAre();
    SharedTyped(f);
    CompilerPreservesMeaning(f, Where, params, row, spans, nameColumn);
    SharedWanted(f, row, nameColumn);
    ConditionsAsWanted(f, params, row, spans, nameColumn);
  }

  lemma CapabilitiesTyped(f: Filters)
    requires TypedCapabilities(f)
    ensures forall s :: s in CAPABILITY_FILTERS ==> WellTyped(s, ValueFor(f, s))
  {
    var c := CAPABILITY_FILTERS;
    forall i | 0 <= i < 5 ensures WellTyped(c[i], ValueFor(f, c[i])) {}
  }

  /** The capability tables: a name search and a server on the rows, errors and a call count on the groups. */
  lemma CapabilitiesSelect(f: Filters, params: Params, row: Row, spans: set<StoredSpan>, nameColumn: string)
    requires f.view == "capabilities" && TypedCapabilities(f)
    ensures Extends(params, Bindings(f, Where)) ==>
      (AllHold(Clauses(f, Where, nameColumn), params, row, spans) <==>
        CapabilityWhere(f, row, nameColumn) && RowsMean(f, params, row, spans))
    ensures Extends(params, Bindings(f, Having)) ==>
      (AllHold(Clauses(f, Having, nameColumn), params, row, spans) <==> CapabilityHaving(f, row))
  {
    hide AllHold, Clauses, Bindings, SpecWanted, ConditionsWanted, RowsMean, CapabilityWhere, CapabilityHaving, CAPABILITY_FILTERS, WellTyped, Extends;
    CapabilitiesTyped(f);
    CapabilitiesWanted(f, row, nameColumn);
    ConditionsAsWanted(f, params, row, spans, nameColumn);
    if Extends(params, Bindings(f, Where)) { CompilerPreservesMeaning(f, Where, params, row, spans, nameColumn); }
    if Extends(params, Bindings(f, Having)) { CompilerPreservesMeaning(f, Having, params, row, spans, nameColumn); }
  }

  // ----------------------------------------------------------------- text and meaning

  /** A comparison is written with the operator it means. */
  lemma ComparisonReads(column: string, param: string, chType: string, params: Params, row: Row, spans: set<StoredSpan>)
    requires param in params && params[param].Number?
    ensures var bound, value := params[param].r, NumberOf(row, column);
      && Render(Compare(column, AtLeast, param, chType)) == column + " " + ">=" + " " + ("{" + param + ":" + chType + "}")
      && (Holds(Compare(column, AtLeast, param, chType), params, row, spans) <==> value >= bound)
      && Render(Compare(column, AtMost, param, chType)) == column + " " + "<=" + " " + ("{" + param + ":" + chType + "}")
      && (Holds(Compare(column, AtMost, param, chType), params, row, spans) <==> value <= bound)
      && Render(Compare(column, Equal, param, chType)) == column + " " + "=" + " " + ("{" + param + ":" + chType + "}")
      && (Holds(Compare(column, Equal, param, chType), params, row, spans) <==> value == bound)
  {}

  /** So are the tests on text. */
  lemma TextTestsRead(column: string, param: string, params: Params, row: Row, spans: set<StoredSpan>)
    ensures Render(Differs(column, param)) == column + " != " + ("{" + param + ":String}")
    ensures Holds(Differs(column, param), params, row, spans) <==> TextOf(row, column) != TextOf(params, param)
    ensures Render(Matches([column], param)) ==
      "(" + ("positionCaseInsensitive(" + column + ", " + ("{" + param + ":String}") + ") > 0") + ")"
    ensures Holds(Matches([column], param), params, row, spans) <==> OccursIgnoringCase(TextOf(row, column), TextOf(params, param))
  {
    hide OccursIgnoringCase, TextOf;
    assert Placeholder(param, "String") == "{" + param + ":String}";
    hide Placeholder;
    assert |Positions([column], param)| == 1;
    OneColumnMatch(column, param, params, row, spans);
  }

  /** And those on constants: errors above zero, and a list that is in or out. */
  lemma ConstantTestsRead(column: string, params: Params, row: Row, spans: set<StoredSpan>)
    ensures Render(Positive(column)) == column + " > 0"
    ensures Holds(Positive(column), params, row, spans) <==> NumberOf(row, column) > 0.0
    ensures Render(OneOf(column, ["", "ok"])) == column + " IN (" + ("''" + ", " + "'ok'") + ")"
    ensures Render(NoneOf(column, ["", "ok"])) == column + " NOT IN (" + ("''" + ", " + "'ok'") + ")"
    ensures Holds(OneOf(column, ["", "ok"]), params, row, spans) <==> TextOf(row, column) == "" || TextOf(row, column) == "ok"
    ensures Holds(NoneOf(column, ["", "ok"]), params, row, spans) <==> !(TextOf(row, column) == "" || TextOf(row, column) == "ok")
  {
    hide TextOf, NumberOf, Joined;
    QuotedPair();
    var two := ["", "ok"];
    assert forall c :: c in two <==> c == two[0] || c == two[1];
  }

  lemma QuotedPair()
    ensures Joined(Quoted(["", "ok"]), ", ") == "''" + ", " + "'ok'"
  {
    var quoted := Quoted(["", "ok"]);
    assert quoted[0] == "'" + "" + "'" == "''" && quoted[1] == "'" + "ok" + "'" == "'ok'";
    assert |quoted| == 2 && quoted[1..] == [quoted[1]];
  }

  const ATTRIBUTE_SCOPE: string :=
    "trace_id IN (SELECT trace_id FROM spans_raw WHERE tenant_id = {tenant:String} AND project_id = "
    + "{project:String} AND timestamp >= {since:DateTime} AND "

  /** A search in two columns is either of the two searches. */
  lemma SearchReads(a: string, b: string, param: string)
    ensures Render(Matches([a, b], param)) ==
      "(" + (("positionCaseInsensitive(" + a + ", " + Placeholder(param, "String") + ") > 0") + " OR "
           + ("positionCaseInsensitive(" + b + ", " + Placeholder(param, "String") + ") > 0")) + ")"
  {
    hide Placeholder;
    var p := Positions([a, b], param);
    assert |p| == 2 && p[1..] == [p[1]] && Joined([p[1]], " OR ") == p[1];
    assert Joined(p, " OR ") == p[0] + " OR " + p[1];
  }

  /** The clause of an attribute condition: the scope, and the test on one map entry that it means. */
  lemma AttributeTestsRead(key: string, value: string)
    ensures var entry := "span_attributes[" + ("{" + key + ":String}") + "]";
      && TestText(Is, key, value) == entry + " = " + ("{" + value + ":String}")
      && TestText(IsNot, key, value) ==
           "mapContains(span_attributes, " + ("{" + key + ":String}") + ") AND " + entry + " != " + ("{" + value + ":String}")
      && TestText(Contains, key, value) == "positionCaseInsensitive(" + entry + ", " + ("{" + value + ":String}") + ") > 0"
    ensures forall test :: Render(SpanHas(test, key, value)) == ATTRIBUTE_SCOPE + TestText(test, key, value) + ")"
  {
    assert Placeholder(key, "String") == "{" + key + ":String}" && Placeholder(value, "String") == "{" + value + ":String}";
    hide Placeholder;
  }

  /** The types the placeholders are declared with: text for pickers and conditions, numbers for bounds. */
  lemma PlaceholdersRead(c: Condition, i: nat, nameColumn: string, s: string, n: real)
    requires s != "" && n != 0.0
    ensures ClauseOf(Picker("server", "service_name", true), Some(Text(s)), nameColumn) ==
      Some(Compare("service_name", Equal, "f_server", "String"))
    ensures ClauseOf(TRACE_FILTERS[7], Some(Number(n)), nameColumn) == Some(Compare("duration_ms", AtLeast, "f_min_duration_ms", "Float64"))
    ensures ClauseOf(TRACE_FILTERS[8], Some(Number(n)), nameColumn) == Some(Compare("duration_ms", AtMost, "f_max_duration_ms", "Float64"))
    ensures ClauseOf(CAPABILITY_FILTERS[3], Some(Number(n)), nameColumn) == Some(Compare("calls", AtLeast, "f_min_calls", "UInt32"))
    ensures ValidCondition("traces", c) && !IsAttr(c) && c.op == "is" ==>
      CondClause("traces", c, i, nameColumn) == Compare(ConditionColumn("traces", c.field), Equal, "f_c" + Decimal(i), "String")
  {
    hide ConditionColumn, SpecNamed, Specs, Trim;
    assert "service_name"[0] != '{' && "duration_ms"[0] != '{' && "calls"[0] != '{';
    assert "f_" + "server" == "f_server" && "f_" + "min_calls" == "f_min_calls";
    assert "f_" + "min_duration_ms" == "f_min_duration_ms" && "f_" + "max_duration_ms" == "f_max_duration_ms";
    FieldColumn("traces", c.field, nameColumn);
  }
}
