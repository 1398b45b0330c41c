// The filter compiler: a view's filters and advanced conditions become SQL clauses over bound
// parameters. Clauses are kept as a small syntax tree with its text and its meaning.
module FilterSql {
  import opened Strings
  import opened Text

  datatype Value = Text(s: string) | Number(r: real) | Flag(b: bool)

  datatype Op = Equal | AtLeast | AtMost

  /** The condition rows' operators. */
  datatype Test = Is | IsNot | Contains

  datatype Sql =
    | Matches(columns: seq<string>, param: string)             // OR of positionCaseInsensitive(...) > 0
    | Compare(column: string, op: Op, param: string, chType: string)
    | Differs(column: string, param: string)
    | OneOf(column: string, values: seq<string>)
    | NoneOf(column: string, values: seq<string>)
    | Positive(column: string)
    | SpanHas(test: Test, keyParam: string, valueParam: string)  // trace_id IN (SELECT ... FROM spans_raw ...)

  // ----------------------------------------------------------------------- text

  function OpText(op: Op): string {
    match op
    case Equal => "="
    case AtLeast => ">="
    case AtMost => "<="
  }

  function Joined(parts: seq<string>, separator: string): string {
    if parts == [] then "" else if |parts| == 1 then parts[0] else parts[0] + separator + Joined(parts[1..], separator)
  }

  function Quoted(values: seq<string>): seq<string> {
    seq(|values|, i requires 0 <= i < |values| => "'" + values[i] + "'")
  }

  function Placeholder(param: string, chType: string): string {
    "{" + param + ":" + chType + "}"
  }

  function Positions(columns: seq<string>, param: string): seq<string> {
    seq(|columns|, i requires 0 <= i < |columns| =>
      "positionCaseInsensitive(" + columns[i] + ", " + Placeholder(param, "String") + ") > 0")
  }

  function TestText(test: Test, keyParam: string, valueParam: string): string {
    var lookup := "span_attributes[" + Placeholder(keyParam, "String") + "]";
    match test
    case Contains => "positionCaseInsensitive(" + lookup + ", " + Placeholder(valueParam, "String") + ") > 0"
    case IsNot => "mapContains(span_attributes, " + Placeholder(keyParam, "String") + ") AND "
                + lookup + " != " + Placeholder(valueParam, "String")
    case Is => lookup + " = " + Placeholder(valueParam, "String")
  }

  /** The clause as ClickHouse receives it. */
  function Render(c: Sql): string {
    match c
    case Matches(columns, param) => "(" + Joined(Positions(columns, param), " OR ") + ")"
    case Compare(column, op, param, chType) => column + " " + OpText(op) + " " + Placeholder(param, chType)
    case Differs(column, param) => column + " != " + Placeholder(param, "String")
    case OneOf(column, values) => column + " IN (" + Joined(Quoted(values), ", ") + ")"
    case NoneOf(column, values) => column + " NOT IN (" + Joined(Quoted(values), ", ") + ")"
    case Positive(column) => column + " > 0"
    case SpanHas(test, keyParam, valueParam) =>
      "trace_id IN (SELECT trace_id FROM spans_raw WHERE tenant_id = {tenant:String} AND project_id = "
      + "{project:String} AND timestamp >= {since:DateTime} AND " + TestText(test, keyParam, valueParam) + ")"
  }

  // -------------------------------------------------------------------- meaning

  /** `positionCaseInsensitive(hay, needle) > 0`, which folds ASCII letters. */
  function OccursIgnoringCase(hay: string, needle: string): bool {
    Occurs(Lower(hay), Lower(needle))
  }

  /** An aggregated row: its columns by name. */
  type Row = map<string, Value>

  type Params = map<string, Value>

  /** One stored version of a span; a span may have several. */
  datatype StoredSpan = StoredSpan(
    tenant: string, project: string, timestamp: real, traceId: string, spanId: string, version: nat,
    attributes: map<string, string>)

  function TextOf(m: map<string, Value>, name: string): string {
    if name in m && m[name].Text? then m[name].s else ""
  }

  function NumberOf(m: map<string, Value>, name: string): real {
    if name in m && m[name].Number? then m[name].r else 0.0
  }

  predicate CompareValues(op: Op, left: Row, column: string, right: Value) {
    match right
    case Text(s) => op == Equal && TextOf(left, column) == s
    case Number(r) =>
      (match op
       case Equal => NumberOf(left, column) == r
       case AtLeast => NumberOf(left, column) >= r
       case AtMost => NumberOf(left, column) <= r)
    case Flag(_) => false
  }

  /** The inner WHERE over one stored span. A key never set reads as the empty string. */
  predicate SpanTest(test: Test, span: StoredSpan, key: string, value: string) {
    var lookup := if key in span.attributes then span.attributes[key] else "";
    match test
    case Contains => OccursIgnoringCase(lookup, value)
    case IsNot => key in span.attributes && lookup != value
    case Is => lookup == value
  }

  predicate InScope(span: StoredSpan, params: Params) {
    && span.tenant == TextOf(params, "tenant") && span.project == TextOf(params, "project")
    && span.timestamp >= NumberOf(params, "since")
  }

  /** What a clause selects, its placeholders read from the bound parameters. */
  ghost predicate Holds(c: Sql, params: Params, row: Row, spans: set<StoredSpan>) {
    match c
    case Matches(columns, param) =>
      exists i :: 0 <= i < |columns| && OccursIgnoringCase(TextOf(row, columns[i]), TextOf(params, param))
    case Compare(column, op, param, _) => param in params && CompareValues(op, row, column, params[param])
    case Differs(column, param) => TextOf(row, column) != TextOf(params, param)
    case OneOf(column, values) => TextOf(row, column) in values
    case NoneOf(column, values) => TextOf(row, column) !in values
    case Positive(column) => NumberOf(row, column) > 0.0
    case SpanHas(test, keyParam, valueParam) =>
      exists span :: span in spans && span.traceId == TextOf(row, "trace_id") && InScope(span, params)
        && SpanTest(test, span, TextOf(params, keyParam), TextOf(params, valueParam))
  }

  // ---------------------------------------------------------------------- filters

  datatype Kind = Select | Search | Toggle | NumberInput

  datatype Stage = Where | Having | Sort

  datatype Filter = Filter(
    key: string,
    kind: Kind,
    column: string,                        // compared column; unused by searches and toggles
    columns: seq<string>,                  // searched columns; `{name}` is the capability's name column
    choices: seq<string>,
    predicates: seq<(string, Sql)>,        // value -> fragment
    op: Op,
    chType: string,
    maximum: Option<real>,
    stage: Stage,
    advanced: bool,
    flag: Sql)                             // a toggle's fragment

  const NO_FLAG: Sql := Positive("")
  const NOT_A_FAILURE: seq<string> := ["", "ok", "pending_input", "cancelled", "unauthorized", "forbidden"]

  function Picker(key: string, column: string, advanced: bool): Filter {
    Filter(key, Select, column, [], [], [], Equal, "String", None, Where, advanced, NO_FLAG)
  }

  const TRANSPORT: Filter :=
    Picker("transport", "transport", true).(choices := ["", "stdio", "streamable-http"])

  const STATUS: Filter :=
    Picker("status", "", false).(choices := ["", "ok", "error"],
      predicates := [("error", NoneOf("failure_category", NOT_A_FAILURE)), ("ok", OneOf("failure_category", ["", "ok"]))])

  function SearchBox(columns: seq<string>): Filter {
    Filter("q", Search, "", columns, [], [], Equal, "String", None, Where, false, NO_FLAG)
  }

  function Threshold(key: string, column: string, op: Op, chType: string, maximum: Option<real>, stage: Stage): Filter {
    Filter(key, NumberInput, column, [], [], [], op, chType, maximum, stage, false, NO_FLAG)
  }

  const TRACE_FILTERS: seq<Filter> := [
    SearchBox(["trace_id", "mcp_tool_name", "service_name", "mcp_method"]),
    Picker("server", "service_name", true),
    Picker("tool", "mcp_tool_name", true),
    Picker("method", "mcp_method", true),
    TRANSPORT,
    STATUS,
    Picker("failure_category", "failure_category", true),
    Threshold("min_duration_ms", "duration_ms", AtLeast, "Float64", None, Where),
    Threshold("max_duration_ms", "duration_ms", AtMost, "Float64", None, Where)]

  /** The error list has every trace filter but `status`, at position 5. */
  const ERROR_FILTERS: seq<Filter> := TRACE_FILTERS[..5] + TRACE_FILTERS[6..]

  const CAPABILITY_FILTERS: seq<Filter> := [
    SearchBox(["{name}"]),
    Picker("server", "service_name", false),
    Filter("errors_only", Toggle, "", [], [], [], Equal, "String", None, Having, false, Positive("errors")),
    Threshold("min_calls", "calls", AtLeast, "UInt32", Some(1000000.0), Having),
    Picker("sort", "", false).(choices := ["calls", "errors", "p95", "name", "last_seen"], stage := Sort)]

  function Specs(view: string): seq<Filter> {
    if view == "traces" then TRACE_FILTERS
    else if view == "errors" then ERROR_FILTERS
    else if view == "capabilities" then CAPABILITY_FILTERS
    else []
  }

  function Named(column: string, nameColumn: string): string {
    if column == "{name}" then nameColumn else column
  }

  function NamedAll(columns: seq<string>, nameColumn: string): seq<string> {
    seq(|columns|, i requires 0 <= i < |columns| => Named(columns[i], nameColumn))
  }

  /** `value in (None, "", False)`, negated. The number 0 equals False, so it counts as absent. */
  predicate Active(v: Option<Value>) {
    match v
    case None => false
    case Some(Text(s)) => s != ""
    case Some(Number(r)) => r != 0.0
    case Some(Flag(b)) => b
  }

  function Param(spec: Filter): string {
    "f_" + spec.key
  }

  function Chosen(predicates: seq<(string, Sql)>, value: string): Option<Sql> {
    if predicates == [] then None
    else if predicates[|predicates| - 1].0 == value then Some(predicates[|predicates| - 1].1)
    else Chosen(predicates[..|predicates| - 1], value)
  }

  /** `Filter.clause`, its fragment. */
  function ClauseOf(spec: Filter, v: Option<Value>, nameColumn: string): Option<Sql> {
    if !Active(v) then None
    else if spec.predicates != [] then (if v.value.Text? then Chosen(spec.predicates, v.value.s) else None)
    else if spec.kind == Search then Some(Matches(NamedAll(spec.columns, nameColumn), Param(spec)))
    else if spec.kind == Toggle then Some(spec.flag)
    else Some(Compare(Named(spec.column, nameColumn), spec.op, Param(spec), spec.chType))
  }

  /** `Filter.clause`, what it binds. */
  function BindingOf(spec: Filter, v: Option<Value>): Params {
    if !Active(v) || spec.predicates != [] || spec.kind == Toggle then map[]
    else map[Param(spec) := v.value]
  }

  // ------------------------------------------------------------------- conditions

  datatype Condition = Condition(field: string, op: string, value: string)

  const ATTR: string := "attr."

  predicate IsAttr(c: Condition) {
    ATTR <= c.field
  }

  function AttrKey(c: Condition): string
    requires IsAttr(c)
  {
    Trim(c.field[|ATTR|..])
  }

  function TestNamed(op: string): Option<Test> {
    if op == "is" then Some(Is)
    else if op == "is_not" then Some(IsNot)
    else if op == "contains" then Some(Contains)
    else None
  }

  /** The advanced filter a condition names. */
  function SpecNamed(specs: seq<Filter>, field: string): Option<Filter> {
    if specs == [] then None
    else if specs[0].key == field && specs[0].advanced then Some(specs[0])
    else SpecNamed(specs[1..], field)
  }

  predicate ValidCondition(view: string, c: Condition) {
    && TestNamed(c.op).Some? && Trim(c.value) != ""
    && if IsAttr(c) then view in {"traces", "errors"} && AttrKey(c) != ""
       else SpecNamed(Specs(view), c.field).Some?
  }

  function CondParam(i: nat): string { "f_c" + Decimal(i) }
  function KeyParam(i: nat): string { "f_c" + Decimal(i) + "_key" }
  function ValueParam(i: nat): string { "f_c" + Decimal(i) + "_val" }

  function CondClause(view: string, c: Condition, i: nat, nameColumn: string): Sql
    requires ValidCondition(view, c)
  {
    var test := TestNamed(c.op).value;
    if IsAttr(c) then SpanHas(test, KeyParam(i), ValueParam(i))
    else
      var column := Named(SpecNamed(Specs(view), c.field).value.column, nameColumn);
      match test
      case Contains => Matches([column], CondParam(i))
      case IsNot => Differs(column, CondParam(i))
      case Is => Compare(column, Equal, CondParam(i), "String")
  }

  function CondBinding(view: string, c: Condition, i: nat): Params
    requires ValidCondition(view, c)
  {
    if IsAttr(c) then map[KeyParam(i) := Text(AttrKey(c)), ValueParam(i) := Text(Trim(c.value))]
    else map[CondParam(i) := Text(Trim(c.value))]
  }

  // --------------------------------------------------------------- a whole request

  datatype Filters = Filters(view: string, values: map<string, Value>, conditions: seq<Condition>)

  function ValueFor(f: Filters, spec: Filter): Option<Value> {
    if spec.key in f.values then Some(f.values[spec.key]) else None
  }

  function OptionalClause(c: Option<Sql>): seq<Sql> {
    match c
    case None => []
    case Some(x) => [x]
  }

  function SpecClauses(f: Filters, specs: seq<Filter>, stage: Stage, nameColumn: string): seq<Sql> {
    if specs == [] then []
    else
      var front, last := SpecClauses(f, specs[..|specs| - 1], stage, nameColumn), specs[|specs| - 1];
      if last.stage == stage then front + OptionalClause(ClauseOf(last, ValueFor(f, last), nameColumn)) else front
  }

  function SpecBindings(f: Filters, specs: seq<Filter>, stage: Stage): Params {
    if specs == [] then map[]
    else
      var front, last := SpecBindings(f, specs[..|specs| - 1], stage), specs[|specs| - 1];
      if last.stage == stage then front + BindingOf(last, ValueFor(f, last)) else front
  }

  function CondClauses(view: string, conditions: seq<Condition>, nameColumn: string): seq<Sql> {
    if conditions == [] then []
    else
      var n := |conditions| - 1;
      var front := CondClauses(view, conditions[..n], nameColumn);
      if ValidCondition(view, conditions[n]) then front + [CondClause(view, conditions[n], n, nameColumn)] else front
  }

  function CondBindings(view: string, conditions: seq<Condition>): Params {
    if conditions == [] then map[]
    else
      var n := |conditions| - 1;
      var front := CondBindings(view, conditions[..n]);
      if ValidCondition(view, conditions[n]) then front + CondBinding(view, conditions[n], n) else front
  }

  function Clauses(f: Filters, stage: Stage, nameColumn: string): seq<Sql> {
    SpecClauses(f, Specs(f.view), stage, nameColumn) +
    (if stage == Where then CondClauses(f.view, f.conditions, nameColumn) else [])
  }

  function Bindings(f: Filters, stage: Stage): Params {
    SpecBindings(f, Specs(f.view), stage) + (if stage == Where then CondBindings(f.view, f.conditions) else map[])
  }
}
