// Attribute conditions read every stored version of a span, while everything else on the page reads the
// latest one. When the two select the same traces.
module FilterVersions {
  import opened Strings
  import opened Text
  import opened FilterSql
  import opened FilterMeaning

  predicate SameSpan(a: StoredSpan, b: StoredSpan) {
    a.traceId == b.traceId && a.spanId == b.spanId
  }

  ghost predicate Superseded(spans: set<StoredSpan>, params: Params, s: StoredSpan) {
    exists newer :: newer in spans && InScope(newer, params) && SameSpan(newer, s) && newer.version > s.version
  }

  /** The versions a latest-version read shows: of the spans in scope, each span's greatest version. */
  ghost function Latest(spans: set<StoredSpan>, params: Params): set<StoredSpan> {
    set s | s in spans && InScope(s, params) && !Superseded(spans, params, s)
  }

  /** Some span of the trace passes a condition on an attribute. */
  ghost predicate Selects(test: Test, key: string, value: string, params: Params, trace: string, spans: set<StoredSpan>) {
    exists s :: s in spans && s.traceId == trace && InScope(s, params) && SpanTest(test, s, key, value)
  }

  /** A span of the trace, in scope, that has the attribute. */
  predicate Holder(s: StoredSpan, params: Params, trace: string, key: string) {
    s.traceId == trace && InScope(s, params) && key in s.attributes
  }

  // ------------------------------------------------------------------- conditions

  /** The compiled clause of an attribute condition asks whether some stored version passes. */
  lemma ClauseSelects(view: string, c: Condition, i: nat, params: Params, row: Row, spans: set<StoredSpan>, nameColumn: string)
    requires ValidCondition(view, c) && IsAttr(c) && Extends(params, CondBinding(view, c, i))
    ensures Holds(CondClause(view, c, i, nameColumn), params, row, spans) <==>
      Selects(TestNamed(c.op).value, AttrKey(c), Trim(c.value), params, TextOf(row, "trace_id"), spans)
  {
    hide InScope, SpanTest, Trim;
    RolesDiffer(i, i);
    assert params[KeyParam(i)] == Text(AttrKey(c)) && params[ValueParam(i)] == Text(Trim(c.value));
  }

  /** A trace that the latest versions select is always selected. */
  lemma LatestSelectsFewer(test: Test, key: string, value: string, params: Params, trace: string, spans: set<StoredSpan>)
    ensures Selects(test, key, value, params, trace, Latest(spans, params)) ==> Selects(test, key, value, params, trace, spans)
  {}

  /** Text a condition row can ask for: it is read back with the blanks at both ends cut off. */
  predicate Askable(s: string) {
    s != "" && Trim(s) == s
  }

  lemma AskableEdges(s: string)
    requires Askable(s)
    ensures s != "" && !IsSpace(s[0]) && !IsSpace(s[|s| - 1])
  {
    var _ := TrimmedPart(s);
  }

  lemma EdgesAskable(s: string)
    requires s != "" && !IsSpace(s[0]) && !IsSpace(s[|s| - 1])
    ensures Askable(s)
  {}

  /** Only spans that have the attribute pass. */
  lemma SelectsHolder(test: Test, key: string, value: string, params: Params, trace: string, spans: set<StoredSpan>)
    requires value != ""
    ensures Selects(test, key, value, params, trace, spans) <==>
      exists s :: s in spans && Holder(s, params, trace, key) && TestPasses(test, s.attributes[key], value)
  {
    hide SpanTest, TestPasses, InScope;
    forall s ensures SpanTest(test, s, key, value) <==> key in s.attributes && TestPasses(test, s.attributes[key], value) {
      MissingKeyNeverMatches(test, s, key, value);
    }
    if Selects(test, key, value, params, trace, spans) {
      var s :| s in spans && s.traceId == trace && InScope(s, params) && SpanTest(test, s, key, value);
      assert Holder(s, params, trace, key);
    }
    if s :| s in spans && Holder(s, params, trace, key) && TestPasses(test, s.attributes[key], value) {
      assert SpanTest(test, s, key, value);
    }
  }

  // ------------------------------------------------- when the old versions do not show

  /** What the trace still has of a value that some version of one of its spans had, as far as conditions
      with this operator can tell: for `is` the value, if it can be asked for at all; for `is_not` the value,
      or one that cannot be asked for, or two different ones; for `contains` a value that the old one, its
      blanks cut off, occurs in. */
  ghost predicate Shown(test: Test, was: string, key: string, params: Params, trace: string, latest: set<StoredSpan>) {
    match test
    case Is => Askable(was) ==> exists s :: s in latest && Holder(s, params, trace, key) && s.attributes[key] == was
    case IsNot =>
      exists s, x :: s in latest && x in latest && Holder(s, params, trace, key) && Holder(x, params, trace, key)
        && (s.attributes[key] == was || !Askable(s.attributes[key]) || s.attributes[key] != x.attributes[key])
    case Contains =>
      Trim(was) != "" ==>
        exists s :: s in latest && Holder(s, params, trace, key) && OccursIgnoringCase(s.attributes[key], Trim(was))
  }

  /** All versions and the latest ones answer every question on this attribute of this trace alike. */
  ghost predicate Agrees(test: Test, key: string, params: Params, trace: string, spans: set<StoredSpan>) {
    forall w :: Askable(w) ==>
      (Selects(test, key, w, params, trace, spans) <==> Selects(test, key, w, params, trace, Latest(spans, params)))
  }

  ghost predicate AllShown(test: Test, key: string, params: Params, trace: string, spans: set<StoredSpan>) {
    forall s :: s in spans && Holder(s, params, trace, key) ==>
      Shown(test, s.attributes[key], key, params, trace, Latest(spans, params))
  }

  lemma ShownAnswers(test: Test, was: string, key: string, w: string, params: Params, trace: string, latest: set<StoredSpan>)
    requires Askable(w) && TestPasses(test, was, w) && Shown(test, was, key, params, trace, latest)
    ensures exists s :: s in latest && Holder(s, params, trace, key) && TestPasses(test, s.attributes[key], w)
  {
    hide InScope, IsSpace, Trim;
    match test
    case Is =>
    case IsNot =>
      var s, x :| s in latest && x in latest && Holder(s, params, trace, key) && Holder(x, params, trace, key)
        && (s.attributes[key] == was || !Askable(s.attributes[key]) || s.attributes[key] != x.attributes[key]);
      assert s.attributes[key] != w || x.attributes[key] != w;
    case Contains =>
      AskableEdges(w);
      TrimmedSearch(was, w);
      assert Trim(was) != "" by { if Trim(was) == "" { NotInEmpty(w); } }
      var s :| s in latest && Holder(s, params, trace, key) && OccursIgnoringCase(s.attributes[key], Trim(was));
      OccursTransitive(Lower(s.attributes[key]), Lower(Trim(was)), Lower(w));
  }

  lemma SomethingElse(was: string) returns (w: string)
    ensures Askable(w) && w != was
  {
    w := if was == "a" then "b" else "a";
    EdgesAskable(w);
  }

  /** A question that tells a value no longer shown from those that are. */
  lemma HiddenAnswer(test: Test, was: string, key: string, params: Params, trace: string, latest: set<StoredSpan>)
    returns (w: string)
    requires !Shown(test, was, key, params, trace, latest)
    ensures Askable(w) && TestPasses(test, was, w)
    ensures !exists s :: s in latest && Holder(s, params, trace, key) && TestPasses(test, s.attributes[key], w)
  {
    hide InScope, Askable, Trim;
    match test
    case Is =>
      w := was;
    case IsNot =>
      if s :| s in latest && Holder(s, params, trace, key) {
        w := s.attributes[key];
      } else {
        w := SomethingElse(was);
      }
    case Contains =>
      w := Trim(was);
      TrimmedAskable(was);
      AskableEdges(w);
      Everywhere(w);
      TrimmedSearch(was, w);
  }

  lemma TrimmedAskable(s: string)
    requires Trim(s) != ""
    ensures Askable(Trim(s)) && Trim(Trim(s)) == Trim(s)
  {
    TrimTwice(s);
  }

  lemma Everywhere(w: string)
    ensures Occurs(Lower(w), Lower(w))
  {
    FoundAt(Lower(w), Lower(w), 0);
  }

  lemma AgreesExactly(test: Test, key: string, params: Params, trace: string, spans: set<StoredSpan>)
    ensures Agrees(test, key, params, trace, spans) <==> AllShown(test, key, params, trace, spans)
  {
    hide Selects, Shown, InScope, TestPasses, Askable, Latest;
    var latest := Latest(spans, params);
    forall w | Askable(w)
      ensures Selects(test, key, w, params, trace, spans) <==>
        exists s :: s in spans && Holder(s, params, trace, key) && TestPasses(test, s.attributes[key], w)
      ensures Selects(test, key, w, params, trace, latest) <==>
        exists s :: s in latest && Holder(s, params, trace, key) && TestPasses(test, s.attributes[key], w)
      ensures Selects(test, key, w, params, trace, latest) ==> Selects(test, key, w, params, trace, spans)
    {
      AskableEdges(w);
      SelectsHolder(test, key, w, params, trace, spans);
      SelectsHolder(test, key, w, params, trace, latest);
      LatestSelectsFewer(test, key, w, params, trace, spans);
    }
    if AllShown(test, key, params, trace, spans) {
      forall w | Askable(w) && Selects(test, key, w, params, trace, spans)
        ensures Selects(test, key, w, params, trace, latest)
      {
        var s :| s in spans && Holder(s, params, trace, key) && TestPasses(test, s.attributes[key], w);
        ShownAnswers(test, s.attributes[key], key, w, params, trace, latest);
      }
    } else {
      var s :| s in spans && Holder(s, params, trace, key) && !Shown(test, s.attributes[key], key, params, trace, latest);
      var w := HiddenAnswer(test, s.attributes[key], key, params, trace, latest);
      assert Selects(test, key, w, params, trace, spans) && !Selects(test, key, w, params, trace, latest);
    }
  }

  // -------------------------------------------------------------------- conditions

  /** The condition row that asks for a value. */
  function Asked(key: string, test: Test, value: string): (c: Condition)
    requires Askable(key) && Askable(value)
    ensures IsAttr(c) && ValidCondition("traces", c) && TestNamed(c.op) == Some(test)
    ensures AttrKey(c) == key && Trim(c.value) == value
  {
    AttrFieldKey(key);
    Condition(ATTR + key, OpName(test), value)
  }

  function OpName(test: Test): string {
    match test
    case Is => "is"
    case IsNot => "is_not"
    case Contains => "contains"
  }

  lemma AttrFieldKey(key: string)
    ensures (ATTR + key)[|ATTR|..] == key
  {}

  /** An attribute condition row with the given operator. */
  predicate AttrCondition(c: Condition, test: Test) {
    IsAttr(c) && ValidCondition("traces", c) && TestNamed(c.op) == Some(test)
  }

  /** Reading all versions answers the condition as reading the latest ones does. */
  ghost predicate SameAnswer(c: Condition, test: Test, params: Params, trace: string, spans: set<StoredSpan>)
    requires IsAttr(c)
  {
    Selects(test, AttrKey(c), Trim(c.value), params, trace, spans) <==>
      Selects(test, AttrKey(c), Trim(c.value), params, trace, Latest(spans, params))
  }

  lemma ConditionIsAskable(c: Condition)
    requires IsAttr(c) && ValidCondition("traces", c)
    ensures Askable(AttrKey(c)) && Askable(Trim(c.value))
  {
    hide Trim;
    TrimTwice(c.field[|ATTR|..]);
    TrimTwice(c.value);
  }

  /** For each operator: every condition selects the same traces from all versions as from the latest ones if
      and only if every value that some version had still shows, as far as that operator can tell. */
  lemma SameTracesExactly(test: Test, params: Params, spans: set<StoredSpan>)
    ensures (forall c, trace :: AttrCondition(c, test) ==> SameAnswer(c, test, params, trace, spans)) <==>
      (forall key, trace :: Askable(key) ==> AllShown(test, key, params, trace, spans))
  {
    hide Selects, AllShown, Askable, Latest, ValidCondition, Trim, AttrKey;
    forall key, trace ensures Agrees(test, key, params, trace, spans) <==> AllShown(test, key, params, trace, spans) {
      AgreesExactly(test, key, params, trace, spans);
    }
    if forall c, trace :: AttrCondition(c, test) ==> SameAnswer(c, test, params, trace, spans) {
      forall key, trace | Askable(key) ensures AllShown(test, key, params, trace, spans) {
        forall w | Askable(w)
          ensures Selects(test, key, w, params, trace, spans) <==> Selects(test, key, w, params, trace, Latest(spans, params))
        {
          var c := Asked(key, test, w);
          assert SameAnswer(c, test, params, trace, spans);
        }
        assert Agrees(test, key, params, trace, spans);
      }
    }
    if forall key, trace :: Askable(key) ==> AllShown(test, key, params, trace, spans) {
      forall c, trace | AttrCondition(c, test) ensures SameAnswer(c, test, params, trace, spans) {
        ConditionIsAskable(c);
        assert Agrees(test, AttrKey(c), params, trace, spans);
      }
    }
  }

  /** The compiled clause of a condition holds over all versions exactly when it holds over the latest ones,
      when every value some version had for its attribute still shows. */
  lemma ShownSameClause(c: Condition, i: nat, params: Params, row: Row, spans: set<StoredSpan>, nameColumn: string)
    requires ValidCondition("traces", c) && IsAttr(c) && Extends(params, CondBinding("traces", c, i))
    requires AllShown(TestNamed(c.op).value, AttrKey(c), params, TextOf(row, "trace_id"), spans)
    ensures Holds(CondClause("traces", c, i, nameColumn), params, row, spans) <==>
      Holds(CondClause("traces", c, i, nameColumn), params, row, Latest(spans, params))
  {
    hide Holds, CondClause, Selects, AllShown, Latest, CondBinding, Askable, Trim, AttrKey;
    ClauseSelects("traces", c, i, params, row, spans, nameColumn);
    ClauseSelects("traces", c, i, params, row, Latest(spans, params), nameColumn);
    ConditionIsAskable(c);
    AgreesExactly(TestNamed(c.op).value, AttrKey(c), params, TextOf(row, "trace_id"), spans);
  }

  // ---------------------------------------------------------------- failing inputs

  const WAS: string := "red"
  const NOW: string := "blue"

  /** What to ask to find the old value: for it, or for anything but the new one. */
  function Question(test: Test): (w: string)
    ensures Askable(w)
  {
    hide Askable;
    BothAskable();
    if test.IsNot? then NOW else WAS
  }

  lemma BothAskable()
    ensures Askable(WAS) && Askable(NOW)
  {
    hide Askable;
    EdgesAskable(WAS);
    EdgesAskable(NOW);
  }

  lemma QuestionTells(test: Test)
    ensures TestPasses(test, WAS, Question(test)) && !TestPasses(test, NOW, Question(test))
  {
    hide OccursIgnoringCase;
    Everywhere(WAS);
    NotInBlue();
    assert WAS != NOW;
    assert OccursIgnoringCase(WAS, WAS) by { FoundIgnoringCase(WAS); }
  }

  lemma FoundIgnoringCase(w: string)
    ensures OccursIgnoringCase(w, w)
  {
    Everywhere(w);
  }

  lemma NotInBlue()
    ensures !OccursIgnoringCase(NOW, WAS)
  {
    assert Lower(WAS)[0] == 'r' && Lower(NOW)[0] == 'b' && Lower(NOW)[1] == 'l';
    if OccursIgnoringCase(NOW, WAS) {
      var _ := OccursAt(Lower(NOW), Lower(WAS));
      assert false;
    }
  }

  /** The inputs that go wrong, for every operator: a replay corrected an attribute from red to blue, and
      asking for red, for anything but blue, or for what contains red, still finds the trace. */
  lemma OldValueStillSelects(test: Test, key: string, i: nat, params: Params, row: Row, stale: StoredSpan,
      corrected: StoredSpan)
    requires Askable(key)
    requires Extends(params, CondBinding("traces", Asked(key, test, Question(test)), i))
    requires TextOf(row, "trace_id") == stale.traceId
    requires InScope(stale, params) && InScope(corrected, params) && SameSpan(stale, corrected)
    requires stale.version < corrected.version
    requires stale.attributes == map[key := WAS] && corrected.attributes == map[key := NOW]
    ensures var clause, spans := CondClause("traces", Asked(key, test, Question(test)), i, ""), {stale, corrected};
      Holds(clause, params, row, spans) && !Holds(clause, params, row, Latest(spans, params))
  {
    hide Holds, CondClause, Selects, CondBinding, ValidCondition, Extends, InScope, Askable, Trim, TestPasses, Latest, Question;
    var c, spans := Asked(key, test, Question(test)), {stale, corrected};
    ClauseSelects("traces", c, i, params, row, spans, "");
    ClauseSelects("traces", c, i, params, row, Latest(spans, params), "");
    QuestionTells(test);
    AskableEdges(Question(test));
    SelectsHolder(test, key, Question(test), params, stale.traceId, spans);
    SelectsHolder(test, key, Question(test), params, stale.traceId, Latest(spans, params));
    assert Holder(stale, params, stale.traceId, key);
    OnlyCorrected(params, stale, corrected);
  }

  lemma OnlyCorrected(params: Params, stale: StoredSpan, corrected: StoredSpan)
    requires InScope(stale, params) && InScope(corrected, params) && SameSpan(stale, corrected)
    requires stale.version < corrected.version
    ensures Latest({stale, corrected}, params) == {corrected}
  {
    hide InScope;
    assert Superseded({stale, corrected}, params, stale);
    assert !Superseded({stale, corrected}, params, corrected);
  }
}
