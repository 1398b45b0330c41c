// Payload capture: redaction of a JSON value at any depth, and the bounded preview.
//
// `scrub` stands for the replacement of secret-looking text inside one string.
module Payload {
  import opened Strings
  import opened Text

  datatype Json =
    | Null
    | Bool(b: bool)
    | Number(digits: string)
    | Str(s: string)
    | List(items: seq<Json>)
    | Dict(fields: seq<Field>)

  datatype Field = Field(key: string, value: Json)

  const REDACTED: string := "[redacted]"

  const SENSITIVE_KEYS: seq<string> := [
    "password", "passwd", "secret", "token", "api_key", "apikey", "authorization", "auth", "credential",
    "private_key", "session", "cookie", "signature", "access_key", "requeststate"]

  const NEVER_REDACT: seq<string> := ["progresstoken"]
  const MEDIA: seq<string> := ["image", "audio", "blob"]

  predicate Sensitive(key: string) {
    var k := Lower(key);
    k !in NEVER_REDACT && exists marker :: marker in SENSITIVE_KEYS && Occurs(k, marker)
  }

  /** The first field of that name; a dict has at most one. */
  function Get(fields: seq<Field>, key: string): Option<Json> {
    if fields == [] then None
    else if fields[0].key == key then Some(fields[0].value)
    else Get(fields[1..], key)
  }

  /** A content block that is summarised by its type. */
  predicate IsMedia(v: Json) {
    v.Dict? && Get(v.fields, "type").Some? && Get(v.fields, "type").value.Str? && Get(v.fields, "type").value.s in MEDIA
  }

  function Label(v: Json): string
    requires IsMedia(v)
  {
    "[" + Get(v.fields, "type").value.s + " omitted]"
  }

  predicate IsContent(key: string) {
    key == "data" || key == "blob"
  }

  function WithoutContent(fields: seq<Field>): seq<Field> {
    if fields == [] then []
    else if IsContent(fields[0].key) then WithoutContent(fields[1..])
    else [fields[0]] + WithoutContent(fields[1..])
  }

  function Summarised(v: Json): Json {
    if IsMedia(v) then Dict(WithoutContent(v.fields) + [Field("data", Str(Label(v)))]) else v
  }

  function Scrubbed(v: Json, scrub: string -> string): Json
    decreases v, 0
  {
    match v
    case Str(s) => Str(scrub(s))
    case List(items) => List(seq(|items|, i requires 0 <= i < |items| => ScrubbedItem(items[i], scrub)))
    case Dict(fields) =>
      Dict(seq(|fields|, i requires 0 <= i < |fields| =>
        Field(fields[i].key, if Sensitive(fields[i].key) then Str(REDACTED) else Scrubbed(fields[i].value, scrub))))
    case _ => v
  }

  /** An item of a list: summarised, then scrubbed. (`ItemIsScrubbedSummary` shows that leaving content
      out after scrubbing comes to the same.) */
  function ScrubbedItem(v: Json, scrub: string -> string): Json
    decreases v, 1
  {
    var r := Scrubbed(v, scrub);
    if IsMedia(v) then Dict(WithoutContent(r.fields) + [Field("data", Str(scrub(Label(v))))]) else r
  }

  // ------------------------------------------------------------------ field names

  const SENSITIVE_WORDS: set<string> := {
    "password", "passwd", "secret", "token", "api_key", "apikey", "authorization", "auth", "credential", "private_key",
    "session", "cookie", "signature", "access_key", "requeststate"}

  lemma SensitiveAreWords(word: string)
    ensures word in SENSITIVE_KEYS <==> word in SENSITIVE_WORDS
  {
    var w := SENSITIVE_KEYS;
    assert w[0] in w && w[1] in w && w[2] in w && w[3] in w && w[4] in w && w[5] in w && w[6] in w && w[7] in w;
    assert w[8] in w && w[9] in w && w[10] in w && w[11] in w && w[12] in w && w[13] in w && w[14] in w;
  }

  /** A field is sensitive when its name, in lower case, contains one of these words, but for one name. */
  lemma SensitiveReads(key: string)
    ensures Sensitive(key) <==>
      (Lower(key) != "progresstoken" && exists word :: word in SENSITIVE_WORDS && Occurs(Lower(key), word))
  {
    hide Occurs, Lower, SENSITIVE_KEYS, SENSITIVE_WORDS;
    forall word ensures word in SENSITIVE_KEYS <==> word in SENSITIVE_WORDS { SensitiveAreWords(word); }
    assert Lower(key) in NEVER_REDACT <==> Lower(key) == NEVER_REDACT[0];
  }

  /** Three types of content block are summarised, their content fields replaced by one label; and what a
      sensitive field is replaced with. */
  lemma MediaReads(v: Json, kind: string)
    requires v.Dict? && Get(v.fields, "type") == Some(Str(kind))
    ensures IsMedia(v) <==> kind == "image" || kind == "audio" || kind == "blob"
    ensures IsMedia(v) ==> Label(v) == "[" + kind + " omitted]"
    ensures REDACTED == "[redacted]"
    ensures forall key :: IsContent(key) <==> key == "data" || key == "blob"
  {
    var m := MEDIA;
    assert kind in m <==> kind == m[0] || kind == m[1] || kind == m[2];
  }

  lemma PlainNames()
    ensures !Sensitive("data") && !Sensitive("blob") && !Sensitive("type")
  {
    Short("data");
    Short("blob");
    Short("type");
  }

  lemma Misses(s: string, part: string)
    requires |part| > |s| || (|part| == |s| && part != s)
    ensures !Occurs(s, part)
  {
    assert |part| == |s| ==> s[..|part|] == s;
  }

  lemma Short(key: string)
    requires |key| == 4 && Lower(key) == key && key != "auth"
    ensures !Sensitive(key)
  {
    forall m | m in SENSITIVE_KEYS ensures !Occurs(key, m) {
      assert m == "auth" || |m| > 4;
      Misses(key, m);
    }
  }

  // ---------------------------------------------------------------- fields and items

  function ScrubbedFields(fields: seq<Field>, scrub: string -> string): seq<Field> {
    Scrubbed(Dict(fields), scrub).fields
  }

  lemma FieldsCons(f: Field, fields: seq<Field>, scrub: string -> string)
    ensures ScrubbedFields([f] + fields, scrub) == ScrubbedFields([f], scrub) + ScrubbedFields(fields, scrub)
  {}

  lemma FieldsConcat(a: seq<Field>, b: seq<Field>, scrub: string -> string)
    ensures ScrubbedFields(a + b, scrub) == ScrubbedFields(a, scrub) + ScrubbedFields(b, scrub)
  {}

  lemma ScrubbedNote(s: string, scrub: string -> string)
    ensures ScrubbedFields([Field("data", Str(s))], scrub) == [Field("data", Str(scrub(s)))]
  {
    PlainNames();
    ScrubbedText(s, scrub);
  }

  lemma {:induction false} WithoutCommutes(fields: seq<Field>, scrub: string -> string)
    ensures WithoutContent(ScrubbedFields(fields, scrub)) == ScrubbedFields(WithoutContent(fields), scrub)
  {
    if fields != [] {
      var f, rest := fields[0], fields[1..];
      WithoutCommutes(rest, scrub);
      assert fields == [f] + rest;
      FieldsCons(f, rest, scrub);
      var all := ScrubbedFields(fields, scrub);
      assert all[0].key == f.key && all[1..] == ScrubbedFields(rest, scrub) && ScrubbedFields([f], scrub) == [all[0]];
      if !IsContent(f.key) { FieldsCons(f, WithoutContent(rest), scrub); }
    }
  }

  /** The item function is the source's composition: summarise, then scrub. */
  lemma ItemIsScrubbedSummary(v: Json, scrub: string -> string)
    ensures ScrubbedItem(v, scrub) == Scrubbed(Summarised(v), scrub)
  {
    if IsMedia(v) {
      PlainNames();
      hide Sensitive, IsMedia, Label, WithoutContent;
      var note := [Field("data", Str(Label(v)))];
      WithoutCommutes(v.fields, scrub);
      FieldsConcat(WithoutContent(v.fields), note, scrub);
      ScrubbedNote(Label(v), scrub);
    }
  }

  lemma {:induction false} GetScrubbed(fields: seq<Field>, key: string, scrub: string -> string)
    ensures var g := Get(fields, key);
      Get(ScrubbedFields(fields, scrub), key) ==
        if g.None? then None else Some(if Sensitive(key) then Str(REDACTED) else Scrubbed(g.value, scrub))
  {
    hide Sensitive;
    if fields != [] {
      GetScrubbed(fields[1..], key, scrub);
      assert ScrubbedFields(fields, scrub)[1..] == ScrubbedFields(fields[1..], scrub);
    }
  }

  lemma {:induction false} GetWithout(fields: seq<Field>, more: seq<Field>, key: string)
    ensures !IsContent(key) ==> Get(WithoutContent(fields), key) == Get(fields, key)
    ensures IsContent(key) ==> Get(WithoutContent(fields), key) == None
    ensures Get(fields, key) == None ==> Get(fields + more, key) == Get(more, key)
    ensures Get(fields, key) != None ==> Get(fields + more, key) == Get(fields, key)
  {
    if fields == [] {
      assert fields + more == more;
    } else {
      GetWithout(fields[1..], more, key);
      assert (fields + more)[1..] == fields[1..] + more;
    }
  }

  /** A summary differs from its block in the content fields only. */
  lemma {:induction false} SummaryFields(v: Json, key: string)
    requires IsMedia(v)
    ensures Get(Summarised(v).fields, key) ==
      if key == "data" then Some(Str(Label(v))) else if key == "blob" then None else Get(v.fields, key)
  {
    hide Label;
    var note := [Field("data", Str(Label(v)))];
    GetWithout(v.fields, note, key);
    GetWithout(WithoutContent(v.fields), note, key);
  }

  // ------------------------------------------------------------------------- paths

  datatype Step = Key(name: string) | Index(i: nat)

  function Child(v: Json, step: Step): Option<Json> {
    match step
    case Key(name) => if v.Dict? then Get(v.fields, name) else None
    case Index(i) => if v.List? && i < |v.items| then Some(v.items[i]) else None
  }

  /** The value at a path, if there is one. */
  function At(v: Json, path: seq<Step>): Option<Json>
    decreases |path|
  {
    if path == [] then Some(v)
    else
      match Child(v, path[0])
      case None => None
      case Some(x) => At(x, path[1..])
  }

  /** One step down a scrubbed value. */
  lemma {:induction false} ScrubbedChild(v: Json, step: Step, scrub: string -> string)
    ensures Child(Scrubbed(v, scrub), step) ==
      if Child(v, step).None? then None
      else if step.Index? then Some(Scrubbed(Summarised(Child(v, step).value), scrub))
      else if Sensitive(step.name) then Some(Str(REDACTED))
      else Some(Scrubbed(Child(v, step).value, scrub))
  {
    hide Sensitive, Summarised;
    match step
    case Key(name) => if v.Dict? { GetScrubbed(v.fields, name, scrub); }
    case Index(i) => if v.List? && i < |v.items| { ItemIsScrubbedSummary(v.items[i], scrub); }
  }

  /** At whatever depth, a field with a sensitive name holds the marker and nothing else. */
  lemma {:induction false} SecretsGone(v: Json, path: seq<Step>, key: string, scrub: string -> string)
    requires Sensitive(key)
    ensures var found := At(Scrubbed(v, scrub), path + [Key(key)]);
      found == None || found == Some(Str(REDACTED))
    decreases |path|
  {
    hide Sensitive, Scrubbed, Summarised;
    var all := path + [Key(key)];
    ScrubbedChild(v, all[0], scrub);
    if path == [] {
      assert all[1..] == [];
    } else {
      var rest := path[1..];
      assert all[0] == path[0] && all[1..] == rest + [Key(key)];
      match Child(v, path[0])
      case None =>
      case Some(x) =>
        SecretsGone(x, rest, key, scrub);
        SecretsGone(Summarised(x), rest, key, scrub);
        NothingInside(rest + [Key(key)]);
    }
  }

  lemma {:induction false} NothingInside(path: seq<Step>)
    requires path != []
    ensures At(Str(REDACTED), path) == None
  {}

  /** A path that meets no sensitive name, and no content field of a summarised list item. */
  predicate Plain(v: Json, path: seq<Step>)
    decreases |path|
  {
    if path == [] then true
    else
      && !(path[0].Key? && Sensitive(path[0].name))
      && match Child(v, path[0])
         case None => true
         case Some(x) => !(path[0].Index? && IsMedia(x) && IntoContent(path[1..])) && Plain(x, path[1..])
  }

  predicate IntoContent(path: seq<Step>) {
    path != [] && path[0].Key? && IsContent(path[0].name)
  }

  function Names(fields: seq<Field>): seq<string> {
    seq(|fields|, i requires 0 <= i < |fields| => fields[i].key)
  }

  /** What may differ between a value and its scrubbed form, its parts aside. */
  ghost predicate SameOutside(x: Json, r: Json, scrub: string -> string) {
    match x
    case Str(s) => r == Str(scrub(s))
    case List(items) => r.List? && |r.items| == |items|
    case Dict(fields) => r.Dict? && Names(r.fields) == Names(fields)
    case _ => r == x
  }

  /** Redaction keeps every plain path: the same ones exist, strings there are scrubbed, other scalars
      are kept, lists keep their length and dicts their names in order - those of a media item in a list
      being the names its summary has. */
  lemma {:induction false} PathsSurvive(v: Json, path: seq<Step>, scrub: string -> string)
    requires Plain(v, path)
    ensures var x, r := At(v, path), At(Scrubbed(v, scrub), path);
      && (x.None? <==> r.None?)
      && (x.Some? ==> SameOutside(if path != [] && path[|path| - 1].Index? then Summarised(x.value) else x.value, r.value, scrub))
    decreases |path|
  {
    hide Sensitive, Summarised, IsMedia, IntoContent;
    if path == [] {
      ScrubbedOutside(v, scrub);
    } else {
      ScrubbedChild(v, path[0], scrub);
      match Child(v, path[0])
      case None =>
      case Some(x) =>
        var rest := path[1..];
        if rest == [] {
          ScrubbedOutside(x, scrub);
          ScrubbedOutside(Summarised(x), scrub);
        } else {
          assert path[|path| - 1] == rest[|rest| - 1];
          PathsSurvive(x, rest, scrub);
          if path[0].Index? { SummaryKeepsPath(x, rest, scrub); }
        }
    }
  }

  lemma {:induction false} ScrubbedOutside(v: Json, scrub: string -> string)
    ensures SameOutside(v, Scrubbed(v, scrub), scrub)
  {
    hide Sensitive;
  }

  lemma {:induction false} SummaryKeepsPath(x: Json, path: seq<Step>, scrub: string -> string)
    requires path != [] && !(IsMedia(x) && IntoContent(path))
    ensures At(Scrubbed(Summarised(x), scrub), path) == At(Scrubbed(x, scrub), path)
  {
    hide Sensitive, Scrubbed, Label;
    ScrubbedChild(x, path[0], scrub);
    ScrubbedChild(Summarised(x), path[0], scrub);
    if IsMedia(x) && path[0].Key? { SummaryFields(x, path[0].name); }
  }

  /** The content of an image, audio or blob item of a list is gone; its type is named instead. */
  lemma {:induction false} MediaOmitted(items: seq<Json>, i: nat, scrub: string -> string)
    requires i < |items| && IsMedia(items[i])
    ensures var r := Scrubbed(List(items), scrub);
      && At(r, [Index(i), Key("data")]) == Some(Str(scrub(Label(items[i]))))
      && At(r, [Index(i), Key("blob")]) == None
  {
    hide Sensitive, Label, Scrubbed;
    PlainNames();
    AtTwo(Scrubbed(List(items), scrub), Index(i), Key("data"));
    AtTwo(Scrubbed(List(items), scrub), Index(i), Key("blob"));
    ScrubbedChild(List(items), Index(i), scrub);
    var x := Summarised(items[i]);
    SummaryFields(items[i], "data");
    SummaryFields(items[i], "blob");
    ScrubbedChild(x, Key("data"), scrub);
    ScrubbedChild(x, Key("blob"), scrub);
    ScrubbedText(Label(items[i]), scrub);
  }

  lemma {:induction false} AtTwo(v: Json, a: Step, b: Step)
    ensures At(v, [a, b]) == if Child(v, a).Some? then Child(Child(v, a).value, b) else None
  {
    hide Child;
    assert [a, b][1..] == [b] && [b][1..] == [];
    if Child(v, a).Some? {
      var x := Child(v, a).value;
      assert Child(x, b).Some? ==> At(Child(x, b).value, []) == Child(x, b);
      assert At(x, [b]) == Child(x, b);
    }
  }

  lemma {:induction false} ScrubbedText(s: string, scrub: string -> string)
    ensures Scrubbed(Str(s), scrub) == Str(scrub(s))
  {}

  // -------------------------------------------------------------------- idempotence

  /** Scrubbing twice is scrubbing once, and changed text shows the marker. */
  ghost predicate Replaces(scrub: string -> string) {
    forall s :: scrub(scrub(s)) == scrub(s) && (scrub(s) == s || Occurs(scrub(s), REDACTED))
  }

  lemma {:induction false} MediaTypesUnmarked(s: string)
    requires s in MEDIA
    ensures !Occurs(s, REDACTED)
  {
    assert |s| < |REDACTED|;
  }

  /** Scrubbing makes no media block out of something else. */
  lemma {:induction false} MediaAfterScrub(v: Json, scrub: string -> string)
    requires Replaces(scrub)
    ensures !IsMedia(v) ==> !IsMedia(Scrubbed(v, scrub))
    ensures IsMedia(v) ==> var t := Get(v.fields, "type").value.s;
      (IsMedia(ScrubbedItem(v, scrub)) <==> scrub(t) == t)
      && (scrub(t) == t ==> IsMedia(ScrubbedItem(v, scrub)) && Label(ScrubbedItem(v, scrub)) == Label(v))
  {
    PlainNames();
    hide Sensitive, Replaces, WithoutContent;
    if v.Dict? {
      GetScrubbed(v.fields, "type", scrub);
      ItemIsScrubbedSummary(v, scrub);
      if IsMedia(v) {
        SummaryFields(v, "type");
        GetScrubbed(Summarised(v).fields, "type", scrub);
      }
      if Get(v.fields, "type").Some? && Get(v.fields, "type").value.Str? {
        TypeAfterScrub(Get(v.fields, "type").value.s, scrub);
      }
    }
  }

  lemma {:induction false} TypeAfterScrub(t: string, scrub: string -> string)
    requires Replaces(scrub)
    ensures scrub(t) in MEDIA ==> scrub(t) == t
  {
    if scrub(t) in MEDIA { MediaTypesUnmarked(scrub(t)); }
  }

  lemma {:induction false} WithoutTwice(fields: seq<Field>, note: Field)
    requires IsContent(note.key)
    ensures WithoutContent(WithoutContent(fields) + [note]) == WithoutContent(fields)
  {
    var w := WithoutContent(fields);
    if fields == [] {
      assert w + [note] == [note] && [note][1..] == [];
    } else {
      WithoutTwice(fields[1..], note);
      if !IsContent(fields[0].key) {
        assert (w + [note])[1..] == WithoutContent(fields[1..]) + [note];
      }
    }
  }

  /** A summary of fields that scrubbing leaves alone is left alone too. */
  lemma {:induction false} SummaryStays(fields: seq<Field>, s: string, scrub: string -> string)
    requires ScrubbedFields(fields, scrub) == fields && scrub(s) == s
    ensures var d := Dict(WithoutContent(fields) + [Field("data", Str(s))]); Scrubbed(d, scrub) == d
  {
    var note := [Field("data", Str(s))];
    WithoutCommutes(fields, scrub);
    ScrubbedNote(s, scrub);
    FieldsConcat(WithoutContent(fields), note, scrub);
  }

  lemma {:induction false} ItemTwice(v: Json, scrub: string -> string)
    requires Replaces(scrub) && Scrubbed(Scrubbed(v, scrub), scrub) == Scrubbed(v, scrub)
    ensures ScrubbedItem(ScrubbedItem(v, scrub), scrub) == ScrubbedItem(v, scrub)
  {
    hide Replaces, IsMedia, Label, WithoutContent, Scrubbed;
    MediaAfterScrub(v, scrub);
    if IsMedia(v) {
      ScrubbedDict(v, scrub);
      var fields, text := Scrubbed(v, scrub).fields, scrub(Label(v));
      TextTwice(Label(v), scrub);
      SummaryStays(fields, text, scrub);
      WithoutTwice(fields, Field("data", Str(text)));
    }
  }

  lemma {:induction false} ScrubbedDict(v: Json, scrub: string -> string)
    requires IsMedia(v)
    ensures Scrubbed(v, scrub).Dict?
  {}

  /** Redacting a redacted value changes nothing. */
  lemma {:induction false} RedactionIsIdempotent(v: Json, scrub: string -> string)
    requires Replaces(scrub)
    ensures Scrubbed(Scrubbed(v, scrub), scrub) == Scrubbed(v, scrub)
    decreases v
  {
    hide Sensitive, ScrubbedItem, Replaces;
    match v
    case Str(s) => assert scrub(scrub(s)) == scrub(s) by { TextTwice(s, scrub); }
    case List(items) =>
      forall i | 0 <= i < |items| ensures ScrubbedItem(ScrubbedItem(items[i], scrub), scrub) == ScrubbedItem(items[i], scrub) {
        RedactionIsIdempotent(items[i], scrub);
        ItemTwice(items[i], scrub);
      }
    case Dict(fields) =>
      forall i | 0 <= i < |fields| ensures Scrubbed(Scrubbed(fields[i].value, scrub), scrub) == Scrubbed(fields[i].value, scrub) {
        RedactionIsIdempotent(fields[i].value, scrub);
      }
    case _ =>
  }

  lemma {:induction false} TextTwice(s: string, scrub: string -> string)
    requires Replaces(scrub)
    ensures scrub(scrub(s)) == scrub(s)
  {}

  // ------------------------------------------------------------------------ previews

  /** The whole text a value renders to; `dumps` is the JSON encoder. */
  function Full(v: Json, redact: bool, scrub: string -> string, dumps: Json -> string): string {
    if v == Null || v == Str("") then ""
    else if v.Str? then (if redact then scrub(v.s) else v.s)
    else dumps(if redact then Scrubbed(v, scrub) else v)
  }

  function Suffix(omitted: nat): string {
    ['\U{2026}'] + " (+" + Decimal(omitted) + " chars)"
  }

  method Render(v: Json, maxChars: nat, redact: bool, scrub: string -> string, dumps: Json -> string)
    returns (preview: string, size: nat)
    ensures size == |Full(v, redact, scrub, dumps)|
    ensures size <= maxChars ==> preview == Full(v, redact, scrub, dumps)
    ensures size > maxChars ==>
      |preview| == maxChars + |Suffix(size - maxChars)|
      && preview[..maxChars] == Full(v, redact, scrub, dumps)[..maxChars]
      && preview[maxChars..] == ['\U{2026}'] + " (+" + Decimal(size - maxChars) + " chars)"
  {
    if v == Null || v == Str("") {
      return "", 0;
    }
    var text: string;
    if !v.Str? {
      var cleaned := if redact then Scrubbed(v, scrub) else v;
      text := dumps(cleaned);
    } else {
      text := if redact then scrub(v.s) else v.s;
    }
    size := |text|;
    if size > maxChars {
      return text[..maxChars] + Suffix(size - maxChars), size;
    }
    return text, size;
  }
}
