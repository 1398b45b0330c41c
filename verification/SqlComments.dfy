// The migration runner's comment stripper and statement splitter.
module SqlComments {
  import opened Strings
  import opened Text

  predicate IsQuote(c: char) {
    c == '\'' || c == '"' || c == '`'
  }

  /** The quote open after `text`, which is one line or the start of one. */
  function Open(text: string): Option<char> {
    if text == "" then None
    else
      var q, c := Open(text[..|text| - 1]), text[|text| - 1];
      if q.Some? then (if c == q.value then None else q)
      else if IsQuote(c) then Some(c) else None
  }

  /** Whether a comment starts at `i`: two dashes outside quotes. */
  predicate CommentAt(line: string, i: nat) {
    i + 1 < |line| && line[i] == '-' && line[i + 1] == '-' && Open(line[..i]) == None
  }

  /** Where the first comment at or after `i` starts; the end of the line if there is none. */
  function CommentFrom(line: string, i: nat): (cut: nat)
    requires i <= |line|
    ensures i <= cut <= |line| && (cut < |line| ==> CommentAt(line, cut))
    ensures forall j :: i <= j < cut ==> !CommentAt(line, j)
    decreases |line| - i
  {
    if i == |line| || CommentAt(line, i) then i else CommentFrom(line, i + 1)
  }

  function CleanLine(line: string): string {
    TrimRight(line[..CommentFrom(line, 0)])
  }

  /** The pieces of `s` between separators. */
  function Pieces(s: string, separates: char -> bool): seq<string>
    decreases |s|
  {
    if s == "" then [""]
    else
      var front, c := Pieces(s[..|s| - 1], separates), s[|s| - 1];
      if separates(c) then front + [""]
      else if front == [] then [[c]]
      else front[..|front| - 1] + [front[|front| - 1] + [c]]
  }

  function CleanLines(lines: seq<string>): seq<string> {
    if lines == [] then []
    else
      var front, clean := CleanLines(lines[..|lines| - 1]), CleanLine(lines[|lines| - 1]);
      if clean == "" then front else front + [clean]
  }

  /** `"\n".join`. */
  function Join(lines: seq<string>): string {
    if lines == [] then ""
    else if |lines| == 1 then lines[0]
    else Join(lines[..|lines| - 1]) + "\n" + lines[|lines| - 1]
  }

  /** `splitlines`, up to empty lines, which `CleanLines` drops: a carriage return and line feed make one
      more here. */
  function Lines(sql: string): seq<string> {
    Pieces(sql, IsBreak)
  }

  function StripComments(sql: string): string {
    Join(CleanLines(Lines(sql)))
  }

  function Trimmed(pieces: seq<string>): seq<string> {
    if pieces == [] then []
    else
      var front, t := Trimmed(pieces[..|pieces| - 1]), Trim(pieces[|pieces| - 1]);
      if t == "" then front else front + [t]
  }

  function SplitStatements(sql: string): seq<string> {
    Trimmed(Pieces(StripComments(sql), c => c == ';'))
  }

  // ------------------------------------------------------------- cutting one line

  /** A cleaned line is cut at the first comment, and has none left. */
  lemma CleanLineHasNoComment(line: string, i: nat)
    ensures CleanLine(line) <= line[..CommentFrom(line, 0)]
    ensures !CommentAt(CleanLine(line), i)
  {
    var clean := CleanLine(line);
    if i + 1 < |clean| {
      assert clean[..i] == line[..i] && clean[i] == line[i] && clean[i + 1] == line[i + 1];
      assert !CommentAt(line, i);
    }
  }

  /** Three characters quote: between two of them dashes stay, between any other two they start a comment. */
  lemma QuotesProtect(q: char)
    requires q != '-'
    ensures CommentFrom([q, '-', '-', q], 0) == if q == '\'' || q == '"' || q == '`' then 4 else 1
  {
    var line := [q, '-', '-', q];
    assert line[..0] == "" && line[..1] == [q] && line[..2] == [q, '-'] && line[..3] == [q, '-', '-'];
    assert line[..1][..0] == "" && line[..2][..1] == line[..1] && line[..3][..2] == line[..2];
    assert Open(line[..0]) == None;
    assert Open(line[..1]) == if IsQuote(q) then Some(q) else None;
    assert Open(line[..2]) == Open(line[..1]) && Open(line[..3]) == Open(line[..2]);
    assert CommentAt(line, 1) <==> !IsQuote(q);
    assert !CommentAt(line, 0) && !CommentAt(line, 3) && !CommentAt(line, 2);
  }

  lemma CleanTwice(line: string)
    ensures CleanLine(CleanLine(line)) == CleanLine(line)
  {
    var clean := CleanLine(line);
    CleanLineHasNoComment(line, CommentFrom(clean, 0));
    assert clean[..|clean|] == clean;
  }

  // -------------------------------------------------------------- splitting and joining

  ghost predicate Unbroken(s: string) {
    forall i :: 0 <= i < |s| ==> !IsBreak(s[i])
  }

  lemma {:induction false} PiecesUnbroken(s: string)
    ensures Lines(s) != [] && forall p :: p in Lines(s) ==> Unbroken(p)
  {
    if s != "" {
      PiecesUnbroken(s[..|s| - 1]);
      var front, c := Lines(s[..|s| - 1]), s[|s| - 1];
      assert front[|front| - 1] in front;
      forall p | p in Lines(s) ensures Unbroken(p) {
        if !IsBreak(c) {
          assert p in front[..|front| - 1] || p == front[|front| - 1] + [c];
          assert p in front[..|front| - 1] ==> p in front;
        } else {
          assert p in front || p == "";
        }
      }
    }
  }

  lemma {:induction false} LinesAppend(s: string, t: string)
    requires Unbroken(t) && Lines(s) != []
    ensures var l := Lines(s);
      Lines(s + t) == l[..|l| - 1] + [l[|l| - 1] + t]
  {
    var l := Lines(s);
    if t == "" {
      assert s + t == s && l[|l| - 1] + t == l[|l| - 1];
    } else {
      var front, c := t[..|t| - 1], t[|t| - 1];
      assert (s + t)[..|s + t| - 1] == s + front && (s + t)[|s + t| - 1] == c;
      LinesAppend(s, front);
      assert !IsBreak(c);
      assert l[|l| - 1] + front + [c] == l[|l| - 1] + t;
    }
  }

  lemma {:induction false} LinesOfJoin(lines: seq<string>)
    requires lines != [] && forall p :: p in lines ==> Unbroken(p)
    ensures Lines(Join(lines)) == lines
  {
    var last := lines[|lines| - 1];
    assert last in lines;
    if |lines| == 1 {
      LinesAppend("", last);
      assert "" + last == last && Lines("") == [""];
    } else {
      var front := lines[..|lines| - 1];
      forall p | p in front ensures Unbroken(p) { assert p in lines; }
      LinesOfJoin(front);
      var head := Join(front) + "\n";
      assert head[..|head| - 1] == Join(front) && head[|head| - 1] == '\n' && IsBreak('\n');
      assert Lines(head) == front + [""];
      LinesAppend(head, last);
      assert (front + [""])[..|front|] == front && "" + last == last && lines == front + [last];
    }
  }

  lemma {:induction false} CleanLinesClean(lines: seq<string>)
    requires forall p :: p in lines ==> Unbroken(p)
    ensures forall p :: p in CleanLines(lines) ==> Unbroken(p) && p != "" && CleanLine(p) == p
  {
    if lines != [] {
      var front, last := lines[..|lines| - 1], lines[|lines| - 1];
      assert last in lines;
      forall p | p in front ensures Unbroken(p) { assert p in lines; }
      CleanLinesClean(front);
      CleanTwice(last);
      CleanLineHasNoComment(last, 0);
      forall p | p in CleanLines(lines) ensures Unbroken(p) && p != "" && CleanLine(p) == p {
        assert p in CleanLines(front) || p == CleanLine(last);
      }
    }
  }

  lemma {:induction false} CleanStays(lines: seq<string>)
    requires forall p :: p in lines ==> p != "" && CleanLine(p) == p
    ensures CleanLines(lines) == lines
  {
    if lines != [] {
      var front, last := lines[..|lines| - 1], lines[|lines| - 1];
      assert last in lines && lines == front + [last];
      forall p | p in front ensures p != "" && CleanLine(p) == p { assert p in lines; }
      CleanStays(front);
    }
  }

  /** Stripping stripped text changes nothing; so a statement never depends on how often comments
      were removed. */
  lemma {:induction false} StripIsIdempotent(sql: string)
    ensures StripComments(StripComments(sql)) == StripComments(sql)
    ensures SplitStatements(StripComments(sql)) == SplitStatements(sql)
  {
    hide CleanLine, Lines, Pieces, Unbroken;
    PiecesUnbroken(sql);
    var clean := CleanLines(Lines(sql));
    CleanLinesClean(Lines(sql));
    if clean == [] {
      NothingToStrip();
    } else {
      LinesOfJoin(clean);
      CleanStays(clean);
    }
  }

  lemma NothingToStrip()
    ensures StripComments("") == ""
  {
    assert Lines("") == [""];
    assert [""][..0] == [];
    assert CleanLine("") == "";
  }

  // ------------------------------------------------- what the whole text calls a comment

  /** Where a reader of the whole text stands: in code, inside a quoted literal, which may run over line
      breaks, or inside a comment, which ends with its line. */
  datatype Scan = Code | Literal(quote: char) | Comment

  predicate Dashes(text: string, i: nat) {
    i + 1 < |text| && text[i] == '-' && text[i + 1] == '-'
  }

  function Onward(s: Scan, text: string, i: nat): Scan
    requires i < |text|
  {
    match s
    case Comment => if IsBreak(text[i]) then Code else Comment
    case Literal(q) => if text[i] == q then Code else s
    case Code => if Dashes(text, i) then Comment else if IsQuote(text[i]) then Literal(text[i]) else Code
  }

  /** The reader's place before character `i`. */
  function ScanAt(text: string, i: nat): Scan
    requires i <= |text|
  {
    if i == 0 then Code else Onward(ScanAt(text, i - 1), text, i - 1)
  }

  /** Whether character `i` belongs to a comment; the break that ends one does not. */
  predicate Commented(text: string, i: nat)
    requires i < |text|
  {
    match ScanAt(text, i)
    case Comment => !IsBreak(text[i])
    case Literal(_) => false
    case Code => Dashes(text, i)
  }

  /** The first commented character at or after `i` and before `end`, or `end`. */
  function FirstCommented(text: string, i: nat, end: nat): (cut: nat)
    requires i <= end <= |text|
    ensures i <= cut <= end && (cut < end ==> Commented(text, cut))
    ensures forall j :: i <= j < cut ==> !Commented(text, j)
    decreases end - i
  {
    if i == end || Commented(text, i) then i else FirstCommented(text, i + 1, end)
  }

  predicate StartsLine(before: string) {
    before == "" || IsBreak(before[|before| - 1])
  }

  predicate EndsLine(rest: string) {
    rest == "" || IsBreak(rest[0])
  }

  /** What comes after a line break, or before one, does not change what was read. */
  lemma {:induction false} ScanPrefix(a: string, b: string, i: nat)
    requires i <= |a| && (StartsLine(a) || EndsLine(b))
    ensures ScanAt(a + b, i) == ScanAt(a, i)
  {
    if i > 0 {
      ScanPrefix(a, b, i - 1);
      assert (a + b)[i - 1] == a[i - 1];
      assert i < |a| ==> (a + b)[i] == a[i];
      assert i == |a| < |a + b| ==> (a + b)[i] == b[0];
    }
  }

  function AsScan(q: Option<char>): Scan {
    if q.Some? then Literal(q.value) else Code
  }

  /** From code at the line's start, the line's own quotes are the text's, up to its first comment. */
  lemma {:induction false} LineScan(before: string, line: string, rest: string, i: nat)
    requires StartsLine(before) && Unbroken(line) && EndsLine(rest)
    requires ScanAt(before, |before|) == Code && i <= CommentFrom(line, 0)
    ensures ScanAt(before + line + rest, |before| + i) == AsScan(Open(line[..i]))
  {
    var text := before + line + rest;
    if i == 0 {
      assert text == before + (line + rest);
      ScanPrefix(before, line + rest, |before|);
    } else {
      LineScan(before, line, rest, i - 1);
      assert line[..i][..i - 1] == line[..i - 1] && text[|before| + i - 1] == line[i - 1];
      DashesInLine(before, line, rest, i - 1);
      assert !CommentAt(line, i - 1);
    }
  }

  lemma DashesInLine(before: string, line: string, rest: string, i: nat)
    requires i < |line| && EndsLine(rest)
    ensures Dashes(before + line + rest, |before| + i) <==> i + 1 < |line| && line[i] == '-' && line[i + 1] == '-'
  {
    var text, at := before + line + rest, |before| + i;
    assert text[at] == line[i];
    assert i + 1 < |line| ==> text[at + 1] == line[i + 1];
    assert i + 1 == |line| && rest != "" ==> text[at + 1] == rest[0];
  }

  lemma CommentedInLine(before: string, line: string, rest: string, i: nat)
    requires StartsLine(before) && Unbroken(line) && EndsLine(rest)
    requires ScanAt(before, |before|) == Code && i <= CommentFrom(line, 0) && i < |line|
    ensures Commented(before + line + rest, |before| + i) <==> CommentAt(line, i)
  {
    LineScan(before, line, rest, i);
    DashesInLine(before, line, rest, i);
  }

  /** Where the whole text's first comment on a line starts. */
  function TextCut(before: string, line: string, rest: string): nat {
    FirstCommented(before + line + rest, |before|, |before| + |line|) - |before|
  }

  lemma CutFromCode(before: string, line: string, rest: string)
    requires StartsLine(before) && Unbroken(line) && EndsLine(rest) && ScanAt(before, |before|) == Code
    ensures TextCut(before, line, rest) == CommentFrom(line, 0)
  {
    var local, whole := CommentFrom(line, 0), TextCut(before, line, rest);
    if whole < local {
      CommentedInLine(before, line, rest, whole);
      assert false;
    }
    if local < |line| {
      CommentedInLine(before, line, rest, local);
    }
  }

  /** Inside a literal that came over from an earlier line, two dashes are no comment. */
  lemma CutFromLiteral(before: string, q: char)
    requires StartsLine(before) && ScanAt(before, |before|) == Literal(q)
    ensures Unbroken("--") && TextCut(before, "--", "") == 2 && CommentFrom("--", 0) == 0
  {
    var text := before + "--" + "";
    assert text == before + "--";
    ScanPrefix(before, "--", |before|);
    assert text[|before|] == '-' && text[|before| + 1] == '-';
    if q == '-' {
      QuotesOnly(before, |before|);
    }
    assert ScanAt(text, |before| + 1) == Literal(q);
    assert "--"[..0] == "" && CommentAt("--", 0);
  }

  lemma {:induction false} QuotesOnly(text: string, i: nat)
    requires i <= |text|
    ensures ScanAt(text, i).Literal? ==> IsQuote(ScanAt(text, i).quote)
  {
    if i > 0 { QuotesOnly(text, i - 1); }
  }

  lemma {:induction false} NoCommentAcrossLines(before: string)
    requires StartsLine(before)
    ensures ScanAt(before, |before|) != Comment
  {}

  ghost predicate CutAgrees(before: string, line: string, rest: string) {
    Unbroken(line) && EndsLine(rest) ==> TextCut(before, line, rest) == CommentFrom(line, 0)
  }

  /** After any text, the scanner cuts the next line where the whole text has its first comment on it,
      whatever that line and the rest may be, if and only if no literal is open at the line's start. */
  lemma LineCutExact(before: string)
    requires StartsLine(before)
    ensures (forall line, rest :: CutAgrees(before, line, rest)) <==> !ScanAt(before, |before|).Literal?
  {
    hide ScanAt, TextCut, CommentFrom;
    NoCommentAcrossLines(before);
    match ScanAt(before, |before|)
    case Code =>
      forall line, rest ensures CutAgrees(before, line, rest) {
        if Unbroken(line) && EndsLine(rest) { CutFromCode(before, line, rest); }
      }
    case Literal(q) =>
      CutFromLiteral(before, q);
      assert !CutAgrees(before, "--", "");
    case Comment =>
  }

  // ---------------------------------------------------- stripping is removing comments

  /** The text without its commented characters, up to `n`. */
  function Uncommented(text: string, n: nat): string
    requires n <= |text|
  {
    if n == 0 then ""
    else Uncommented(text, n - 1) + if Commented(text, n - 1) then "" else [text[n - 1]]
  }

  /** Lines with their trailing white space, and lines of nothing else, gone. */
  function Tidied(lines: seq<string>): seq<string> {
    if lines == [] then []
    else
      var front, clean := Tidied(lines[..|lines| - 1]), TrimRight(lines[|lines| - 1]);
      if clean == "" then front else front + [clean]
  }

  /** No literal is open where a line starts. */
  ghost predicate LiteralsEndOnTheirLine(text: string) {
    forall i :: 0 <= i < |text| && IsBreak(text[i]) ==> !ScanAt(text, i + 1).Literal?
  }

  lemma {:induction false} UncommentedPrefix(a: string, b: string, n: nat)
    requires n <= |a| && (StartsLine(a) || EndsLine(b))
    ensures Uncommented(a + b, n) == Uncommented(a, n)
  {
    if n > 0 {
      UncommentedPrefix(a, b, n - 1);
      ScanPrefix(a, b, n - 1);
      assert (a + b)[n - 1] == a[n - 1];
      assert n < |a| ==> (a + b)[n] == a[n];
      assert n == |a| < |a + b| ==> (a + b)[n] == b[0];
    }
  }

  lemma {:induction false} RestCommented(before: string, line: string, i: nat)
    requires StartsLine(before) && Unbroken(line) && ScanAt(before, |before|) == Code
    requires CommentFrom(line, 0) <= i < |line|
    ensures Commented(before + line, |before| + i)
    ensures ScanAt(before + line, |before| + i + 1) == Comment
  {
    assert before + line + "" == before + line;
    var cut := CommentFrom(line, 0);
    if i == cut {
      CommentedInLine(before, line, "", i);
      LineScan(before, line, "", i);
    } else {
      RestCommented(before, line, i - 1);
    }
    assert (before + line)[|before| + i] == line[i];
  }

  /** What one more line adds to the uncommented text: itself up to the cut. */
  lemma {:induction false} UncommentedLine(before: string, line: string, i: nat)
    requires StartsLine(before) && Unbroken(line) && ScanAt(before, |before|) == Code && i <= |line|
    ensures var cut := CommentFrom(line, 0);
      Uncommented(before + line, |before| + i)
        == Uncommented(before, |before|) + line[..if i < cut then i else cut]
  {
    hide ScanAt, CommentFrom;
    var text, cut := before + line, CommentFrom(line, 0);
    if i == 0 {
      UncommentedPrefix(before, line, |before|);
    } else {
      UncommentedLine(before, line, i - 1);
      assert text + "" == text && text[|before| + i - 1] == line[i - 1];
      if i <= cut {
        CommentedInLine(before, line, "", i - 1);
        assert line[..i] == line[..i - 1] + [line[i - 1]];
      } else {
        RestCommented(before, line, i - 1);
      }
    }
  }

  lemma {:induction false} LastBreak(text: string) returns (before: string, line: string)
    ensures text == before + line && StartsLine(before) && Unbroken(line)
  {
    if text == "" || IsBreak(text[|text| - 1]) {
      before, line := text, "";
    } else {
      before, line := LastBreak(text[..|text| - 1]);
      line := line + [text[|text| - 1]];
    }
  }

  lemma EmptyLine(s: string, c: char)
    requires IsBreak(c)
    ensures Lines(s + [c]) == Lines(s) + [""]
  {
    assert (s + [c])[..|s|] == s;
  }

  lemma OneMoreLine(s: string, c: char, line: string)
    requires IsBreak(c) && Unbroken(line)
    ensures Lines(s + [c] + line) == Lines(s) + [line]
  {
    EmptyLine(s, c);
    LinesAppend(s + [c], line);
    assert (Lines(s) + [""])[..|Lines(s)|] == Lines(s) && "" + line == line;
  }

  lemma OneLine(line: string)
    requires Unbroken(line)
    ensures Lines(line) == [line]
  {
    LinesAppend("", line);
    assert "" + line == line && Lines("") == [""];
  }

  /** One more line, on both sides. */
  lemma CleanAndTidy(lines: seq<string>, kept: seq<string>, line: string)
    requires CleanLines(lines) == Tidied(kept)
    ensures CleanLines(lines + [line]) == Tidied(kept + [line[..CommentFrom(line, 0)]])
  {
    hide CommentFrom;
    assert (lines + [line])[..|lines|] == lines;
    assert (kept + [line[..CommentFrom(line, 0)]])[..|kept|] == kept;
  }

  lemma StartsInCode(before: string, line: string)
    requires StartsLine(before) && LiteralsEndOnTheirLine(before + line)
    ensures ScanAt(before, |before|) == Code
  {
    NoCommentAcrossLines(before);
    ScanPrefix(before, line, |before|);
    if before != "" {
      assert (before + line)[|before| - 1] == before[|before| - 1];
    }
  }

  lemma EarlierLines(s: string, rest: string)
    requires LiteralsEndOnTheirLine(s + rest) && EndsLine(rest)
    ensures LiteralsEndOnTheirLine(s)
  {
    hide ScanAt;
    forall i | 0 <= i < |s| && IsBreak(s[i]) ensures !ScanAt(s, i + 1).Literal? {
      assert (s + rest)[i] == s[i];
      ScanPrefix(s, rest, i + 1);
    }
  }

  lemma BreakIsKept(s: string, c: char)
    requires IsBreak(c)
    ensures Uncommented(s + [c], |s| + 1) == Uncommented(s, |s|) + [c]
  {
    hide ScanAt;
    var t := s + [c];
    assert t[|s|] == c;
    UncommentedPrefix(s, [c], |s|);
  }

  /** The cleaned lines of a text are the tidied lines of its uncommented text. */
  lemma {:induction false} CleanLinesRemoveComments(text: string)
    requires LiteralsEndOnTheirLine(text)
    ensures CleanLines(Lines(text)) == Tidied(Lines(Uncommented(text, |text|)))
    decreases |text|
  {
    hide Lines, Tidied, CleanLines, ScanAt, Uncommented, CommentFrom, LiteralsEndOnTheirLine, Unbroken;
    var before, line := LastBreak(text);
    var cut := CommentFrom(line, 0);
    StartsInCode(before, line);
    UncommentedLine(before, line, |line|);
    CutUnbroken(line, cut);
    if before == "" {
      assert text == line;
      OneLine(line);
      OneLine(line[..cut]);
      NothingYet();
      CleanAndTidy([], [], line);
      assert [] + [line] == [line] && [] + [line[..cut]] == [line[..cut]] && "" + line[..cut] == line[..cut];
    } else {
      var s, c := before[..|before| - 1], before[|before| - 1];
      assert before == s + [c] && text == s + ([c] + line);
      EarlierLines(s, [c] + line);
      CleanLinesRemoveComments(s);
      BreakIsKept(s, c);
      OneMoreLine(s, c, line);
      OneMoreLine(Uncommented(s, |s|), c, line[..cut]);
      CleanAndTidy(Lines(s), Lines(Uncommented(s, |s|)), line);
    }
  }

  lemma CutUnbroken(line: string, cut: nat)
    requires Unbroken(line) && cut <= |line|
    ensures Unbroken(line[..cut])
  {}

  lemma NothingYet()
    ensures CleanLines([]) == Tidied([]) && Uncommented("", 0) == ""
  {}

  /** When every literal ends on the line it starts on, stripping takes out exactly the text's comments,
      with the white space before them and the lines left empty. */
  lemma StripRemovesComments(text: string)
    requires LiteralsEndOnTheirLine(text)
    ensures StripComments(text) == Join(Tidied(Lines(Uncommented(text, |text|))))
  {
    hide CleanLines, Tidied, Lines, Uncommented;
    CleanLinesRemoveComments(text);
  }

  lemma TwoLinesCleaned()
    ensures CleanLines(["'a", "--b'"]) == ["'a"]
  {
    var first, second := "'a", "--b'";
    assert first[..0] == "" && second[..0] == "";
    assert CommentAt(second, 0) && CommentFrom(second, 0) == 0;
    assert !CommentAt(first, 0) && !CommentAt(first, 1);
    assert CommentFrom(first, 0) == 2 by { assert CommentFrom(first, 2) == 2; assert CommentFrom(first, 1) == 2; }
    assert first[..2] == first && CleanLine(first) == first;
    assert CleanLine(second) == "";
    var one: seq<string> := [first];
    assert one[..0] == [] && [first, second][..1] == one;
    assert CleanLines(one) == one;
  }

  lemma TwoLinesJoined()
    ensures Join(["'a", "--b'"]) == "'a\n--b'"
  {
    assert ["'a", "--b'"][..1] == ["'a"];
  }

  lemma LiteralThroughout()
    ensures var text := "'a\n--b'"; forall i :: 0 <= i < |text| ==> !Commented(text, i)
  {
    var text, q := "'a\n--b'", Literal('\'');
    assert ScanAt(text, 1) == q && ScanAt(text, 2) == q;
    assert ScanAt(text, 3) == q && ScanAt(text, 4) == q;
    assert ScanAt(text, 5) == q && ScanAt(text, 6) == q;
  }

  /** A literal over two lines loses its end, in a text without any comment. */
  lemma MultiLineLiteralCut()
    ensures var text := "'a\n--b'";
      StripComments(text) == "'a" && forall i :: 0 <= i < |text| ==> !Commented(text, i)
  {
    hide Commented, CleanLines, Lines, Pieces, Join;
    var lines := ["'a", "--b'"];
    TwoLinesJoined();
    LinesOfJoin(lines);
    TwoLinesCleaned();
    LiteralThroughout();
    assert Join(["'a"]) == "'a" by { JoinOne("'a"); }
  }

  lemma JoinOne(line: string)
    ensures Join([line]) == line
  {}

  // --------------------------------------------------------------------- the scanner

  method CutLine(line: string) returns (cleaned: string)
    ensures cleaned == CleanLine(line)
  {
    var quote: Option<char> := None;
    var cut := |line|;
    var index := 0;
    while index < |line|
      invariant 0 <= index <= |line| && cut == |line|
      invariant quote == Open(line[..index])
      invariant CommentFrom(line, 0) == CommentFrom(line, index)
    {
      var c := line[index];
      assert line[..index + 1][..index] == line[..index];
      if quote.Some? {
        if c == quote.value {
          quote := None;
        }
      } else if IsQuote(c) {
        quote := Some(c);
      } else if c == '-' && index + 1 < |line| && line[index + 1] == '-' {
        cut := index;
        break;
      }
      index := index + 1;
    }
    cleaned := TrimRight(line[..cut]);
  }

  method Strip(sql: string) returns (text: string)
    ensures text == StripComments(sql)
  {
    var lines := Lines(sql);
    var out: seq<string> := [];
    for i := 0 to |lines|
      invariant out == CleanLines(lines[..i])
    {
      var cleaned := CutLine(lines[i]);
      assert lines[..i + 1][..i] == lines[..i];
      if cleaned != "" {
        out := out + [cleaned];
      }
    }
    assert lines[..|lines|] == lines;
    text := Join(out);
  }

  // ------------------------------------------------------------------- statements

  /** Pieces put back together around semicolons. */
  function Rejoined(pieces: seq<string>): string {
    if pieces == [] then "" else if |pieces| == 1 then pieces[0] else Rejoined(pieces[..|pieces| - 1]) + ";" + pieces[|pieces| - 1]
  }

  /** A text without its semicolons and white space. */
  function Solid(s: string): string {
    if s == "" then ""
    else
      var front, last := Solid(s[..|s| - 1]), s[|s| - 1];
      if last == ';' || IsSpace(last) then front else front + [last]
  }

  function Glued(parts: seq<string>): string {
    if parts == [] then "" else Glued(parts[..|parts| - 1]) + parts[|parts| - 1]
  }

  lemma {:induction false} SolidConcat(a: string, b: string)
    ensures Solid(a + b) == Solid(a) + Solid(b)
  {
    if b == "" {
      assert a + b == a;
    } else {
      assert (a + b)[..|a + b| - 1] == a + b[..|b| - 1];
      SolidConcat(a, b[..|b| - 1]);
    }
  }

  lemma {:induction false} SolidBlank(s: string)
    requires forall i :: 0 <= i < |s| ==> IsSpace(s[i])
    ensures Solid(s) == ""
  {
    if s != "" { SolidBlank(s[..|s| - 1]); }
  }

  lemma SolidTrim(s: string)
    ensures Solid(Trim(s)) == Solid(s)
  {
    hide IsSpace, Trim;
    var lo := TrimmedPart(s);
    var n := |Trim(s)|;
    assert s == s[..lo] + (Trim(s) + s[lo + n..]);
    var head, tail := s[..lo], s[lo + n..];
    forall i | 0 <= i < |head| ensures IsSpace(head[i]) { assert head[i] == s[i]; }
    forall i | 0 <= i < |tail| ensures IsSpace(tail[i]) { assert tail[i] == s[lo + n + i]; }
    SolidBlank(head);
    SolidBlank(tail);
    SolidConcat(head, Trim(s) + tail);
    SolidConcat(Trim(s), tail);
  }

  /** What is kept of the pieces: those that are not blank, trimmed, in order, with nothing solid lost. */
  lemma {:induction false} TrimmedKeeps(pieces: seq<string>)
    ensures forall t :: t in Trimmed(pieces) <==> t != "" && exists p :: p in pieces && Trim(p) == t
    ensures Solid(Glued(Trimmed(pieces))) == Solid(Rejoined(pieces))
  {
    hide IsSpace, Trim, Solid;
    if pieces == [] {
      assert Glued([]) == Rejoined([]) == "";
    } else {
      var n := |pieces| - 1;
      var front, last := pieces[..n], pieces[n];
      TrimmedKeeps(front);
      SolidTrim(last);
      OneMorePiece(front, last);
      assert pieces == front + [last];
      var kept, t := Trimmed(front), Trim(last);
      if t != "" {
        assert (kept + [t])[..|kept|] == kept;
        SolidConcat(Glued(kept), t);
      } else {
        SolidNothing();
      }
    }
  }

  lemma SolidNothing()
    ensures Solid("") == "" && Solid(";") == ""
  {
    assert ";"[..0] == "";
  }

  lemma OneMorePiece(front: seq<string>, last: string)
    ensures Solid(Rejoined(front + [last])) == Solid(Rejoined(front)) + Solid(last)
  {
    hide Solid;
    SolidNothing();
    if front == [] {
      assert [] + [last] == [last];
    } else {
      assert (front + [last])[..|front|] == front;
      SolidConcat(Rejoined(front) + ";", last);
      SolidConcat(Rejoined(front), ";");
    }
  }

  lemma {:induction false} PiecesRejoin(s: string)
    ensures Rejoined(Pieces(s, c => c == ';')) == s
    ensures forall p :: p in Pieces(s, c => c == ';') ==> ';' !in p
  {
    if s != "" { PiecesRejoin(s[..|s| - 1]); }
  }

  /** A migration's statements are what stands between the semicolons of its comment-free text: every such piece
      that is not blank, trimmed, in order, none with a semicolon, and nothing but semicolons and white space
      lost. */
  lemma StatementsAre(sql: string) returns (pieces: seq<string>)
    ensures Rejoined(pieces) == StripComments(sql) && forall p :: p in pieces ==> ';' !in p
    ensures forall t :: t in SplitStatements(sql) <==> t != "" && exists p :: p in pieces && Trim(p) == t
    ensures Solid(Glued(SplitStatements(sql))) == Solid(StripComments(sql))
  {
    hide StripComments, Trimmed, Pieces, Solid, Rejoined, Trim;
    pieces := Pieces(StripComments(sql), c => c == ';');
    PiecesRejoin(StripComments(sql));
    TrimmedKeeps(pieces);
  }
}
