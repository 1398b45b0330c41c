// Object names: `tenant/YYYY-MM-DD/HH/pPPP-FFFFFFFFFFFF-LLLLLLLLLLLL.otlp.zz`.
module ArchiveKey {
  import opened Text

  /** The UTC hour of a flush; years have four digits. */
  datatype Hour = Hour(year: nat, month: nat, day: nat, hour: nat) {
    predicate Valid() {
      1000 <= year <= 9999 && 1 <= month <= 12 && 1 <= day <= 31 && hour <= 23
    }
  }

  type UtcHour = h: Hour | h.Valid() witness Hour(2026, 1, 1, 0)

  function DatePath(h: Hour): string {
    Padded(h.year, 4) + "-" + Padded(h.month, 2) + "-" + Padded(h.day, 2) + "/" + Padded(h.hour, 2)
  }

  function FileName(partition: nat, first: nat, last: nat): string {
    "p" + Padded(partition, 3) + "-" + Padded(first, 12) + "-" + Padded(last, 12) + ".otlp.zz"
  }

  function Key(tenant: string, h: Hour, partition: nat, first: nat, last: nat): string {
    tenant + "/" + DatePath(h) + "/" + FileName(partition, first, last)
  }

  lemma TwoDigits(n: nat)
    requires n < 100
    ensures |Padded(n, 2)| == 2
  {
    assert n >= 10 ==> |Decimal(n / 10)| == 1;
  }

  lemma FourDigits(n: nat)
    requires 1000 <= n < 10000
    ensures |Padded(n, 4)| == 4
  {
    assert |Decimal(n / 1000)| == 1;
    assert n / 100 / 10 == n / 1000 && |Decimal(n / 100)| == 2;
    assert n / 10 / 10 == n / 100 && |Decimal(n / 10)| == 3;
  }

  lemma DatePathLength(h: Hour)
    requires h.Valid()
    ensures |DatePath(h)| == 13
  {
    FourDigits(h.year); TwoDigits(h.month); TwoDigits(h.day); TwoDigits(h.hour);
  }

  /** The path reads year, month, day and hour, in that order. */
  lemma DatePathReads(h: Hour)
    requires h.Valid()
    ensures var s := DatePath(h);
      && |s| == 13 && s[4] == '-' && s[7] == '-' && s[10] == '/'
      && AllDigits(s[..4]) && ValueOf(s[..4]) == h.year && AllDigits(s[5..7]) && ValueOf(s[5..7]) == h.month
      && AllDigits(s[8..10]) && ValueOf(s[8..10]) == h.day && AllDigits(s[11..]) && ValueOf(s[11..]) == h.hour
  {
    hide Padded;
    FourDigits(h.year); TwoDigits(h.month); TwoDigits(h.day); TwoDigits(h.hour);
    PaddedValue(h.year, 4); PaddedValue(h.month, 2); PaddedValue(h.day, 2); PaddedValue(h.hour, 2);
    var s := DatePath(h);
    assert s[..4] == Padded(h.year, 4) && s[5..7] == Padded(h.month, 2);
    assert s[8..10] == Padded(h.day, 2) && s[11..] == Padded(h.hour, 2);
  }

  lemma DatePathInjective(a: Hour, b: Hour)
    requires a.Valid() && b.Valid() && DatePath(a) == DatePath(b)
    ensures a == b
  {
    hide DatePath, ValueOf, AllDigits;
    DatePathReads(a);
    DatePathReads(b);
  }

  /** The file name reads partition, first offset and last offset, in that order, between its marks. */
  lemma FileNameReads(partition: nat, first: nat, last: nat)
    ensures var p, f, l := Padded(partition, 3), Padded(first, 12), Padded(last, 12); var s := FileName(partition, first, last);
      && AllDigits(p) && AllDigits(f) && AllDigits(l) && ValueOf(p) == partition && ValueOf(f) == first && ValueOf(l) == last
      && |s| == 1 + |p| + 1 + |f| + 1 + |l| + 8
      && s[0] == 'p' && s[1..1 + |p|] == p && s[1 + |p|] == '-' && s[2 + |p|..2 + |p| + |f|] == f
      && s[2 + |p| + |f|] == '-' && s[3 + |p| + |f|..3 + |p| + |f| + |l|] == l && s[3 + |p| + |f| + |l|..] == ".otlp.zz"
  {
    hide Padded;
    PaddedValue(partition, 3); PaddedValue(first, 12); PaddedValue(last, 12);
  }

  /** A padded number followed by a non-digit determines both. */
  lemma PaddedSplit(m: nat, x: string, n: nat, y: string, width: nat)
    requires EndsDigits(x) && EndsDigits(y)
    requires Padded(m, width) + x == Padded(n, width) + y
    ensures m == n && x == y
  {
    PaddedValue(m, width);
    PaddedValue(n, width);
    DigitRunSplit(Padded(m, width), x, Padded(n, width), y);
  }

  lemma NameShape(p: string, f: string, l: string)
    ensures "p" + p + "-" + f + "-" + l + ".otlp.zz" == "p" + (p + ("-" + (f + ("-" + (l + ".otlp.zz")))))
  {}

  lemma FileNameInjective(p: nat, f: nat, l: nat, p': nat, f': nat, l': nat)
    requires FileName(p, f, l) == FileName(p', f', l')
    ensures p == p' && f == f' && l == l'
  {
    NameShape(Padded(p, 3), Padded(f, 12), Padded(l, 12));
    NameShape(Padded(p', 3), Padded(f', 12), Padded(l', 12));
    var x, x' := Padded(l, 12) + ".otlp.zz", Padded(l', 12) + ".otlp.zz";
    var y, y' := Padded(f, 12) + ("-" + x), Padded(f', 12) + ("-" + x');
    var z, z' := Padded(p, 3) + ("-" + y), Padded(p', 3) + ("-" + y');
    assert z == ("p" + z)[1..] == ("p" + z')[1..] == z';
    PaddedSplit(p, "-" + y, p', "-" + y', 3);
    assert y == ("-" + y)[1..] == ("-" + y')[1..] == y';
    PaddedSplit(f, "-" + x, f', "-" + x', 12);
    assert x == ("-" + x)[1..] == ("-" + x')[1..] == x';
    PaddedSplit(l, ".otlp.zz", l', ".otlp.zz", 12);
  }

  ghost predicate NoSlash(s: string) {
    forall i :: 0 <= i < |s| ==> s[i] != '/'
  }

  lemma FileNameHasNoSlash(p: nat, f: nat, l: nat)
    ensures NoSlash(FileName(p, f, l))
  {
    PaddedValue(p, 3);
    PaddedValue(f, 12);
    PaddedValue(l, 12);
    var s := FileName(p, f, l);
    forall i | 0 <= i < |s| ensures s[i] != '/' {
      var pp, ff, ll := Padded(p, 3), Padded(f, 12), Padded(l, 12);
      assert s == "p" + pp + "-" + ff + "-" + ll + ".otlp.zz";
      assert IsDigit(s[i]) || s[i] in "p-.otlp.zz";
    }
  }

  /** The text after the last slash is determined. */
  lemma LastSlashSplit(a: string, x: string, b: string, y: string)
    requires NoSlash(x) && NoSlash(y) && a + "/" + x == b + "/" + y
    ensures a == b && x == y
  {
    var s := a + "/" + x;
    assert s[|a|] == '/' && s[|b|] == '/';
    assert forall i :: |a| < i < |s| ==> s[i] == x[i - |a| - 1];
    assert forall i :: |b| < i < |s| ==> s[i] == y[i - |b| - 1];
    assert |a| == |b|;
    assert a == s[..|a|] == b && x == s[|a| + 1..] == y;
  }

  /** A name determines everything it was built from, even when the tenant contains slashes. */
  lemma KeyInjective(t: string, h: Hour, p: nat, f: nat, l: nat, t': string, h': Hour, p': nat, f': nat, l': nat)
    requires h.Valid() && h'.Valid()
    requires Key(t, h, p, f, l) == Key(t', h', p', f', l')
    ensures t == t' && h == h' && p == p' && f == f' && l == l'
  {
    var n, n' := FileName(p, f, l), FileName(p', f', l');
    FileNameHasNoSlash(p, f, l);
    FileNameHasNoSlash(p', f', l');
    LastSlashSplit(t + "/" + DatePath(h), n, t' + "/" + DatePath(h'), n');
    FileNameInjective(p, f, l, p', f', l');
    DatePathLength(h);
    DatePathLength(h');
    TailSplit(t + "/", DatePath(h), t' + "/", DatePath(h'));
    DatePathInjective(h, h');
    assert t == (t + "/")[..|t|] == (t' + "/")[..|t'|] == t';
  }
}
