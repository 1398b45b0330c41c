// Decimal rendering and the splitting facts that make rendered names injective.
module Text {

  datatype Option<+T> = None | Some(value: T)

  predicate IsDigit(c: char) {
    '0' <= c <= '9'
  }

  ghost predicate AllDigits(s: string) {
    forall i :: 0 <= i < |s| ==> IsDigit(s[i])
  }

  function DigitChar(d: nat): (c: char)
    requires d < 10
    ensures IsDigit(c) && c as int - '0' as int == d
  {
    "0123456789"[d]
  }

  /** `str(n)`: decimal digits, no leading zeros. */
  function Decimal(n: nat): string
    decreases n
  {
    if n < 10 then [DigitChar(n)] else Decimal(n / 10) + [DigitChar(n % 10)]
  }

  function Zeros(k: nat): string {
    seq(k, _ => '0')
  }

  /** `f"{n:0{width}d}"`: zero-padded to at least `width` digits. */
  function Padded(n: nat, width: nat): string {
    var d := Decimal(n);
    if |d| >= width then d else Zeros(width - |d|) + d
  }

  ghost function ValueOf(s: string): nat
    requires AllDigits(s)
  {
    if s == "" then 0 else
    assert IsDigit(s[|s| - 1]);
    10 * ValueOf(s[..|s| - 1]) + (s[|s| - 1] as int - '0' as int)
  }

  /** Decimal text can be read back. */
  lemma {:induction false} DecimalValue(n: nat)
    ensures Decimal(n) != "" && AllDigits(Decimal(n)) && ValueOf(Decimal(n)) == n
  {
    var d := Decimal(n);
    if n >= 10 {
      DecimalValue(n / 10);
      assert d[..|d| - 1] == Decimal(n / 10);
    } else {
      assert d[..|d| - 1] == "";
    }
  }

  lemma {:induction false} LeadingZeros(k: nat, s: string)
    requires AllDigits(s)
    ensures AllDigits(Zeros(k) + s) && ValueOf(Zeros(k) + s) == ValueOf(s)
    decreases |s|, k
  {
    var t := Zeros(k) + s;
    if s != "" {
      LeadingZeros(k, s[..|s| - 1]);
      assert t[..|t| - 1] == Zeros(k) + s[..|s| - 1];
    } else if k > 0 {
      LeadingZeros(k - 1, "");
      assert t[..|t| - 1] == Zeros(k - 1) + "";
    }
  }

  lemma PaddedValue(n: nat, width: nat)
    ensures Padded(n, width) != "" && AllDigits(Padded(n, width)) && ValueOf(Padded(n, width)) == n
  {
    DecimalValue(n);
    var d := Decimal(n);
    if |d| < width {
      LeadingZeros(width - |d|, d);
    }
  }

  lemma PaddedInjective(m: nat, n: nat, width: nat)
    requires Padded(m, width) == Padded(n, width)
    ensures m == n
  {
    PaddedValue(m, width);
    PaddedValue(n, width);
  }

  /** True when a digit run ends where `rest` begins. */
  predicate EndsDigits(rest: string) {
    rest == "" || !IsDigit(rest[0])
  }

  /** A digit run followed by a non-digit can be split off in one way only. */
  lemma DigitRunSplit(a: string, x: string, b: string, y: string)
    requires AllDigits(a) && AllDigits(b) && EndsDigits(x) && EndsDigits(y)
    requires a + x == b + y
    ensures a == b && x == y
  {
    var s := a + x;
    assert forall i :: 0 <= i < |a| ==> s[i] == a[i];
    assert forall i :: 0 <= i < |b| ==> s[i] == b[i];
    assert |a| < |s| ==> s[|a|] == x[0];
    assert |b| < |s| ==> s[|b|] == y[0];
    assert |a| == |b|;
    assert a == s[..|a|] && b == s[..|b|];
    assert x == s[|a|..] && y == s[|b|..];
  }

  /** A decimal followed by a non-digit determines both the number and what follows. */
  lemma NumberSplit(m: nat, x: string, n: nat, y: string)
    requires EndsDigits(x) && EndsDigits(y)
    requires Decimal(m) + x == Decimal(n) + y
    ensures m == n && x == y
  {
    DecimalValue(m);
    DecimalValue(n);
    DigitRunSplit(Decimal(m), x, Decimal(n), y);
  }

  /** Equal concatenations with equal-length tails agree part by part. */
  lemma TailSplit(a: string, x: string, b: string, y: string)
    requires a + x == b + y && |x| == |y|
    ensures a == b && x == y
  {
    var s := a + x;
    assert a == s[..|a|] && b == s[..|b|];
    assert x == s[|a|..] && y == s[|b|..];
  }
}
