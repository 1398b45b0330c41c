// String operations of the Python standard library: order, case, white space, search.
module Strings {

  /** Order by character codes. */
  predicate Before(a: string, b: string) {
    b != "" && (a == "" || a[0] < b[0] || (a[0] == b[0] && Before(a[1..], b[1..])))
  }

  /** Where the two first differ, the earlier one has the smaller code or has ended. */
  lemma {:induction false} BeforeMeans(a: string, b: string)
    ensures Before(a, b) <==> exists k :: DiffersAt(a, b, k)
  {
    if a != "" && b != "" && a[0] == b[0] {
      BeforeMeans(a[1..], b[1..]);
      if k: nat :| DiffersAt(a[1..], b[1..], k) {
        assert a[..k + 1] == [a[0]] + a[1..][..k] && b[..k + 1] == [b[0]] + b[1..][..k];
        assert DiffersAt(a, b, k + 1);
      }
      if k: nat :| DiffersAt(a, b, k) {
        assert k > 0 && a[1..][..k - 1] == a[..k][1..] && b[1..][..k - 1] == b[..k][1..];
        assert DiffersAt(a[1..], b[1..], k - 1);
      }
    } else if b != "" && (a == "" || a[0] < b[0]) {
      assert DiffersAt(a, b, 0);
    }
  }

  /** The first k characters are the same, and then `a` ends, or has the smaller code. */
  ghost predicate DiffersAt(a: string, b: string, k: nat) {
    && k <= |a| && k < |b| && a[..k] == b[..k]
    && (k == |a| || a[k] as int < b[k] as int)
  }

  lemma {:induction false} BeforeIrreflexive(a: string)
    ensures !Before(a, a)
  {
    if a != "" { BeforeIrreflexive(a[1..]); }
  }

  lemma {:induction false} BeforeTransitive(a: string, b: string, c: string)
    requires Before(a, b) && Before(b, c)
    ensures Before(a, c)
  {
    if a != "" && a[0] == b[0] && b[0] == c[0] {
      BeforeTransitive(a[1..], b[1..], c[1..]);
    }
  }

  lemma {:induction false} BeforeTotal(a: string, b: string)
    ensures Before(a, b) || a == b || Before(b, a)
  {
    if a != "" && b != "" && a[0] == b[0] {
      BeforeTotal(a[1..], b[1..]);
      assert a == [a[0]] + a[1..] && b == [b[0]] + b[1..];
    }
  }

  /** ASCII case folding. */
  function LowerChar(c: char): char {
    if 'A' <= c <= 'Z' then ((c as int) + 32) as char else c
  }

  function Lower(s: string): string {
    seq(|s|, i requires 0 <= i < |s| => LowerChar(s[i]))
  }

  /** The 26 capital letters become the small ones, and nothing else changes. */
  lemma LowerReads(c: char)
    ensures var capitals, small := "ABCDEFGHIJKLMNOPQRSTUVWXYZ", "abcdefghijklmnopqrstuvwxyz";
      && (forall i :: 0 <= i < 26 && c == capitals[i] ==> LowerChar(c) == small[i])
      && (c !in capitals ==> LowerChar(c) == c)
  {
    var capitals, small := "ABCDEFGHIJKLMNOPQRSTUVWXYZ", "abcdefghijklmnopqrstuvwxyz";
    forall i | 0 <= i < 26 ensures capitals[i] as int == 65 + i && small[i] as int == 97 + i {}
    if 'A' <= c <= 'Z' { assert c == capitals[c as int - 65]; }
  }

  predicate Occurs(hay: string, needle: string) {
    |needle| <= |hay| && (hay[..|needle|] == needle || (hay != "" && Occurs(hay[1..], needle)))
  }

  /** A line boundary for `splitlines`. */
  predicate IsBreak(c: char) {
    var n := c as int;
    0x0a <= n <= 0x0d || 0x1c <= n <= 0x1e || n == 0x85 || n == 0x2028 || n == 0x2029
  }

  /** White space for `strip`. */
  predicate IsSpace(c: char) {
    var n := c as int;
    || IsBreak(c) || n == 0x09 || n == 0x1f || n == 0x20 || n == 0xa0 || n == 0x1680 || 0x2000 <= n <= 0x200a
    || n == 0x202f || n == 0x205f || n == 0x3000
  }

  /** The characters that count as white space, by their codes. */
  lemma SpaceReads(c: char)
    ensures IsSpace(c) <==> c as int in {
      0x09, 0x0a, 0x0b, 0x0c, 0x0d, 0x1c, 0x1d, 0x1e, 0x1f, 0x20, 0x85, 0xa0, 0x1680, 0x2000, 0x2001, 0x2002, 0x2003, 0x2004,
      0x2005, 0x2006, 0x2007, 0x2008, 0x2009, 0x200a, 0x2028, 0x2029, 0x202f, 0x205f, 0x3000}
    ensures IsBreak(c) <==> c as int in {0x0a, 0x0b, 0x0c, 0x0d, 0x1c, 0x1d, 0x1e, 0x85, 0x2028, 0x2029}
  {}

  function TrimRight(s: string): (t: string)
    ensures t <= s && (t != "" ==> !IsSpace(t[|t| - 1]))
    ensures forall i :: |t| <= i < |s| ==> IsSpace(s[i])
  {
    if s != "" && IsSpace(s[|s| - 1]) then TrimRight(s[..|s| - 1]) else s
  }

  function TrimLeft(s: string): (t: string)
    ensures |t| <= |s| && t == s[|s| - |t|..] && (t != "" ==> !IsSpace(t[0]))
    ensures forall i :: 0 <= i < |s| - |t| ==> IsSpace(s[i])
  {
    if s != "" && IsSpace(s[0]) then TrimLeft(s[1..]) else s
  }

  /** `str.strip()`. */
  function Trim(s: string): string {
    TrimRight(TrimLeft(s))
  }

  // ---------------------------------------------------------- searching and trimming

  /** Where a search finds its needle. */
  lemma {:induction false} OccursAt(hay: string, needle: string) returns (i: nat)
    requires Occurs(hay, needle)
    ensures i + |needle| <= |hay| && hay[i..i + |needle|] == needle
  {
    if hay[..|needle|] == needle {
      i := 0;
    } else {
      i := OccursAt(hay[1..], needle);
      i := i + 1;
    }
  }

  lemma {:induction false} FoundAt(hay: string, needle: string, i: nat)
    requires i + |needle| <= |hay| && hay[i..i + |needle|] == needle
    ensures Occurs(hay, needle)
  {
    if i > 0 {
      assert hay[1..][i - 1..i - 1 + |needle|] == needle;
      FoundAt(hay[1..], needle, i - 1);
    }
  }

  lemma SliceOfSlice(s: string, i: nat, n: nat, j: nat, m: nat)
    requires i + n <= |s| && j + m <= n
    ensures s[i..i + n][j..j + m] == s[i + j..i + j + m]
  {
    var a, b := s[i..i + n][j..j + m], s[i + j..i + j + m];
    assert |a| == |b| && forall k :: 0 <= k < m ==> a[k] == b[k];
  }

  lemma OccursTransitive(a: string, b: string, c: string)
    requires Occurs(a, b) && Occurs(b, c)
    ensures Occurs(a, c)
  {
    var i := OccursAt(a, b);
    var j := OccursAt(b, c);
    SliceOfSlice(a, i, |b|, j, |c|);
    FoundAt(a, c, i + j);
  }

  /** What trimming keeps, and that all around it is white space. */
  lemma TrimmedPart(s: string) returns (lo: nat)
    ensures lo + |Trim(s)| <= |s| && Trim(s) == s[lo..lo + |Trim(s)|]
    ensures forall i :: 0 <= i < |s| && !IsSpace(s[i]) ==> lo <= i < lo + |Trim(s)|
    ensures Trim(s) != "" ==> !IsSpace(Trim(s)[0]) && !IsSpace(Trim(s)[|Trim(s)| - 1])
  {
    hide IsSpace;
    var t := TrimLeft(s);
    lo := |s| - |t|;
    forall i | 0 <= i < |s| && !IsSpace(s[i]) ensures lo <= i < lo + |Trim(s)| {
      if i >= lo { assert s[i] == t[i - lo]; }
    }
  }

  lemma TrimTwice(s: string)
    ensures Trim(Trim(s)) == Trim(s)
  {
    var t, u := TrimLeft(s), Trim(s);
    if u != "" { assert u[0] == t[0]; }
  }

  lemma LowerKeepsSpace(c: char)
    ensures IsSpace(LowerChar(c)) <==> IsSpace(c)
  {}

  lemma LowerSlice(s: string, i: nat, j: nat)
    requires i <= j <= |s|
    ensures Lower(s[i..j]) == Lower(s)[i..j]
  {}

  /** A search for text without white space at its ends finds in a string what it finds in the trimmed one. */
  lemma TrimmedSearch(s: string, needle: string)
    requires needle != "" && !IsSpace(needle[0]) && !IsSpace(needle[|needle| - 1])
    ensures Occurs(Lower(s), Lower(needle)) <==> Occurs(Lower(Trim(s)), Lower(needle))
  {
    hide IsSpace, Lower, Trim, Occurs;
    var lo := TrimmedPart(s);
    LowerLengths(s);
    LowerSlice(s, lo, lo + |Trim(s)|);
    if Occurs(Lower(s), Lower(needle)) {
      var i := OccursAt(Lower(s), Lower(needle));
      LowerLengths(needle);
      FoundEdges(s, needle, i);
      PartFound(Lower(s), lo, |Trim(s)|, Lower(needle), i);
    }
    if Occurs(Lower(Trim(s)), Lower(needle)) {
      PartWithin(Lower(s), lo, |Trim(s)|);
      OccursTransitive(Lower(s), Lower(Trim(s)), Lower(needle));
    }
  }

  lemma LowerLengths(s: string)
    ensures |Lower(s)| == |s|
  {}

  lemma PartWithin(s: string, lo: nat, n: nat)
    requires lo + n <= |s|
    ensures Occurs(s, s[lo..lo + n])
  {
    FoundAt(s, s[lo..lo + n], lo);
  }

  lemma PartFound(s: string, lo: nat, n: nat, needle: string, i: nat)
    requires lo <= i && i + |needle| <= lo + n <= |s| && s[i..i + |needle|] == needle
    ensures Occurs(s[lo..lo + n], needle)
  {
    SliceOfSlice(s, lo, n, i - lo, |needle|);
    FoundAt(s[lo..lo + n], needle, i - lo);
  }

  /** A found needle starts and ends on characters that are no white space if its own are not. */
  lemma FoundEdges(s: string, needle: string, i: nat)
    requires needle != "" && !IsSpace(needle[0]) && !IsSpace(needle[|needle| - 1])
    requires i + |needle| <= |s| && Lower(s)[i..i + |needle|] == Lower(needle)
    ensures !IsSpace(s[i]) && !IsSpace(s[i + |needle| - 1])
  {
    hide IsSpace, LowerChar;
    var n := |needle|;
    assert Lower(needle)[0] == LowerChar(needle[0]) && Lower(needle)[n - 1] == LowerChar(needle[n - 1]);
    assert Lower(s)[i..i + n][0] == LowerChar(s[i]) && Lower(s)[i..i + n][n - 1] == LowerChar(s[i + n - 1]);
    LowerKeepsSpace(s[i]);
    LowerKeepsSpace(s[i + n - 1]);
    LowerKeepsSpace(needle[0]);
    LowerKeepsSpace(needle[n - 1]);
  }
}
