/**
 * The string operations of Python that the upload layer relies on:
 * `str.split(sep)` and `", ".join(...)`, `str.lower()`, `str.strip()`,
 * and the decimal rendering of an integer inside an f-string.
 */
module Text {

  // ---------------------------------------------------------------------
  // split / join
  // ---------------------------------------------------------------------

  /** `s.split(sep)` for a one-character separator: never empty, and every
      part is free of the separator. */
  function Split(s: string, sep: char): (parts: seq<string>)
    ensures |parts| >= 1
    ensures forall i :: 0 <= i < |parts| ==> sep !in parts[i]
    decreases |s|
  {
    if |s| == 0 then [""]
    else
      var rest := Split(s[1..], sep);
      if s[0] == sep then [""] + rest
      else [[s[0]] + rest[0]] + rest[1..]
  }

  /** `sep.join(parts)`: the first part leads, the last part ends the
      result, and nothing is added when there is a single part. */
  function Join(parts: seq<string>, sep: string): (r: string)
    ensures |parts| == 0 ==> r == ""
    ensures |parts| == 1 ==> r == parts[0]
    decreases |parts|
  {
    if |parts| == 0 then ""
    else if |parts| == 1 then parts[0]
    else parts[0] + sep + Join(parts[1..], sep)
  }

  /** A join starts with the first part, followed by the separator when
      there are more parts, and ends with the last part. */
  lemma {:induction false} JoinEnds(parts: seq<string>, sep: string)
    requires |parts| >= 1
    ensures var r := Join(parts, sep);
            && |parts[0]| <= |r| && r[..|parts[0]|] == parts[0]
            && |parts[|parts| - 1]| <= |r| && r[|r| - |parts[|parts| - 1]|..] == parts[|parts| - 1]
    ensures |parts| >= 2 ==>
      var r := Join(parts, sep);
      |parts[0]| + |sep| <= |r| && r[|parts[0]|..|parts[0]| + |sep|] == sep
    decreases |parts|
  {
    if |parts| >= 2 {
      var rest := Join(parts[1..], sep);
      JoinEnds(parts[1..], sep);
      var r := Join(parts, sep);
      assert r == parts[0] + sep + rest;
      var last := parts[|parts| - 1];
      assert parts[1..][|parts| - 2] == last;
      assert r[|r| - |last|..] == rest[|rest| - |last|..];
    }
  }

  /** Joining the parts of a split with the same separator gives back the
      original string. */
  lemma {:induction false} JoinSplit(s: string, sep: char)
    ensures Join(Split(s, sep), [sep]) == s
    decreases |s|
  {
    if |s| > 0 {
      var rest := Split(s[1..], sep);
      JoinSplit(s[1..], sep);
      if s[0] == sep {
        assert Split(s, sep) == [""] + rest;
        assert ([""] + rest)[1..] == rest;
      } else {
        var parts := [[s[0]] + rest[0]] + rest[1..];
        assert Split(s, sep) == parts;
        if |rest| == 1 {
          assert Join(rest, [sep]) == rest[0];
        } else {
          assert parts[1..] == rest[1..];
          assert Join(rest, [sep]) == rest[0] + [sep] + Join(rest[1..], [sep]);
        }
      }
    }
  }

  /** A join of two or more parts ends with the separator and the last part. */
  lemma {:induction false} JoinSplitsOffLast(parts: seq<string>, sep: string)
    requires |parts| >= 2
    ensures Join(parts, sep) == Join(parts[..|parts| - 1], sep) + sep + parts[|parts| - 1]
    decreases |parts|
  {
    if |parts| > 2 {
      JoinSplitsOffLast(parts[1..], sep);
      assert parts[1..][..|parts| - 2] == parts[..|parts| - 1][1..];
    }
  }

  /** The last element of a non-empty sequence (Python's `xs[-1]`). */
  function Last<T>(xs: seq<T>): T
    requires |xs| >= 1
  {
    xs[|xs| - 1]
  }

  /** `r` is what `s.split(sep)[-1]` must be: a suffix of `s` without the
      separator that is either all of `s` or directly preceded by one. */
  predicate IsLastSegment(s: string, sep: char, r: string) {
    && |r| <= |s|
    && s[|s| - |r|..] == r
    && sep !in r
    && (|r| == |s| || s[|s| - |r| - 1] == sep)
  }

  /** There is only one last segment. */
  lemma LastSegmentUnique(s: string, sep: char, r1: string, r2: string)
    requires IsLastSegment(s, sep, r1) && IsLastSegment(s, sep, r2)
    ensures r1 == r2
  {
  }

  /** The last part of a split is the last segment of the string. */
  lemma LastPartIsLastSegment(s: string, sep: char)
    ensures IsLastSegment(s, sep, Last(Split(s, sep)))
  {
    var parts := Split(s, sep);
    var r := Last(parts);
    JoinSplit(s, sep);
    if |parts| >= 2 {
      JoinSplitsOffLast(parts, [sep]);
      var front := Join(parts[..|parts| - 1], [sep]);
      assert s == front + [sep] + r;
      assert s[|s| - |r|..] == r;
      assert s[|s| - |r| - 1] == sep;
    } else {
      assert s == r;
    }
  }

  /** Whatever precedes the last separator, the last segment of
      `prefix + sep + r` is `r` when `r` contains no separator. */
  lemma LastPartAfterSeparator(prefix: string, sep: char, r: string)
    requires sep !in r
    ensures Last(Split(prefix + [sep] + r, sep)) == r
  {
    var s := prefix + [sep] + r;
    LastPartIsLastSegment(s, sep);
    assert s[|s| - |r|..] == r;
    assert s[|s| - |r| - 1] == sep;
    LastSegmentUnique(s, sep, r, Last(Split(s, sep)));
  }

  // ---------------------------------------------------------------------
  // lower
  // ---------------------------------------------------------------------

  predicate IsUpper(c: char) {
    'A' <= c <= 'Z'
  }

  predicate IsLetter(c: char) {
    IsUpper(c) || 'a' <= c <= 'z'
  }

  function LowerChar(c: char): char {
    if IsUpper(c) then (c as int + 32) as char else c
  }

  /** `s.lower()`, on the ASCII letters: each upper-case letter becomes its
      lower-case partner, 32 code points on, and every other character is
      kept, so no upper-case letter is left. */
  function Lower(s: string): (r: string)
    ensures |r| == |s|
    ensures forall i :: 0 <= i < |s| ==> r[i] == LowerChar(s[i])
    ensures forall i :: 0 <= i < |s| ==> !IsUpper(r[i])
    ensures forall i :: 0 <= i < |s| && !IsUpper(s[i]) ==> r[i] == s[i]
    ensures forall i :: 0 <= i < |s| && IsUpper(s[i]) ==> r[i] as int == s[i] as int + 32
  {
    seq(|s|, i requires 0 <= i < |s| => LowerChar(s[i]))
  }

  /** A lower-cased string has no upper-case letters, so lowering it again
      changes nothing, and it holds a separator exactly where the input did. */
  lemma LowerFacts(s: string, sep: char)
    ensures forall i :: 0 <= i < |s| ==> !IsUpper(Lower(s)[i])
    ensures Lower(Lower(s)) == Lower(s)
    ensures !IsLetter(sep) ==> (sep in Lower(s) <==> sep in s)
  {
  }

  /** Lower-casing commutes with taking the last segment: splitting a
      lower-cased name yields the lower-cased last segment. */
  lemma LowerCommutesWithLastPart(s: string, sep: char)
    requires !IsLetter(sep)
    ensures Last(Split(Lower(s), sep)) == Lower(Last(Split(s, sep)))
  {
    var r := Last(Split(s, sep));
    LastPartIsLastSegment(s, sep);
    LowerFacts(r, sep);
    var ls := Lower(s);
    var lr := Lower(r);
    assert ls[|ls| - |lr|..] == lr by {
      forall i | 0 <= i < |lr|
        ensures ls[|ls| - |lr|..][i] == lr[i]
      {
        assert s[|s| - |r|..][i] == r[i];
      }
    }
    assert IsLastSegment(ls, sep, lr);
    LastPartIsLastSegment(ls, sep);
    LastSegmentUnique(ls, sep, lr, Last(Split(ls, sep)));
  }

  // ---------------------------------------------------------------------
  // strip
  // ---------------------------------------------------------------------

  /** Python's `str.isspace()` for one character. */
  predicate IsSpace(c: char) {
    || '\t' <= c <= '\r'
    || '\U{1C}' <= c <= '\U{1F}'
    || c == ' '
    || c == '\U{85}'
    || c == '\U{A0}'
    || c == '\U{1680}'
    || '\U{2000}' <= c <= '\U{200A}'
    || c == '\U{2028}'
    || c == '\U{2029}'
    || c == '\U{202F}'
    || c == '\U{205F}'
    || c == '\U{3000}'
  }

  /** Every character is white space (vacuously so for ""). */
  predicate Blank(s: string) {
    forall i :: 0 <= i < |s| ==> IsSpace(s[i])
  }

  function StripStart(s: string): (r: string)
    ensures |r| <= |s| && r == s[|s| - |r|..]
    ensures Blank(s[..|s| - |r|])
    ensures r == "" || !IsSpace(r[0])
  {
    if |s| > 0 && IsSpace(s[0]) then
      var r := StripStart(s[1..]);
      assert s[1..][..|s| - 1 - |r|] == s[1..|s| - |r|];
      r
    else s
  }

  function StripEnd(s: string): (r: string)
    ensures |r| <= |s| && r == s[..|r|]
    ensures Blank(s[|r|..])
    ensures r == "" || !IsSpace(r[|r| - 1])
  {
    if |s| > 0 && IsSpace(s[|s| - 1]) then
      var r := StripEnd(s[..|s| - 1]);
      assert s[..|s| - 1][|r|..] == s[|r|..|s| - 1];
      assert s[|r|..] == s[|r|..|s| - 1] + [s[|s| - 1]];
      r
    else s
  }

  /** `s.strip()`: the leading white space goes first (StripStart), then
      the trailing white space of what is left; both removed runs are
      blank, and the result neither starts nor ends with white space. */
  function Strip(s: string): (r: string)
    ensures var t := StripStart(s);
            && Blank(s[..|s| - |t|])
            && |r| <= |t| && r == t[..|r|] && Blank(t[|r|..])
    ensures r == "" || (!IsSpace(r[0]) && !IsSpace(r[|r| - 1]))
  {
    var t := StripStart(s);
    var r := StripEnd(t);
    assert r == "" || r[0] == t[0];
    r
  }

  /** `s.strip()` is empty exactly when `s` is nothing but white space. */
  lemma StripEmptyIffBlank(s: string)
    ensures Strip(s) == "" <==> Blank(s)
  {
  }

  // ---------------------------------------------------------------------
  // decimal rendering of naturals
  // ---------------------------------------------------------------------

  predicate IsDigit(c: char) {
    '0' <= c <= '9'
  }

  predicate AllDigits(s: string) {
    forall i :: 0 <= i < |s| ==> IsDigit(s[i])
  }

  function DigitChar(d: nat): (c: char)
    requires d < 10
    ensures IsDigit(c)
    ensures c as int - '0' as int == d
  {
    ('0' as int + d) as char
  }

  /** `str(n)` / `f"{n}"`: a non-empty string of digits with no leading
      zero, except for 0 itself. */
  function Decimal(n: nat): (r: string)
    ensures |r| >= 1 && AllDigits(r)
    ensures n == 0 ==> r == "0"
    ensures n > 0 ==> r[0] != '0'
  {
    if n < 10 then [DigitChar(n)] else Decimal(n / 10) + [DigitChar(n % 10)]
  }

  /** `int(s)` for a string of digits. */
  function ParseDecimal(s: string): nat
    requires AllDigits(s)
  {
    if |s| == 0 then 0
    else ParseDecimal(s[..|s| - 1]) * 10 + (s[|s| - 1] as int - '0' as int)
  }

  /** Reading back a rendered natural gives the natural. */
  lemma {:induction false} ParseDecimalRoundTrip(n: nat)
    ensures ParseDecimal(Decimal(n)) == n
  {
    if n >= 10 {
      var d := Decimal(n);
      assert d[..|d| - 1] == Decimal(n / 10);
      ParseDecimalRoundTrip(n / 10);
    }
  }

  /** Distinct naturals render as distinct strings. */
  lemma DecimalInjective(a: nat, b: nat)
    ensures Decimal(a) == Decimal(b) ==> a == b
  {
    ParseDecimalRoundTrip(a);
    ParseDecimalRoundTrip(b);
  }

  /** When two strings that each start with a run of digits and continue
      with a non-digit agree, the digit runs agree and so do the rests. */
  lemma DigitPrefixesAgree(a: string, x: string, b: string, y: string)
    requires AllDigits(a) && AllDigits(b)
    requires |x| >= 1 && !IsDigit(x[0])
    requires |y| >= 1 && !IsDigit(y[0])
    requires a + x == b + y
    ensures a == b && x == y
  {
    assert (a + x)[|a|] == x[0];
    assert (b + y)[|b|] == y[0];
    assert |a| == |b|;
    assert a == (a + x)[..|a|];
    assert b == (b + y)[..|b|];
  }
}
