/**
 * The PHP string built-ins the client relies on, over `seq<char>`:
 * `trim`, `strtolower`/`strtoupper` (ASCII), `strpos`, `explode` and `implode`.
 */
module Strings {
  import opened Wrappers

  /** The characters PHP's `trim` strips by default: space, \t, \n, \r, \0 and \x0B. */
  predicate IsTrimChar(c: char) {
    c == ' ' || c == '\t' || c == '\n' || c == '\r' || c == '\0' || c == '\U{000B}'
  }

  /** PCRE's `\s` class: space, \t, \n, \x0B, \f and \r. */
  predicate IsSpace(c: char) {
    c == ' ' || c == '\t' || c == '\n' || c == '\U{000B}' || c == '\U{000C}' || c == '\r'
  }

  /** PHP truthiness of a string: everything but `""` and `"0"`. */
  predicate Truthy(s: string) {
    s != "" && s != "0"
  }

  /** PHP's `ltrim($s)`: `s` without its leading trim characters. */
  function TrimLeft(s: string): (r: string)
    ensures |r| <= |s| && r == s[|s| - |r|..]
    ensures forall i :: 0 <= i < |s| - |r| ==> IsTrimChar(s[i])
    ensures r == [] || !IsTrimChar(r[0])
  {
    if s != [] && IsTrimChar(s[0]) then TrimLeft(s[1..]) else s
  }

  /** PHP's `rtrim($s)`: `s` without its trailing trim characters. */
  function TrimRight(s: string): (r: string)
    ensures |r| <= |s| && r == s[..|r|]
    ensures forall i :: |r| <= i < |s| ==> IsTrimChar(s[i])
    ensures r == [] || !IsTrimChar(r[|r| - 1])
  {
    if s != [] && IsTrimChar(s[|s| - 1]) then TrimRight(s[..|s| - 1]) else s
  }

  /**
   * PHP's `trim($s)`: the slice of `s` left once its leading and trailing trim
   * characters are cut, and nothing else cut.
   */
  function Trim(s: string): (r: string)
    ensures |r| <= |s|
    ensures r == [] || (!IsTrimChar(r[0]) && !IsTrimChar(r[|r| - 1]))
    ensures var k := |s| - |TrimLeft(s)|;
              k + |r| <= |s| && r == s[k..k + |r|]
              && (forall j :: 0 <= j < k ==> IsTrimChar(s[j]))
              && (forall j :: k + |r| <= j < |s| ==> IsTrimChar(s[j]))
  {
    TrimRight(TrimLeft(s))
  }

  /** A string that neither starts nor ends with a trim character is its own trim. */
  lemma TrimClean(s: string)
    requires s == [] || (!IsTrimChar(s[0]) && !IsTrimChar(s[|s| - 1]))
    ensures Trim(s) == s
  {
  }

  /** Trimming twice is trimming once. */
  lemma TrimIdempotent(s: string)
    ensures Trim(Trim(s)) == Trim(s)
  {
    TrimClean(Trim(s));
  }

  function LowerChar(c: char): char {
    if 'A' <= c <= 'Z' then (c as int + 32) as char else c
  }

  function UpperChar(c: char): char {
    if 'a' <= c <= 'z' then (c as int - 32) as char else c
  }

  /** PHP's `strtolower` (ASCII letters only, as in PHP 8.2 and later). */
  function Lower(s: string): (r: string)
    ensures |r| == |s|
  {
    seq(|s|, i requires 0 <= i < |s| => LowerChar(s[i]))
  }

  /** PHP's `strtoupper` (ASCII letters only). */
  function Upper(s: string): (r: string)
    ensures |r| == |s|
  {
    seq(|s|, i requires 0 <= i < |s| => UpperChar(s[i]))
  }

  /** A string without lower-case ASCII letters is its own upper-case form. */
  lemma UpperFixed(s: string)
    requires forall i :: 0 <= i < |s| ==> !('a' <= s[i] <= 'z')
    ensures Upper(s) == s
  {
  }

  /** A string without upper-case ASCII letters is its own lower-case form. */
  lemma LowerFixed(s: string)
    requires forall i :: 0 <= i < |s| ==> !('A' <= s[i] <= 'Z')
    ensures Lower(s) == s
  {
  }

  /** `pat` occurs in `s` starting at index `i`. */
  predicate OccursAt(s: string, pat: string, i: int) {
    0 <= i && i + |pat| <= |s| && s[i..i + |pat|] == pat
  }

  lemma OccursShift(s: string, pat: string)
    requires s != []
    ensures forall j :: 1 <= j ==> (OccursAt(s, pat, j) <==> OccursAt(s[1..], pat, j - 1))
  {
    forall j | 1 <= j
      ensures OccursAt(s, pat, j) <==> OccursAt(s[1..], pat, j - 1)
    {
      if j + |pat| <= |s| {
        assert s[1..][j - 1..j - 1 + |pat|] == s[j..j + |pat|];
      }
    }
  }

  lemma OccursInPrefix(s: string, pat: string, n: nat)
    requires n <= |s|
    ensures forall j :: OccursAt(s[..n], pat, j) ==> OccursAt(s, pat, j)
  {
    forall j | OccursAt(s[..n], pat, j)
      ensures OccursAt(s, pat, j)
    {
      assert s[..n][j..j + |pat|] == s[j..j + |pat|];
    }
  }

  lemma OccursInSuffix(s: string, pat: string, n: nat)
    requires n <= |s|
    ensures forall j :: 0 <= j ==> (OccursAt(s[n..], pat, j) <==> OccursAt(s, pat, j + n))
  {
    forall j | 0 <= j
      ensures OccursAt(s[n..], pat, j) <==> OccursAt(s, pat, j + n)
    {
      if 0 <= j && j + |pat| <= |s| - n {
        assert s[n..][j..j + |pat|] == s[j + n..j + n + |pat|];
      }
    }
  }

  /**
   * PHP's `strpos($s, $pat)`: the first index at which `pat` occurs in `s`,
   * or absent (PHP's `false`) when it does not occur at all.
   */
  function IndexOf(s: string, pat: string): (r: Option<nat>)
    ensures r.Some? ==> OccursAt(s, pat, r.value)
    ensures r.Some? ==> forall j :: 0 <= j < r.value ==> !OccursAt(s, pat, j)
    ensures r.None? ==> forall j :: !OccursAt(s, pat, j)
    decreases |s|
  {
    if |s| < |pat| then None
    else if s[..|pat|] == pat then Some(0)
    else
      OccursShift(s, pat);
      match IndexOf(s[1..], pat)
      case None => None
      case Some(k) => Some(k + 1)
  }

  /** `pat` occurs somewhere in `s` (`strpos($s, $pat) !== false`, a regex of a quoted literal). */
  predicate Contains(s: string, pat: string) {
    IndexOf(s, pat).Some?
  }

  /** A pattern whose first character does not occur anywhere is not contained. */
  lemma FirstCharMissing(s: string, pat: string)
    requires pat != [] && forall i :: 0 <= i < |s| ==> s[i] != pat[0]
    ensures !Contains(s, pat)
  {
    if Contains(s, pat) {
      var j := IndexOf(s, pat).value;
      OccursFirst(s, pat, j);
      assert false;
    }
  }

  lemma OccursFirst(s: string, pat: string, j: int)
    requires pat != [] && OccursAt(s, pat, j)
    ensures s[j] == pat[0]
  {
    assert s[j..j + |pat|][0] == s[j];
  }

  /** PHP's `implode($sep, $parts)`. */
  function Join(parts: seq<string>, sep: string): string {
    if |parts| == 0 then ""
    else if |parts| == 1 then parts[0]
    else parts[0] + sep + Join(parts[1..], sep)
  }

  /**
   * PHP's `explode($sep, $s)`: the pieces of `s` between the occurrences of `sep`,
   * found left to right. Joining the pieces back with `sep` gives `s`, no piece
   * contains `sep`, and there is more than one piece exactly when `sep` occurs.
   * These facts pin the pieces down only for a separator that cannot overlap
   * itself (no proper prefix of it is also a suffix), as `"\n"` and
   * `"\r\n\r\nHTTP/"` cannot; for one like `"aa"` in `"aaa"` both `["", "a"]`
   * and `["a", ""]` satisfy them, and only the body says the cut is leftmost.
   */
  function Explode(s: string, sep: string): (parts: seq<string>)
    requires sep != []
    ensures |parts| >= 1
    ensures Join(parts, sep) == s
    ensures |parts| > 1 <==> Contains(s, sep)
    ensures forall i :: 0 <= i < |parts| ==> !Contains(parts[i], sep)
    decreases |s|
  {
    match IndexOf(s, sep)
    case None => [s]
    case Some(i) =>
      var rest := Explode(s[i + |sep|..], sep);
      OccursInPrefix(s, sep, i);
      assert s == s[..i] + sep + s[i + |sep|..];
      assert ([s[..i]] + rest)[1..] == rest;
      [s[..i]] + rest
  }

  /**
   * PHP's `explode($sep, $s, 2)`: the text before the first `sep` and, when `sep`
   * occurs, the text after that first occurrence.
   */
  function SplitOnce(s: string, sep: string): (r: (string, Option<string>))
    requires sep != []
    ensures !Contains(r.0, sep)
    ensures r.1.None? <==> !Contains(s, sep)
    ensures r.1.None? ==> r.0 == s
    ensures r.1.Some? ==> s == r.0 + sep + r.1.value
    ensures r.1.Some? ==> IndexOf(s, sep) == Some(|r.0|)
  {
    match IndexOf(s, sep)
    case None => (s, None)
    case Some(i) =>
      OccursInPrefix(s, sep, i);
      assert s == s[..i] + sep + s[i + |sep|..];
      (s[..i], Some(s[i + |sep|..]))
  }

  /** The length of the longest prefix of `s` in which `c` does not occur. */
  function SpanNot(s: string, c: char): (n: nat)
    ensures n <= |s|
    ensures c !in s[..n]
    ensures n < |s| ==> s[n] == c
  {
    if s == [] || s[0] == c then 0
    else
      var n := SpanNot(s[1..], c);
      assert s[..n + 1] == [s[0]] + s[1..][..n];
      n + 1
  }

  /** `s` without its leading PCRE whitespace (what a trailing `\s*` consumes). */
  function SkipSpaces(s: string): (r: string)
    ensures |r| <= |s| && r == s[|s| - |r|..]
    ensures r == [] || !IsSpace(r[0])
    ensures forall i :: 0 <= i < |s| - |r| ==> IsSpace(s[i])
  {
    if s != [] && IsSpace(s[0]) then
      var r := SkipSpaces(s[1..]);
      assert s[1..][|s| - 1 - |r|..] == s[|s| - |r|..];
      assert forall i :: 1 <= i < |s| - |r| ==> s[i] == s[1..][i - 1];
      r
    else s
  }

  // ---------------------------------------------------------------- PHP 8 `==` between strings

  predicate IsDigit(c: char) {
    '0' <= c <= '9'
  }

  /** The length of the run of decimal digits `s` starts with. */
  function DigitRun(s: string): (n: nat)
    ensures n <= |s|
  {
    if s != [] && IsDigit(s[0]) then 1 + DigitRun(s[1..]) else 0
  }

  /** The run `DigitRun` measures is all digits, and it stops at a non-digit or the end. */
  lemma {:induction false} DigitRunMeaning(s: string)
    ensures forall j :: 0 <= j < DigitRun(s) ==> IsDigit(s[j])
    ensures DigitRun(s) < |s| ==> !IsDigit(s[DigitRun(s)])
  {
    if s != [] && IsDigit(s[0]) {
      DigitRunMeaning(s[1..]);
      assert forall j :: 1 <= j < DigitRun(s) ==> s[j] == s[1..][j - 1];
    }
  }

  /** The value of one decimal digit; any other character counts as `0` (the numeric grammar never feeds one in). */
  function DigitValue(c: char): nat {
    if IsDigit(c) then c as int - '0' as int else 0
  }

  /** The value of a string of decimal digits (`0` for none). */
  function DigitsValue(d: string): nat {
    if d == [] then 0 else 10 * DigitsValue(d[..|d| - 1]) + DigitValue(d[|d| - 1])
  }

  function Pow10(n: nat): (r: nat)
    ensures r >= 1
  {
    if n == 0 then 1 else 10 * Pow10(n - 1)
  }

  /** `s` without its trailing PCRE whitespace. */
  function SkipSpacesRight(s: string): string {
    if s != [] && IsSpace(s[|s| - 1]) then SkipSpacesRight(s[..|s| - 1]) else s
  }

  /** What `SkipSpacesRight` cuts: the maximal run of whitespace at the end. */
  lemma {:induction false} SkipSpacesRightMeaning(s: string)
    ensures var r := SkipSpacesRight(s);
            |r| <= |s| && r == s[..|r|] && (r == [] || !IsSpace(r[|r| - 1]))
            && forall i :: |r| <= i < |s| ==> IsSpace(s[i])
  {
    if s != [] && IsSpace(s[|s| - 1]) {
      SkipSpacesRightMeaning(s[..|s| - 1]);
      var r := SkipSpacesRight(s);
      assert s[..|s| - 1][..|r|] == s[..|r|];
    }
  }

  /**
   * The exponent part of a numeric string, `[eE][+-]?[0-9]+`, which must
   * run to the end; `0` when there is none.
   */
  function ExponentPart(s: string): Option<int> {
    if s == [] then Some(0)
    else if s[0] != 'e' && s[0] != 'E' then None
    else
      var t := s[1..];
      var negative := t != [] && t[0] == '-';
      var digits := if t != [] && (t[0] == '+' || t[0] == '-') then t[1..] else t;
      var n := DigitRun(digits);
      if n == 0 || n < |digits| then None
      else
        var v: int := DigitsValue(digits);
        Some(if negative then -v else v)
  }

  /**
   * The unsigned part of a numeric string: digits with at most one `.` (at
   * least one digit in all) and an optional exponent, running to the end; its
   * value as `m * 10^p`.
   */
  function UnsignedValue(b: string): Option<(nat, int)> {
    var i := DigitRun(b);
    var afterInt := b[i..];
    var hasPoint := afterInt != [] && afterInt[0] == '.';
    var frac := if hasPoint then afterInt[1..][..DigitRun(afterInt[1..])] else [];
    var rest := if hasPoint then afterInt[1..][|frac|..] else afterInt;
    if i + |frac| == 0 then None
    else match ExponentPart(rest)
      case None => None
      case Some(e) => Some((DigitsValue(b[..i] + frac), e - |frac|))
  }

  /** An unsigned numeric part starts with a digit, or with `.` and a digit. */
  lemma UnsignedHasDigit(b: string)
    requires UnsignedValue(b).Some?
    ensures b != [] && (IsDigit(b[0]) || (|b| > 1 && IsDigit(b[1])))
  {
    var i := DigitRun(b);
    DigitRunMeaning(b);
    if i == 0 {
      assert b[i..] == b;
      DigitRunMeaning(b[1..]);
    }
  }

  /**
   * The value `m * 10^p` of a PHP numeric string: optional leading and
   * trailing whitespace around an optional sign and the unsigned part.
   * Absent for a string that is not numeric as a whole.
   */
  function NumericValue(s: string): Option<(int, int)> {
    if s != [] && IsSpace(s[0]) then NumericValue(s[1..])
    else
      var u := SkipSpacesRight(s);
      var signed := u != [] && (u[0] == '+' || u[0] == '-');
      match UnsignedValue(if signed then u[1..] else u)
      case None => None
      case Some((m, e)) =>
        var v: int := m;
        Some((if signed && u[0] == '-' then -v else v, e))
  }

  /** A string without a digit is not numeric. */
  lemma {:induction false} NoDigitNotNumeric(s: string)
    requires forall j :: 0 <= j < |s| ==> !IsDigit(s[j])
    ensures NumericValue(s).None?
  {
    if s != [] && IsSpace(s[0]) {
      assert forall j :: 0 <= j < |s| - 1 ==> s[1..][j] == s[j + 1];
      NoDigitNotNumeric(s[1..]);
    } else {
      var u := SkipSpacesRight(s);
      assert forall j :: 0 <= j < |u| ==> !IsDigit(u[j]) by {
        SkipSpacesRightMeaning(s);
        assert forall j :: 0 <= j < |u| ==> u[j] == s[j];
      }
      var signed := u != [] && (u[0] == '+' || u[0] == '-');
      var b := if signed then u[1..] else u;
      assert forall j :: 0 <= j < |b| ==> !IsDigit(b[j]);
      if UnsignedValue(b).Some? {
        UnsignedHasDigit(b);
        assert false;
      }
    }
  }

  /** `m1 * 10^p1 == m2 * 10^p2`, decided exactly. */
  predicate SameNumber(x: (int, int), y: (int, int)) {
    if x.1 <= y.1 then x.0 == y.0 * Pow10(y.1 - x.1) else x.0 * Pow10(x.1 - y.1) == y.0
  }

  /**
   * PHP 8's `$a == $b` for two strings: equal as strings, or both numeric
   * strings of the same value (so `"1" == "01"` and `"1" == "1.0"`).
   */
  predicate LooseEquals(a: string, b: string) {
    a == b
    || (NumericValue(a).Some? && NumericValue(b).Some? && SameNumber(NumericValue(a).value, NumericValue(b).value))
  }

  /** For a string without a digit, `==` is plain string equality. */
  lemma LooseEqualsPlain(a: string, b: string)
    requires forall j :: 0 <= j < |a| ==> !IsDigit(a[j])
    ensures LooseEquals(a, b) <==> a == b
  {
    NoDigitNotNumeric(a);
  }

  /** `"01" == "1"` holds in PHP 8: both are numeric strings of value one. */
  lemma LeadingZeroEquals(a: string, b: string)
    requires a == "01" && b == "1"
    ensures LooseEquals(a, b) && a != b
  {
    assert |a| != |b|;
    DigitsOne(a);
    DigitsOne(b);
    PlainDigits(a);
    PlainDigits(b);
    assert Pow10(0) == 1;
  }

  lemma DigitsOne(d: string)
    requires d == "01" || d == "1"
    ensures (forall j :: 0 <= j < |d| ==> IsDigit(d[j])) && d != [] && DigitsValue(d) == 1
  {
    SingleDigit('0');
    SingleDigit('1');
    if d == "01" {
      assert d[..1] == ['0'];
    } else {
      assert d == ['1'];
    }
  }

  lemma SingleDigit(c: char)
    requires IsDigit(c)
    ensures DigitsValue([c]) == c as int - '0' as int
  {
    assert [c][..0] == [];
  }

  /** A string of digits alone is numeric, with exponent 0 and its own digit value. */
  lemma PlainDigits(d: string)
    requires d != [] && forall j :: 0 <= j < |d| ==> IsDigit(d[j])
    ensures NumericValue(d) == Some((DigitsValue(d), 0))
  {
    assert !IsSpace(d[0]) && !IsSpace(d[|d| - 1]);
    assert SkipSpacesRight(d) == d;
    assert !(d[0] == '+' || d[0] == '-');
    UnsignedDigits(d);
  }

  lemma UnsignedDigits(d: string)
    requires d != [] && forall j :: 0 <= j < |d| ==> IsDigit(d[j])
    ensures UnsignedValue(d) == Some((DigitsValue(d), 0))
  {
    DigitRunAll(d);
    assert d[|d|..] == [];
    assert d[..|d|] + [] == d;
  }

  lemma DigitRunAll(d: string)
    requires forall j :: 0 <= j < |d| ==> IsDigit(d[j])
    ensures DigitRun(d) == |d|
  {
    if d != [] {
      DigitRunAll(d[1..]);
    }
  }
}
