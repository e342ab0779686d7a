/**
 * The parts of java.lang.String that the feed store and its forms rely on:
 * null references, trim, isBlank, isEmpty, toLowerCase, equalsIgnoreCase,
 * contains and the decimal rendering of a long in a string concatenation.
 *
 * Java strings are sequences of UTF-16 code units; here a string is a
 * sequence of Unicode scalar values (`seq<char>`). Java's case mappings
 * come from the Unicode tables and, for String.toLowerCase(), the default
 * locale; they are a parameter here (CaseMapping).
 */
module JavaLang {

  /** A Java reference that may be null. */
  datatype Option<+T> = None | Some(value: T)

  /** The characters String.trim() removes: every code point up to U+0020. */
  predicate IsTrimmable(c: char) {
    c <= ' '
  }

  /** Character.isWhitespace: the space, line and paragraph separators except
      the three non-breaking spaces, plus U+0009..U+000D and U+001C..U+001F. */
  predicate IsWhitespace(c: char) {
    || c == ' '
    || ('\t' <= c <= '\r')
    || ('\U{001C}' <= c <= '\U{001F}')
    || c == '\U{1680}'
    || ('\U{2000}' <= c <= '\U{2006}')
    || ('\U{2008}' <= c <= '\U{200A}')
    || c == '\U{2028}'
    || c == '\U{2029}'
    || c == '\U{205F}'
    || c == '\U{3000}'
  }

  /** String.isBlank(): empty, or white space only. */
  predicate IsBlank(s: string) {
    forall i :: 0 <= i < |s| ==> IsWhitespace(s[i])
  }

  /** `s == null || s.isBlank()`, the test every form helper performs. */
  predicate IsNullOrBlank(s: Option<string>) {
    s.None? || IsBlank(s.value)
  }

  /** The index of the first character String.trim() keeps. */
  function TrimStart(s: string): (i: nat)
    ensures i <= |s|
    ensures forall k :: 0 <= k < i ==> IsTrimmable(s[k])
    ensures i < |s| ==> !IsTrimmable(s[i])
  {
    if s == [] || !IsTrimmable(s[0]) then 0 else 1 + TrimStart(s[1..])
  }

  /** The length of `s` once its trailing trimmable characters are dropped. */
  function TrimEnd(s: string): (j: nat)
    ensures j <= |s|
    ensures forall k :: j <= k < |s| ==> IsTrimmable(s[k])
    ensures 0 < j ==> !IsTrimmable(s[j - 1])
  {
    if s == [] || !IsTrimmable(s[|s| - 1]) then |s| else TrimEnd(s[..|s| - 1])
  }

  /** String.trim(): the slice left after dropping trimmable characters at
      both ends. */
  function Trim(s: string): (r: string)
    ensures |r| <= |s|
    ensures r == [] <==> forall k :: 0 <= k < |s| ==> IsTrimmable(s[k])
    ensures r != [] ==> !IsTrimmable(r[0]) && !IsTrimmable(r[|r| - 1])
    ensures TrimStart(s) + |r| <= |s| && r == s[TrimStart(s)..TrimStart(s) + |r|]
    ensures forall k :: TrimStart(s) + |r| <= k < |s| ==> IsTrimmable(s[k])
  {
    var t := s[TrimStart(s)..];
    assert t != [] ==> !IsTrimmable(t[0]);
    t[..TrimEnd(t)]
  }

  /** `s == null ? "" : s.trim()`, how the in-memory store reads its inputs. */
  function TrimOrEmpty(s: Option<string>): string {
    if s.None? then "" else Trim(s.value)
  }

  /** Applies a character mapping position by position. */
  function MapChars(s: string, f: char -> char): (r: string)
    ensures |r| == |s|
    ensures forall i :: 0 <= i < |s| ==> r[i] == f(s[i])
  {
    seq(|s|, i requires 0 <= i < |s| => f(s[i]))
  }

  /** Java's case mappings: Character.toUpperCase and Character.toLowerCase
      on single characters, and String.toLowerCase() on whole strings, which
      follows the default locale and may change the length (U+0130 lowers
      to two characters). */
  datatype CaseMapping = CaseMapping(
    upper: char -> char,
    lower: char -> char,
    lowerString: string -> string)

  /** String.toLowerCase(). */
  function ToLower(s: string, cases: CaseMapping): string {
    cases.lowerString(s)
  }

  /** The per-character test of String.equalsIgnoreCase: equal, or equal
      once upper-cased, or equal once upper-cased and then lower-cased. */
  predicate CharsEqualIgnoreCase(c: char, d: char, cases: CaseMapping) {
    || c == d
    || cases.upper(c) == cases.upper(d)
    || cases.lower(cases.upper(c)) == cases.lower(cases.upper(d))
  }

  /** String.equalsIgnoreCase: the same length, and every position passes
      the per-character test. */
  predicate EqualsIgnoreCase(a: string, b: string, cases: CaseMapping) {
    |a| == |b| && forall i :: 0 <= i < |a| ==> CharsEqualIgnoreCase(a[i], b[i], cases)
  }

  /** String.contains: `k` occurs in `s` at some position. */
  predicate Contains(s: string, k: string) {
    exists i :: 0 <= i <= |s| && k <= s[i..]
  }

  /** The text Java's string concatenation uses for a reference: "null" for
      a null one. */
  function ValueOf(s: Option<string>): string {
    if s.None? then "null" else s.value
  }

  /** The decimal digits of a non-negative long, as string concatenation
      renders it. */
  function DecimalString(n: nat): (r: string)
    ensures r != []
    ensures forall i :: 0 <= i < |r| ==> '0' <= r[i] <= '9'
    ensures n >= 10 ==> r[0] != '0'
  {
    var digit := ('0' as int + n % 10) as char;
    if n < 10 then [digit] else DecimalString(n / 10) + [digit]
  }

  /** Integer.toString: the digits, after a minus sign for a negative
      value. */
  function IntString(n: int): (r: string)
    ensures r != []
    ensures n >= 0 ==> r == DecimalString(n)
    ensures n < 0 ==> r == "-" + DecimalString(-n)
  {
    if n < 0 then "-" + DecimalString(-n) else DecimalString(n)
  }

  /** Different values have different decimal renderings. */
  lemma {:induction false} DecimalStringInjective(a: nat, b: nat)
    requires DecimalString(a) == DecimalString(b)
    ensures a == b
    decreases a
  {
    var s := DecimalString(a);
    assert s[|s| - 1] == ('0' as int + a % 10) as char;
    assert s[|s| - 1] == ('0' as int + b % 10) as char;
    if a >= 10 && b >= 10 {
      assert DecimalString(a / 10) == s[..|s| - 1];
      assert DecimalString(b / 10) == s[..|s| - 1];
      DecimalStringInjective(a / 10, b / 10);
    }
  }

  /** Two ints have the same rendering exactly when they are equal. */
  lemma IntStringInjective(a: int, b: int)
    ensures IntString(a) == IntString(b) <==> a == b
  {
    var s := IntString(a);
    if s == IntString(b) {
      if a < 0 && b < 0 {
        assert DecimalString(-a) == s[1..] == DecimalString(-b);
        DecimalStringInjective(-a, -b);
      } else if a >= 0 && b >= 0 {
        DecimalStringInjective(a, b);
      }
    }
  }

  /** Trimming is idempotent: a trimmed string has nothing left to trim. */
  lemma {:induction false} TrimIdempotent(s: string)
    ensures Trim(Trim(s)) == Trim(s)
  {
    var r := Trim(s);
    assert TrimStart(r) == 0;
    assert TrimEnd(r[0..]) == |r| by {
      assert r[0..] == r;
    }
  }

  /** String.isBlank and String.trim disagree in both directions: a NUL is
      not white space yet trim removes it, and an ideographic space is white
      space yet trim keeps it. */
  lemma TrimAndBlankDisagree()
    ensures !IsBlank("\U{0000}") && Trim("\U{0000}") == ""
    ensures IsBlank("\U{3000}") && Trim("\U{3000}") == "\U{3000}"
  {
    assert !IsWhitespace("\U{0000}"[0]);
  }
}
