/**
 * String semantics the components rely on: `trim`, ASCII `toLowerCase`,
 * `includes`, and the character classes of the validation regexes.
 */
module Text {

  /** White space as `String.prototype.trim` and the regex class `\s` see it,
      restricted to ASCII white space and the no-break space. */
  predicate IsSpace(c: char) {
    c == ' ' || c == '\t' || c == '\n' || c == '\r' || c == '\U{B}' || c == '\U{C}' || c == '\U{A0}'
  }

  /** Drops the leading white space: the result is the suffix that starts
      at the first non-space character. */
  function TrimStart(s: string): (r: string)
    ensures |r| <= |s| && r == s[|s| - |r|..]
    ensures forall i :: 0 <= i < |s| - |r| ==> IsSpace(s[i])
    ensures r == [] || !IsSpace(r[0])
  {
    if s != [] && IsSpace(s[0]) then TrimStart(s[1..]) else s
  }

  /** Drops the trailing white space: the result is the prefix that ends
      at the last non-space character. */
  function TrimEnd(s: string): (r: string)
    ensures |r| <= |s| && r == s[..|r|]
    ensures forall i :: |r| <= i < |s| ==> IsSpace(s[i])
    ensures r == [] || !IsSpace(r[|r| - 1])
  {
    if s != [] && IsSpace(s[|s| - 1]) then TrimEnd(s[..|s| - 1]) else s
  }

  function Trim(s: string): string {
    TrimEnd(TrimStart(s))
  }

  /** `!s.trim()` (equivalently `s.trim() === ''`). */
  predicate IsBlank(s: string) {
    Trim(s) == []
  }

  /** A string is blank exactly when every character in it is white space. */
  lemma BlankIffAllSpace(s: string)
    ensures IsBlank(s) <==> forall i :: 0 <= i < |s| ==> IsSpace(s[i])
  {
  }

  function LowerChar(c: char): char {
    if 'A' <= c <= 'Z' then (c as int + 32) as char else c
  }

  /** ASCII `toLowerCase`. */
  function ToLower(s: string): string {
    seq(|s|, i requires 0 <= i < |s| => LowerChar(s[i]))
  }

  predicate OccursAt(s: string, t: string, i: int) {
    0 <= i <= |s| - |t| && s[i..i + |t|] == t
  }

  /** `s.includes(t)`: `t` occurs in `s` at some position. */
  predicate Includes(s: string, t: string) {
    exists i | 0 <= i <= |s| :: OccursAt(s, t, i)
  }

  /** `s.toLowerCase().includes(t.toLowerCase())`. */
  predicate ContainsIgnoreCase(s: string, t: string) {
    Includes(ToLower(s), ToLower(t))
  }

  predicate IsDigit(c: char) {
    '0' <= c <= '9'
  }

  /** The regex `/^\d{10}$/`. */
  predicate IsTenDigits(s: string) {
    |s| == 10 && forall i :: 0 <= i < |s| ==> IsDigit(s[i])
  }

  /** The unanchored regex `/\S+@\S+\.\S+/`: somewhere in `s` a non-space
      character, `@`, a run of non-space characters, `.`, and a non-space
      character follow one another. */
  predicate HasEmailShape(s: string) {
    exists at, dot | 0 <= at < dot < |s| :: EmailAt(s, at, dot)
  }

  /** The shape of `HasEmailShape` with its `@` at `at` and its `.` at `dot`. */
  predicate EmailAt(s: string, at: int, dot: int) {
    && 1 <= at && at + 2 <= dot && dot + 1 < |s|
    && s[at] == '@' && s[dot] == '.'
    && !IsSpace(s[at - 1]) && !IsSpace(s[dot + 1])
    && forall k :: at < k < dot ==> !IsSpace(s[k])
  }

  /** `a.localeCompare(b) <= 0`, read as lexicographic order on characters. */
  predicate LexLe(a: string, b: string) {
    if a == [] then true
    else if b == [] then false
    else if a[0] != b[0] then a[0] < b[0]
    else LexLe(a[1..], b[1..])
  }

  lemma {:induction false} LexLeTotal(a: string, b: string)
    ensures LexLe(a, b) || LexLe(b, a)
  {
    if a != [] && b != [] && a[0] == b[0] {
      LexLeTotal(a[1..], b[1..]);
    }
  }

  lemma {:induction false} LexLeTrans(a: string, b: string, c: string)
    requires LexLe(a, b) && LexLe(b, c)
    ensures LexLe(a, c)
  {
    if a != [] && b != [] && c != [] && a[0] == b[0] && b[0] == c[0] {
      LexLeTrans(a[1..], b[1..], c[1..]);
    }
  }

  /** The longest prefix of decimal digits. */
  function DigitPrefix(s: string): (r: string)
    ensures |r| <= |s| && r == s[..|r|]
    ensures forall i :: 0 <= i < |r| ==> IsDigit(r[i])
    ensures |r| == |s| || !IsDigit(s[|r|])
  {
    if s != [] && IsDigit(s[0]) then
      assert s == [s[0]] + s[1..];
      [s[0]] + DigitPrefix(s[1..])
    else []
  }

  /** The value of a string of decimal digits. */
  function DecimalValue(d: string): nat {
    if d == [] then 0 else 10 * DecimalValue(d[..|d| - 1]) + ((d[|d| - 1] as int - '0' as int) % 10)
  }

  /** `parseInt(s) || 0` in base 10: leading white space, an optional sign,
      then the longest run of digits; no digits gives 0. */
  function ParseIntOrZero(s: string): int {
    var t := TrimStart(s);
    var signed := t != [] && (t[0] == '-' || t[0] == '+');
    var d := DigitPrefix(if signed then t[1..] else t);
    if signed && t[0] == '-' then 0 - DecimalValue(d) as int else DecimalValue(d)
  }

  /** A string of decimal digits parses to its value. */
  lemma ParseIntOfDigits(d: string)
    requires d != [] && forall i :: 0 <= i < |d| ==> IsDigit(d[i])
    ensures ParseIntOrZero(d) == DecimalValue(d)
  {
    assert TrimStart(d) == d by {
      assert !IsSpace(d[0]);
    }
    assert DigitPrefix(d) == d;
  }
}
