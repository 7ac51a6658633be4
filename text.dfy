/** The pieces of .NET string and number handling that the view-models rely on:
    char.IsWhiteSpace, string.IsNullOrWhiteSpace, string.Trim, ordinal case-insensitive
    comparison, int.TryParse and int.ToString. */
module Text {
  import opened Wrappers

  /** The C# `int`: a 32-bit two's-complement integer. */
  newtype Int32 = x: int | -0x8000_0000 <= x <= 0x7FFF_FFFF

  /** char.IsWhiteSpace: the Unicode space, line and paragraph separators, the controls
      U+0009..U+000D and U+0085. */
  predicate IsWhiteSpace(c: char) {
    var n := c as int;
    n == 0x20 || (0x09 <= n <= 0x0D) || n == 0x85 || n == 0xA0 || n == 0x1680
    || (0x2000 <= n <= 0x200A) || n == 0x2028 || n == 0x2029 || n == 0x202F
    || n == 0x205F || n == 0x3000
  }

  /** The two notions of white space the program trims by: char.IsWhiteSpace, and the
      white space int.TryParse skips. */
  datatype Whiteness = UnicodeWhite | NumberWhite

  predicate IsWhite(w: Whiteness, c: char) {
    match w
    case UnicodeWhite => IsWhiteSpace(c)
    case NumberWhite => IsNumberWhite(c)
  }

  predicate AllWhite(s: string, w: Whiteness) {
    forall i :: 0 <= i < |s| ==> IsWhite(w, s[i])
  }

  /** string.IsNullOrWhiteSpace of a string that is not null. */
  predicate IsBlank(s: string) {
    AllWhite(s, UnicodeWhite)
  }

  /** string.IsNullOrWhiteSpace of a nullable string. */
  predicate IsNullOrWhiteSpace(s: Option<string>) {
    s.None? || IsBlank(s.value)
  }

  /** string.IsNullOrEmpty of a nullable string. */
  predicate IsNullOrEmpty(s: Option<string>) {
    s.None? || s.value == ""
  }

  /** Drops the leading white characters. */
  function TrimStartWhere(s: string, w: Whiteness): string
    decreases |s|
  {
    if s != [] && IsWhite(w, s[0]) then TrimStartWhere(s[1..], w) else s
  }

  /** Drops the trailing white characters. */
  function TrimEndWhere(s: string, w: Whiteness): string
    decreases |s|
  {
    if s != [] && IsWhite(w, s[|s| - 1]) then TrimEndWhere(s[..|s| - 1], w) else s
  }

  /** What TrimStartWhere removes is a white prefix, and what it keeps starts with a
      character that is not white. */
  lemma {:induction false} TrimStartFacts(s: string, w: Whiteness)
    ensures var r := TrimStartWhere(s, w);
      && |r| <= |s| && r == s[|s| - |r|..]
      && AllWhite(s[..|s| - |r|], w)
      && (r == [] || !IsWhite(w, r[0]))
    decreases |s|
  {
    if s != [] && IsWhite(w, s[0]) {
      TrimStartFacts(s[1..], w);
      var r := TrimStartWhere(s[1..], w);
      assert s[..|s| - |r|] == [s[0]] + s[1..][..|s| - 1 - |r|];
    }
  }

  /** What TrimEndWhere removes is a white suffix, and what it keeps ends with a character
      that is not white. */
  lemma {:induction false} TrimEndFacts(s: string, w: Whiteness)
    ensures var r := TrimEndWhere(s, w);
      && |r| <= |s| && r == s[..|r|]
      && AllWhite(s[|r|..], w)
      && (r == [] || !IsWhite(w, r[|r| - 1]))
    decreases |s|
  {
    if s != [] && IsWhite(w, s[|s| - 1]) {
      TrimEndFacts(s[..|s| - 1], w);
      var r := TrimEndWhere(s[..|s| - 1], w);
      assert s[|r|..] == s[..|s| - 1][|r|..] + [s[|s| - 1]];
    }
  }

  function TrimWhere(s: string, w: Whiteness): string {
    TrimEndWhere(TrimStartWhere(s, w), w)
  }

  /** string.Trim(): removes leading and trailing white space. */
  function Trim(s: string): string {
    TrimWhere(s, UnicodeWhite)
  }

  /** The trimmed string is empty exactly when the string is blank, so the checks
      `IsNullOrWhiteSpace(s)` and `Trim(s) == ""` agree. */
  lemma {:induction false} TrimEmptyIffBlank(s: string)
    ensures Trim(s) == "" <==> IsBlank(s)
  {
    var a := TrimStartWhere(s, UnicodeWhite);
    var b := TrimEndWhere(a, UnicodeWhite);
    TrimStartFacts(s, UnicodeWhite);
    TrimEndFacts(a, UnicodeWhite);
    assert s == s[..|s| - |a|] + a;
    if b == "" {
      assert a[|b|..] == a;
      assert a == [];
      assert s == s[..|s| - |a|];
    } else {
      assert a != [] && !IsWhiteSpace(a[0]);
      assert s[|s| - |a|] == a[0];
    }
  }

  /** A trimmed string neither starts nor ends with white space. */
  lemma TrimShape(s: string)
    ensures Trim(s) == [] || (!IsWhiteSpace(Trim(s)[0]) && !IsWhiteSpace(Trim(s)[|Trim(s)| - 1]))
  {
    var a := TrimStartWhere(s, UnicodeWhite);
    var b := TrimEndWhere(a, UnicodeWhite);
    TrimStartFacts(s, UnicodeWhite);
    TrimEndFacts(a, UnicodeWhite);
    if b != [] {
      assert b[0] == a[0];
    }
  }

  /** Trimming leaves a string alone when neither end is white. */
  lemma TrimWhereNoOp(s: string, w: Whiteness)
    requires s != [] && !IsWhite(w, s[0]) && !IsWhite(w, s[|s| - 1])
    ensures TrimWhere(s, w) == s
  {
    assert TrimStartWhere(s, w) == s;
  }

  /** A string that neither starts nor ends with white space is its own trim, and is not blank. */
  lemma TrimOfTrimmed(s: string)
    requires s != [] && !IsWhiteSpace(s[0]) && !IsWhiteSpace(s[|s| - 1])
    ensures Trim(s) == s && !IsBlank(s)
  {
    TrimWhereNoOp(s, UnicodeWhite);
    assert !IsWhite(UnicodeWhite, s[0]);
  }

  /** A trimmed string that is not blank has no white space at either end. */
  lemma TrimNonBlank(s: string)
    requires !IsBlank(Trim(s))
    ensures var t := Trim(s); t != [] && !IsWhiteSpace(t[0]) && !IsWhiteSpace(t[|t| - 1])
  {
    TrimShape(s);
  }

  /** Upper-casing of ASCII letters; every other character is left as it is. */
  function ToUpperAscii(c: char): char {
    if 'a' <= c <= 'z' then (c as int - 32) as char else c
  }

  /** StringComparison.OrdinalIgnoreCase restricted to ASCII case mapping. */
  predicate EqualsIgnoreCase(a: string, b: string) {
    |a| == |b| && forall i :: 0 <= i < |a| ==> ToUpperAscii(a[i]) == ToUpperAscii(b[i])
  }

  /** `names.Contains(s, StringComparer.OrdinalIgnoreCase)`. */
  predicate ContainsIgnoreCase(names: seq<string>, s: string) {
    exists i :: 0 <= i < |names| && EqualsIgnoreCase(names[i], s)
  }

  /** Membership ignoring case cannot tell apart two names that differ only in case. */
  lemma ContainsRespectsCase(names: seq<string>, s: string, t: string)
    requires EqualsIgnoreCase(s, t)
    ensures ContainsIgnoreCase(names, s) <==> ContainsIgnoreCase(names, t)
  {
    if ContainsIgnoreCase(names, s) {
      var i :| 0 <= i < |names| && EqualsIgnoreCase(names[i], s);
      assert EqualsIgnoreCase(names[i], t);
    }
    if ContainsIgnoreCase(names, t) {
      var i :| 0 <= i < |names| && EqualsIgnoreCase(names[i], t);
      assert EqualsIgnoreCase(names[i], s);
    }
  }

  /** The white space that NumberStyles.Integer allows around a number. */
  predicate IsNumberWhite(c: char) {
    c == ' ' || ('\t' <= c <= '\r')
  }

  predicate IsDigit(c: char) {
    '0' <= c <= '9'
  }

  function DigitValue(c: char): nat
    requires IsDigit(c)
  {
    (c as int) - ('0' as int)
  }

  predicate AllDigits(s: string) {
    forall i :: 0 <= i < |s| ==> IsDigit(s[i])
  }

  function DigitsValue(s: string): nat
    requires AllDigits(s)
    decreases |s|
  {
    if s == [] then 0 else DigitsValue(s[..|s| - 1]) * 10 + DigitValue(s[|s| - 1])
  }

  /** int.TryParse(s, out v) with NumberStyles.Integer, taking "-" and "+" as the signs:
      optional white space, an optional sign, one or more decimal digits, optional white
      space; `None` when the text has another shape or the value does not fit 32 bits. */
  function ParseInt32(s: string): Option<Int32> {
    var t := TrimWhere(s, NumberWhite);
    var negative := |t| > 0 && t[0] == '-';
    var digits := if |t| > 0 && (t[0] == '-' || t[0] == '+') then t[1..] else t;
    if digits == [] || !AllDigits(digits) then None
    else
      var v := if negative then -(DigitsValue(digits) as int) else DigitsValue(digits) as int;
      if -0x8000_0000 <= v <= 0x7FFF_FFFF then Some(v as Int32) else None
  }

  function DigitChar(d: nat): (c: char)
    requires d < 10
    ensures IsDigit(c) && DigitValue(c) == d
  {
    ('0' as int + d) as char
  }

  /** The decimal digits of `n`, most significant first, without leading zeros. */
  function NatToString(n: nat): (s: string)
    ensures |s| > 0 && AllDigits(s)
    decreases n
  {
    if n < 10 then [DigitChar(n)] else NatToString(n / 10) + [DigitChar(n % 10)]
  }

  /** int.ToString() in the invariant culture. */
  function IntToString(n: int): string {
    if n < 0 then "-" + NatToString(-n) else NatToString(n)
  }

  lemma {:induction false} DigitsValueOfNatToString(n: nat)
    ensures DigitsValue(NatToString(n)) == n
    decreases n
  {
    var s := NatToString(n);
    if n >= 10 {
      DigitsValueOfNatToString(n / 10);
      assert s[..|s| - 1] == NatToString(n / 10);
    }
  }

  /** Formatting an int and parsing the text back gives the same int. */
  lemma ParseIntToString(n: Int32)
    ensures ParseInt32(IntToString(n as int)) == Some(n)
  {
    var s := IntToString(n as int);
    TrimWhereNoOp(s, NumberWhite);
    if n < 0 {
      var d := NatToString(-(n as int));
      assert s == "-" + d && s[1..] == d;
      DigitsValueOfNatToString(-(n as int));
    } else {
      var d := NatToString(n as int);
      assert s == d && !(d[0] == '-' || d[0] == '+');
      DigitsValueOfNatToString(n as int);
    }
  }

  /** string.Join(sep, parts). */
  function Join(sep: string, parts: seq<string>): string
    decreases |parts|
  {
    if |parts| == 0 then "" else if |parts| == 1 then parts[0] else parts[0] + sep + Join(sep, parts[1..])
  }
}
