/**
 The string primitives the validators, sanitizers and schema setters rely
 on: JavaScript whitespace and `trim`, ASCII lower-casing, the two ways
 the code base measures length, the character classes of its regular
 expressions, and the integer syntax of the `isInt` validator.
 */
module Text {
  import opened Foundation

  /** `\s` in a JavaScript regular expression; also exactly the set
      `String.prototype.trim` strips (WhiteSpace and LineTerminator). */
  predicate IsSpace(c: char) {
    || c == '\t' || c == '\n' || c == '\U{B}' || c == '\U{C}' || c == '\r' || c == ' '
    || c == '\U{A0}' || c == '\U{1680}' || ('\U{2000}' <= c <= '\U{200A}')
    || c == '\U{2028}' || c == '\U{2029}' || c == '\U{202F}' || c == '\U{205F}'
    || c == '\U{3000}' || c == '\U{FEFF}'
  }

  /** The characters a regular-expression `.` does not match. */
  predicate IsLineTerminator(c: char) {
    c == '\n' || c == '\r' || c == '\U{2028}' || c == '\U{2029}'
  }

  predicate IsLower(c: char) { 'a' <= c <= 'z' }
  predicate IsUpper(c: char) { 'A' <= c <= 'Z' }
  predicate IsLetter(c: char) { IsLower(c) || IsUpper(c) }
  /** `\d`: ASCII digits only. */
  predicate IsDigit(c: char) { '0' <= c <= '9' }

  /** Neither the first nor the last character is whitespace. */
  predicate Unpadded(s: string) {
    s == [] || (!IsSpace(s[0]) && !IsSpace(s[|s| - 1]))
  }

  predicate AllSpace(s: string) {
    forall i :: 0 <= i < |s| ==> IsSpace(s[i])
  }

  /** Drops the leading whitespace. */
  function TrimStart(s: string): (r: string)
    ensures |r| <= |s| && r == s[|s| - |r|..]
    ensures AllSpace(s[..|s| - |r|])
    ensures r == [] || !IsSpace(r[0])
  {
    if |s| > 0 && IsSpace(s[0]) then
      var t := s[1..];
      var r := TrimStart(t);
      assert r == s[|s| - |r|..] by { assert t[|t| - |r|..] == s[|s| - |r|..]; }
      assert AllSpace(s[..|s| - |r|]) by {
        forall i | 0 <= i < |s| - |r| ensures IsSpace(s[i]) {
          if i > 0 { assert s[i] == t[..|t| - |r|][i - 1]; }
        }
      }
      r
    else s
  }

  /** Drops the trailing whitespace. */
  function TrimEnd(s: string): (r: string)
    ensures |r| <= |s| && r == s[..|r|]
    ensures AllSpace(s[|r|..])
    ensures r == [] || !IsSpace(r[|r| - 1])
  {
    if |s| > 0 && IsSpace(s[|s| - 1]) then
      var t := s[..|s| - 1];
      var r := TrimEnd(t);
      assert r == s[..|r|] by { assert t[..|r|] == s[..|r|]; }
      assert AllSpace(s[|r|..]) by {
        forall i | |r| <= i < |s| ensures IsSpace(s[i]) {
          if i < |t| { assert s[i] == t[|r|..][i - |r|]; }
        }
      }
      r
    else s
  }

  /** `String.prototype.trim`, which is also what express-validator's
      `trim()` sanitizer and Mongoose's `trim: true` setter apply. */
  function Trim(s: string): (r: string)
    ensures Unpadded(r)
    ensures |r| <= |s|
  {
    TrimEnd(TrimStart(s))
  }

  /** What trimming keeps is a contiguous part of the input, and
      everything it drops before and after that part is whitespace. */
  lemma TrimStripsEdges(s: string)
    ensures exists i, j :: 0 <= i <= j <= |s| && Trim(s) == s[i..j] && AllSpace(s[..i]) && AllSpace(s[j..])
  {
    var m := TrimStart(s);
    var r := TrimEnd(m);
    var i := |s| - |m|;
    var j := i + |r|;
    assert m == s[i..];
    assert r == s[i..j] by {
      forall k | 0 <= k < |r| ensures r[k] == s[i..j][k] {
        assert r[k] == m[k];
      }
    }
    assert AllSpace(s[j..]) by {
      forall k | 0 <= k < |s| - j ensures IsSpace(s[j..][k]) {
        assert s[j..][k] == m[|r|..][k];
      }
    }
    assert Trim(s) == s[i..j] && AllSpace(s[..i]);
  }

  /** Trimming removes nothing from a string without edge whitespace,
      and only such strings are left unchanged. */
  lemma TrimFixesUnpadded(s: string)
    ensures Trim(s) == s <==> Unpadded(s)
  {
    if Unpadded(s) && s != [] {
      assert TrimStart(s) == s;
      assert TrimEnd(s) == s;
    }
  }

  lemma TrimIdempotent(s: string)
    ensures Trim(Trim(s)) == Trim(s)
  {
    TrimFixesUnpadded(Trim(s));
  }

  /** A string trims to nothing exactly when it is all whitespace. */
  lemma TrimEmptyIffBlank(s: string)
    ensures Trim(s) == [] <==> AllSpace(s)
  {
  }

  /** `trim` applied to a value that may be absent: a missing field or
      property stays missing, a present one is trimmed. */
  function TrimOpt(v: Option<string>): (r: Option<string>)
    ensures r.Some? <==> v.Some?
    ensures r.Some? ==> r.value == Trim(v.value)
  {
    if v.Some? then Some(Trim(v.value)) else None
  }

  /** Lower-cases ASCII letters and keeps every other character. */
  function LowerChar(c: char): (d: char)
    ensures !IsUpper(d)
    ensures IsSpace(d) <==> IsSpace(c)
    ensures IsUpper(c) || d == c
  {
    if IsUpper(c) then (c as int - 'A' as int + 'a' as int) as char else c
  }

  /** `String.prototype.toLowerCase` on the ASCII letters (the only case
      mapping the model knows). */
  function ToLower(s: string): (r: string)
    ensures |r| == |s|
    ensures forall i :: 0 <= i < |s| ==> r[i] == LowerChar(s[i])
  {
    seq(|s|, i requires 0 <= i < |s| => LowerChar(s[i]))
  }

  lemma ToLowerIdempotent(s: string)
    ensures ToLower(ToLower(s)) == ToLower(s)
  {
  }

  lemma {:induction false} TrimStartLowerCommute(s: string)
    ensures TrimStart(ToLower(s)) == ToLower(TrimStart(s))
    decreases |s|
  {
    if |s| > 0 && IsSpace(s[0]) {
      assert ToLower(s)[1..] == ToLower(s[1..]);
      TrimStartLowerCommute(s[1..]);
    }
  }

  lemma {:induction false} TrimEndLowerCommute(s: string)
    ensures TrimEnd(ToLower(s)) == ToLower(TrimEnd(s))
    decreases |s|
  {
    if |s| > 0 && IsSpace(s[|s| - 1]) {
      assert ToLower(s)[..|s| - 1] == ToLower(s[..|s| - 1]);
      TrimEndLowerCommute(s[..|s| - 1]);
    }
  }

  /** Lower-casing and trimming commute, so the order in which Mongoose
      runs the `lowercase` and `trim` setters does not matter. */
  lemma LowerTrimCommute(s: string)
    ensures Trim(ToLower(s)) == ToLower(Trim(s))
  {
    TrimStartLowerCommute(s);
    TrimEndLowerCommute(TrimStart(s));
  }

  /** JavaScript `.length`: the number of UTF-16 code units, the measure
      Mongoose's `minlength` uses. */
  function CodeUnits(s: string): (n: nat)
    ensures |s| <= n <= 2 * |s|
    ensures (forall i :: 0 <= i < |s| ==> s[i] as int < 0x1_0000) ==> n == |s|
  {
    if s == [] then 0
    else (if s[0] as int < 0x1_0000 then 1 else 2) + CodeUnits(s[1..])
  }

  predicate IsVariationSelector(c: char) {
    c == '\U{FE0E}' || c == '\U{FE0F}'
  }

  /** The length express-validator's `isLength` compares with its bounds:
      code points, not counting the emoji/text presentation selectors
      U+FE0E and U+FE0F. */
  function ValidatorLength(s: string): (n: nat)
    ensures n <= |s|
    ensures (forall i :: 0 <= i < |s| ==> !IsVariationSelector(s[i])) ==> n == |s|
  {
    if s == [] then 0
    else (if IsVariationSelector(s[0]) then 0 else 1) + ValidatorLength(s[1..])
  }

  predicate LengthBetween(s: string, min: nat, max: nat) {
    min <= ValidatorLength(s) <= max
  }

  /** The prefix of `s` before its first line terminator: the part a
      `^(?=.*X)` look-ahead can search. */
  function FirstLine(s: string): (r: string)
    ensures |r| <= |s| && r == s[..|r|]
    ensures forall i :: 0 <= i < |r| ==> !IsLineTerminator(r[i])
    ensures |r| < |s| ==> IsLineTerminator(s[|r|])
  {
    if s == [] || IsLineTerminator(s[0]) then []
    else
      var r := [s[0]] + FirstLine(s[1..]);
      assert r == s[..|r|];
      r
  }

  predicate HasChar(s: string, p: char -> bool) {
    exists i :: 0 <= i < |s| && p(s[i])
  }

  /** `/^(?=.*[a-z])(?=.*[A-Z])(?=.*\d)/`: a lower-case letter, an
      upper-case letter and a digit, each before the first line break. */
  predicate PasswordComposition(s: string) {
    var l := FirstLine(s);
    HasChar(l, IsLower) && HasChar(l, IsUpper) && HasChar(l, IsDigit)
  }

  /** `/^[a-zA-Z\s]+$/` */
  predicate NameCharacters(s: string) {
    |s| > 0 && forall i :: 0 <= i < |s| ==> IsLetter(s[i]) || IsSpace(s[i])
  }

  predicate IsTitleChar(c: char) {
    IsLetter(c) || IsDigit(c) || IsSpace(c)
    || c == '-' || c == '_' || c == '.' || c == ',' || c == '!' || c == '?' || c == '(' || c == ')'
  }

  /** `/^[a-zA-Z0-9\s\-_.,!?()]+$/` */
  predicate TitleCharacters(s: string) {
    |s| > 0 && forall i :: 0 <= i < |s| ==> IsTitleChar(s[i])
  }

  predicate AllDigits(s: string) {
    forall i :: 0 <= i < |s| ==> IsDigit(s[i])
  }

  /** The value of a run of decimal digits (leading zeros allowed). */
  function DigitsValue(s: string): nat
    requires AllDigits(s)
  {
    if s == [] then 0
    else DigitsValue(s[..|s| - 1]) * 10 + (s[|s| - 1] as int - '0' as int)
  }

  /** The integer `isInt` accepts: `/^[-+]?[0-9]+$/` (leading zeros are
      allowed by default), read as a number. */
  function ParseInt(s: string): (r: Option<int>)
    ensures r.Some? ==> s != [] && (AllDigits(s) || (|s| > 1 && (s[0] == '+' || s[0] == '-') && AllDigits(s[1..])))
  {
    if |s| > 1 && (s[0] == '+' || s[0] == '-') && AllDigits(s[1..]) then
      var v: int := if s[0] == '-' then -(DigitsValue(s[1..]) as int) else DigitsValue(s[1..]);
      Some(v)
    else if s != [] && AllDigits(s) then Some(DigitsValue(s))
    else None
  }

  /** `isInt({ min, max })` */
  predicate IsIntBetween(s: string, min: int, max: int) {
    var v := ParseInt(s);
    v.Some? && min <= v.value <= max
  }

  function DigitChar(d: nat): (c: char)
    requires d < 10
    ensures IsDigit(c)
  {
    ('0' as int + d) as char
  }

  /** The decimal rendering of a natural number (what a client sends). */
  function Decimal(n: nat): (s: string)
    ensures s != [] && AllDigits(s)
    decreases n
  {
    if n < 10 then [DigitChar(n)] else Decimal(n / 10) + [DigitChar(n % 10)]
  }

  lemma {:induction false} DecimalValue(n: nat)
    ensures DigitsValue(Decimal(n)) == n
    decreases n
  {
    if n >= 10 {
      var s := Decimal(n);
      assert s[..|s| - 1] == Decimal(n / 10);
      DecimalValue(n / 10);
    }
  }

  /** Reading back the decimal rendering of a number gives the number. */
  lemma ParseDecimal(n: nat)
    ensures ParseInt(Decimal(n)) == Some(n)
  {
    DecimalValue(n);
  }
}
