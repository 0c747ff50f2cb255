/**
 Strings as sequences of characters: the optional-value wrapper, substring
 occurrence, JavaScript line terminators, and the decimal rendering of a
 natural number that a JavaScript template literal `${index}` produces.
 */
module Text {

  datatype Option<+T> = None | Some(value: T)

  /** True when `pat` occurs in `s` starting at position `i`. */
  predicate OccursAt(pat: string, s: string, i: int) {
    0 <= i && i + |pat| <= |s| && s[i..i + |pat|] == pat
  }

  predicate EndsWith(s: string, suffix: string) {
    |suffix| <= |s| && s[|s| - |suffix|..] == suffix
  }

  /** The characters that `.` in a JavaScript regular expression does not match. */
  predicate IsLineTerminator(c: char) {
    c == '\n' || c == '\r' || c == '\U{2028}' || c == '\U{2029}'
  }

  predicate SingleLine(s: string) {
    forall k :: 0 <= k < |s| ==> !IsLineTerminator(s[k])
  }

  predicate IsDigit(c: char) {
    '0' <= c <= '9'
  }

  predicate AllDigits(s: string) {
    forall k :: 0 <= k < |s| ==> IsDigit(s[k])
  }

  /** The form `Number.prototype.toString()` gives a non-negative integer:
      at least one digit and no leading zero. */
  predicate IsCanonicalDecimal(s: string) {
    |s| > 0 && AllDigits(s) && (|s| > 1 ==> s[0] != '0')
  }

  function DigitChar(d: nat): (c: char)
    requires d < 10
    ensures IsDigit(c)
    ensures (c == '0') == (d == 0)
  {
    ('0' as int + d) as char
  }

  function DigitValue(c: char): (d: nat)
    requires IsDigit(c)
    ensures d < 10
    ensures DigitChar(d) == c
  {
    c as int - '0' as int
  }

  /** Decimal rendering of `n`, most significant digit first. */
  function Decimal(n: nat): (r: string)
    ensures IsCanonicalDecimal(r)
    ensures n >= 10 ==> |r| >= 2
    decreases n
  {
    if n < 10 then [DigitChar(n)] else Decimal(n / 10) + [DigitChar(n % 10)]
  }

  /** Value of a digit string, most significant digit first. */
  function DigitsValue(s: string): nat
    requires AllDigits(s)
  {
    if |s| == 0 then 0 else DigitsValue(s[..|s| - 1]) * 10 + DigitValue(s[|s| - 1])
  }

  /** The inverse of `Decimal`: accepts exactly the canonical decimal strings. */
  function ParseDecimal(s: string): Option<nat> {
    if IsCanonicalDecimal(s) then Some(DigitsValue(s)) else None
  }

  lemma {:induction false} DigitsValueOfDecimal(n: nat)
    ensures DigitsValue(Decimal(n)) == n
    decreases n
  {
    if n >= 10 {
      var p := Decimal(n / 10);
      var r := Decimal(n);
      assert r == p + [DigitChar(n % 10)];
      assert r[..|r| - 1] == p;
      DigitsValueOfDecimal(n / 10);
    }
  }

  /** Parsing undoes rendering. */
  lemma DecimalRoundTrip(n: nat)
    ensures ParseDecimal(Decimal(n)) == Some(n)
  {
    DigitsValueOfDecimal(n);
  }

  lemma {:induction false} LeadingNonZeroIsPositive(s: string)
    requires |s| > 0 && AllDigits(s) && s[0] != '0'
    ensures DigitsValue(s) >= 1
    decreases |s|
  {
    if |s| > 1 {
      var p := s[..|s| - 1];
      assert p[0] == s[0];
      LeadingNonZeroIsPositive(p);
    } else {
      assert DigitChar(DigitValue(s[0])) == s[0];
    }
  }

  /** Rendering undoes parsing: every string `ParseDecimal` accepts is the
      rendering of its value, so the canonical form is unique. */
  lemma {:induction false} ParseDecimalRoundTrip(s: string, n: nat)
    requires ParseDecimal(s) == Some(n)
    ensures Decimal(n) == s
    decreases |s|
  {
    if |s| > 1 {
      var p := s[..|s| - 1];
      var d := DigitValue(s[|s| - 1]);
      assert p[0] == s[0];
      LeadingNonZeroIsPositive(p);
      assert n == DigitsValue(p) * 10 + d;
      assert n / 10 == DigitsValue(p) && n % 10 == d;
      ParseDecimalRoundTrip(p, DigitsValue(p));
      assert s == p + [s[|s| - 1]];
    }
  }

  /** Distinct numbers render to distinct strings. */
  lemma DecimalInjective(a: nat, b: nat)
    requires Decimal(a) == Decimal(b)
    ensures a == b
  {
    DecimalRoundTrip(a);
    DecimalRoundTrip(b);
  }
}
