/**
 * Integers as text: JavaScript's `String(n)` for an integer, and the decimal
 * reading `parseInt(s)` performs on the counter elements.
 */
module NumberText {
  import opened Wrappers

  predicate IsDigit(c: char)
  {
    '0' <= c <= '9'
  }

  function DigitValue(c: char): nat
    requires IsDigit(c)
  {
    (c - '0') as nat
  }

  function DigitChar(d: nat): char
    requires d < 10
  {
    '0' + d as char
  }

  /** The JavaScript white space and line terminators `parseInt` skips. */
  predicate IsJsSpace(c: char)
  {
    c == '\t' || c == '\n' || c == '\U{B}' || c == '\U{C}' || c == '\r' || c == ' ' ||
    c == '\U{A0}' || c == '\U{1680}' || ('\U{2000}' <= c <= '\U{200A}') ||
    c == '\U{2028}' || c == '\U{2029}' || c == '\U{202F}' || c == '\U{205F}' ||
    c == '\U{3000}' || c == '\U{FEFF}'
  }

  /** Decimal digits of `n`, most significant first, without leading zeros. */
  function NatText(n: nat): (s: string)
    ensures |s| > 0 && forall i :: 0 <= i < |s| ==> IsDigit(s[i])
  {
    if n < 10 then [DigitChar(n)] else NatText(n / 10) + [DigitChar(n % 10)]
  }

  /** `String(n)` for an integer `n`. */
  function IntText(n: int): (s: string)
    ensures |s| > 0 && (s[0] == '-' <==> n < 0)
    ensures forall i :: (if n < 0 then 1 else 0) <= i < |s| ==> IsDigit(s[i])
  {
    if n < 0 then "-" + NatText(-n) else NatText(n)
  }

  /** The value of a string of decimal digits. */
  function DigitsValue(s: string): nat
    requires forall i :: 0 <= i < |s| ==> IsDigit(s[i])
  {
    if s == [] then 0 else DigitsValue(s[..|s| - 1]) * 10 + DigitValue(s[|s| - 1])
  }

  /** Length of the longest prefix of decimal digits. */
  function LeadingDigits(s: string): (k: nat)
    ensures k <= |s| && forall i :: 0 <= i < k ==> IsDigit(s[i])
  {
    if s != [] && IsDigit(s[0]) then 1 + LeadingDigits(s[1..]) else 0
  }

  function SkipSpace(s: string): (r: string)
    ensures r == [] || !IsJsSpace(r[0])
  {
    if s != [] && IsJsSpace(s[0]) then SkipSpace(s[1..]) else s
  }

  /** Skipping white space leaves a suffix of the text. */
  lemma {:induction false} SkipSpaceSuffix(s: string)
    ensures |SkipSpace(s)| <= |s| && SkipSpace(s) == s[|s| - |SkipSpace(s)|..]
  {
    if s != [] && IsJsSpace(s[0]) {
      SkipSpaceSuffix(s[1..]);
    }
  }

  /**
   * `parseInt(s)` in base ten: leading white space, an optional sign, then as
   * many decimal digits as there are; `None` stands for NaN (no digit).
   */
  function ParseInt(s: string): (r: Option<int>)
    ensures r.Some? ==> HasDigit(s)
  {
    var t := SkipSpace(s);
    var r := ParseSigned(t);
    assert r.Some? ==> HasDigit(s) by {
      if r.Some? {
        SkipSpaceSuffix(s);
        var j :| 0 <= j < |t| && IsDigit(t[j]);
        assert s[|s| - |t| + j] == t[j];
      }
    }
    r
  }

  /** Some character of `s` is a decimal digit; without one, `parseInt` gives NaN. */
  predicate HasDigit(s: string)
  {
    exists i :: 0 <= i < |s| && IsDigit(s[i])
  }

  /** What `parseInt` reads once the white space is skipped: an optional sign, then the leading digits. */
  function ParseSigned(t: string): (r: Option<int>)
    ensures r.Some? ==> HasDigit(t)
  {
    var negative := t != [] && t[0] == '-';
    var u := if t != [] && (t[0] == '-' || t[0] == '+') then t[1..] else t;
    var k := LeadingDigits(u);
    if k == 0 then None
    else
      assert IsDigit(u[0]);
      assert u == t || u[0] == t[1];
      var v: int := DigitsValue(u[..k]);
      Some(if negative then -v else v)
  }

  lemma {:induction false} NatTextValue(n: nat)
    ensures DigitsValue(NatText(n)) == n
  {
    if n >= 10 {
      NatTextValue(n / 10);
      var s := NatText(n);
      assert s[..|s| - 1] == NatText(n / 10);
    }
  }

  lemma {:induction false} LeadingDigitsOfDigits(d: string, rest: string)
    requires forall i :: 0 <= i < |d| ==> IsDigit(d[i])
    requires rest == [] || !IsDigit(rest[0])
    ensures LeadingDigits(d + rest) == |d|
  {
    if d != [] {
      assert (d + rest)[1..] == d[1..] + rest;
      LeadingDigitsOfDigits(d[1..], rest);
    }
  }

  /** Reading `digits` followed by a non-digit suffix gives the digits' value. */
  lemma ParseDigitsPrefix(digits: string, suffix: string)
    requires |digits| > 0 && forall i :: 0 <= i < |digits| ==> IsDigit(digits[i])
    requires suffix == [] || !IsDigit(suffix[0])
    ensures LeadingDigits(digits + suffix) == |digits|
    ensures (digits + suffix)[..|digits|] == digits
  {
    LeadingDigitsOfDigits(digits, suffix);
    assert (digits + suffix)[..|digits|] == digits;
  }

  /** A string that starts with a digit or a minus sign has no leading white space to skip. */
  lemma SkipSpaceNone(s: string)
    requires s != [] && (IsDigit(s[0]) || s[0] == '-')
    ensures SkipSpace(s) == s
  {
    assert !IsJsSpace(s[0]);
  }

  /** Digits followed by a non-digit suffix are read as the digits' value. */
  lemma ParseUnsigned(digits: string, suffix: string)
    requires |digits| > 0 && forall i :: 0 <= i < |digits| ==> IsDigit(digits[i])
    requires suffix == [] || !IsDigit(suffix[0])
    ensures ParseInt(digits + suffix) == Some(DigitsValue(digits) as int)
  {
    var u := digits + suffix;
    ParseDigitsPrefix(digits, suffix);
    SkipSpaceNone(u);
    assert u[0] != '-' && u[0] != '+';
  }

  /** A minus sign followed by a digit is read as the negated leading digits after the sign. */
  lemma ParseNegative(s: string)
    requires |s| > 1 && s[0] == '-' && IsDigit(s[1])
    ensures ParseInt(s) == Some(-(DigitsValue(s[1..][..LeadingDigits(s[1..])]) as int))
  {
    SkipSpaceNone(s);
    assert ParseInt(s) == ParseSigned(s);
    assert LeadingDigits(s[1..]) > 0;
  }

  /** Reading back what `String(n)` wrote, followed by a non-digit suffix, gives `n`. */
  lemma ParseIntText(n: int, suffix: string)
    requires suffix == [] || !IsDigit(suffix[0])
    ensures ParseInt(IntText(n) + suffix) == Some(n)
  {
    if n < 0 {
      var m: nat := -n;
      var d := NatText(m);
      var s := IntText(n) + suffix;
      assert s[0] == '-' && s[1..] == d + suffix;
      NatTextValue(m);
      ParseDigitsPrefix(d, suffix);
      ParseNegative(s);
    } else {
      var d := NatText(n);
      assert IntText(n) == d;
      NatTextValue(n);
      ParseUnsigned(d, suffix);
    }
  }
}
