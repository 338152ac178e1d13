/**
 The two string built-ins of the source language that the generator relies on:
 formatting an integer in decimal (as an f-string does with an `int`) and
 stripping leading and trailing whitespace (`str.strip()` without arguments).
 */
module Strings {

  // ---------------------------------------------------------------------------
  // Decimal formatting of integers
  // ---------------------------------------------------------------------------

  predicate IsDigit(c: char) { '0' <= c <= '9' }

  predicate AllDigits(s: string) { forall i :: 0 <= i < |s| ==> IsDigit(s[i]) }

  function DigitChar(d: nat): (c: char)
    requires d < 10
    ensures IsDigit(c) && c as int - '0' as int == d
  {
    ('0' as int + d) as char
  }

  /** The decimal digits of `n`, most significant first, with no leading zero. */
  function NatToDecimal(n: nat): (r: string)
    ensures |r| > 0 && AllDigits(r)
    ensures |r| > 1 ==> r[0] != '0'
  {
    if n < 10 then [DigitChar(n)] else NatToDecimal(n / 10) + [DigitChar(n % 10)]
  }

  /** `str(i)` for an integer `i`: a minus sign for negative values, then the digits. */
  function IntToDecimal(i: int): (r: string)
    ensures |r| > 0
    ensures i >= 0 <==> IsDigit(r[0])
    ensures i < 0 <==> r[0] == '-'
    ensures i >= 0 ==> AllDigits(r)
    ensures i < 0 ==> |r| > 1 && AllDigits(r[1..])
  {
    if i < 0 then "-" + NatToDecimal(-i) else NatToDecimal(i)
  }

  /** The value of a string of decimal digits; the reference reading of a decimal string. */
  function DigitsValue(s: string): nat
    requires AllDigits(s)
  {
    if s == [] then 0 else DigitsValue(s[..|s| - 1]) * 10 + (s[|s| - 1] as int - '0' as int)
  }

  /** The value of `str(i)` read back: an optional minus sign followed by digits. */
  function DecimalValue(s: string): int
    requires |s| > 0
    requires (s[0] == '-' && AllDigits(s[1..])) || AllDigits(s)
  {
    if s[0] == '-' then -(DigitsValue(s[1..]) as int) else DigitsValue(s)
  }

  lemma {:induction false} NatToDecimalRoundTrip(n: nat)
    ensures DigitsValue(NatToDecimal(n)) == n
  {
    if n >= 10 {
      var r := NatToDecimal(n);
      NatToDecimalRoundTrip(n / 10);
      assert r[..|r| - 1] == NatToDecimal(n / 10);
    }
  }

  /** Reading `str(i)` back gives `i`, so distinct integers format differently. */
  lemma IntToDecimalRoundTrip(i: int)
    ensures DecimalValue(IntToDecimal(i)) == i
  {
    if i < 0 {
      assert IntToDecimal(i)[1..] == NatToDecimal(-i);
      NatToDecimalRoundTrip(-i);
    } else {
      NatToDecimalRoundTrip(i);
    }
  }

  lemma IntToDecimalInjective(i: int, j: int)
    requires IntToDecimal(i) == IntToDecimal(j)
    ensures i == j
  {
    IntToDecimalRoundTrip(i);
    IntToDecimalRoundTrip(j);
  }

  // ---------------------------------------------------------------------------
  // Whitespace stripping
  // ---------------------------------------------------------------------------

  /**
   The characters `str.isspace()` accepts, by code point: the ASCII blanks
   and controls, the information separators, and the Unicode spaces and line
   separators. No letter, digit or underscore is whitespace, and neither is
   the zero-width space.
   */
  function IsSpace(c: char): (b: bool)
    ensures c == ' ' || c == '\t' || c == '\n' || c == '\r' ==> b
    ensures b ==> !('a' <= c <= 'z' || 'A' <= c <= 'Z' || '0' <= c <= '9' || c == '_')
    ensures c as int == 0x200B ==> !b
  {
    var n := c as int;
    (9 <= n <= 13) || (28 <= n <= 32) || n == 0x85 || n == 0xA0 || n == 0x1680
    || (0x2000 <= n <= 0x200A) || n == 0x2028 || n == 0x2029 || n == 0x202F
    || n == 0x205F || n == 0x3000
  }

  predicate AllSpace(s: string) { forall i :: 0 <= i < |s| ==> IsSpace(s[i]) }

  /** No whitespace at either end of `s`. */
  predicate Trimmed(s: string)
  {
    s == [] || (!IsSpace(s[0]) && !IsSpace(s[|s| - 1]))
  }

  /** The number of whitespace characters at the front of `s`. */
  function LeadingSpace(s: string): (n: nat)
    ensures n <= |s| && AllSpace(s[..n])
    ensures n < |s| ==> !IsSpace(s[n])
  {
    if s != [] && IsSpace(s[0]) then
      var m := LeadingSpace(s[1..]);
      LeadingSpaceGrows(s, m);
      m + 1
    else 0
  }

  /** A whitespace character in front of a whitespace run extends it by one. */
  lemma LeadingSpaceGrows(s: string, m: nat)
    requires |s| > 0 && IsSpace(s[0])
    requires m <= |s| - 1 && AllSpace(s[1..][..m])
    ensures AllSpace(s[..m + 1])
  {
    var p, q := s[..m + 1], s[1..][..m];
    forall k | 0 < k < |p| ensures IsSpace(p[k]) {
      assert p[k] == q[k - 1];
    }
  }

  /** The number of whitespace characters at the end of `s`. */
  function TrailingSpace(s: string): (n: nat)
    ensures n <= |s| && AllSpace(s[|s| - n..])
    ensures n < |s| ==> !IsSpace(s[|s| - n - 1])
  {
    if s != [] && IsSpace(s[|s| - 1]) then
      var m := TrailingSpace(s[..|s| - 1]);
      TrailingSpaceGrows(s, m);
      m + 1
    else 0
  }

  /** A whitespace character after a whitespace run extends it by one. */
  lemma TrailingSpaceGrows(s: string, m: nat)
    requires |s| > 0 && IsSpace(s[|s| - 1])
    requires m <= |s| - 1 && AllSpace(s[..|s| - 1][|s| - 1 - m..])
    ensures AllSpace(s[|s| - (m + 1)..])
  {
    var p, q := s[|s| - (m + 1)..], s[..|s| - 1][|s| - 1 - m..];
    forall k | 0 <= k < m ensures IsSpace(p[k]) {
      assert p[k] == q[k];
    }
  }

  /**
   `str.strip()`: the text between the leading and the trailing whitespace. It
   has no whitespace at either end, and it sits in `s` right after the leading
   whitespace, followed by whitespace only.
   */
  function Strip(s: string): (r: string)
    ensures Trimmed(r)
    ensures var i := LeadingSpace(s);
            i + |r| <= |s| && s[i..i + |r|] == r && AllSpace(s[..i]) && AllSpace(s[i + |r|..])
  {
    var i := LeadingSpace(s);
    var t := s[i..];
    var n := |t| - TrailingSpace(t);
    InfixOfSuffix(s, i, n);
    t[..n]
  }

  /** Slicing after position `i` and then at `n` is slicing `s` at `i + n`. */
  lemma InfixOfSuffix(s: string, i: nat, n: nat)
    requires i + n <= |s| && AllSpace(s[i..][n..])
    ensures s[i..i + n] == s[i..][..n] && AllSpace(s[i + n..])
  {
    assert s[i + n..] == s[i..][n..];
  }

  /** Whitespace in front of text that does not start with whitespace is counted exactly. */
  lemma {:induction false} LeadingSpaceOf(a: string, t: string)
    requires AllSpace(a)
    requires t == [] || !IsSpace(t[0])
    ensures LeadingSpace(a + t) == |a|
  {
    if a != [] {
      assert (a + t)[1..] == a[1..] + t;
      LeadingSpaceOf(a[1..], t);
    } else {
      assert a + t == t;
    }
  }

  /** Whitespace after text that does not end with whitespace is counted exactly. */
  lemma {:induction false} TrailingSpaceOf(t: string, b: string)
    requires AllSpace(b)
    requires t == [] || !IsSpace(t[|t| - 1])
    ensures TrailingSpace(t + b) == |b|
  {
    if b != [] {
      assert (t + b)[..|t + b| - 1] == t + b[..|b| - 1];
      TrailingSpaceOf(t, b[..|b| - 1]);
    } else {
      assert t + b == t;
    }
  }

  /**
   Strip is determined by its shape: whatever whitespace surrounds a trimmed
   middle part, stripping gives back exactly that middle part.
   */
  lemma StripCharacterised(a: string, m: string, b: string)
    requires AllSpace(a) && AllSpace(b) && Trimmed(m)
    ensures Strip(a + m + b) == m
  {
    if m == [] {
      assert a + m + b == (a + b) + [];
      assert AllSpace(a + b);
      LeadingSpaceOf(a + b, []);
    } else {
      assert a + m + b == a + (m + b);
      LeadingSpaceOf(a, m + b);
      assert (a + m + b)[|a|..] == m + b;
      TrailingSpaceOf(m, b);
      assert (m + b)[..|m|] == m;
    }
  }

  /** Stripping twice is stripping once. */
  lemma StripIdempotent(s: string)
    ensures Strip(Strip(s)) == Strip(s)
  {
    var r := Strip(s);
    assert [] + r + [] == r;
    StripCharacterised([], r, []);
  }
}
