/**
 * Decimal rendering of integers (what a JavaScript template string does with an
 * integral number) and the integer prefix parser `parseInt`.
 */
module Decimal {
  import opened Wrappers

  predicate IsDigit(c: char) { '0' <= c <= '9' }

  function DigitChar(d: nat): (c: char)
    requires d < 10
    ensures IsDigit(c) && c as int - '0' as int == d
  {
    ['0','1','2','3','4','5','6','7','8','9'][d]
  }

  function DigitValue(c: char): nat
    requires IsDigit(c)
  {
    c as int - '0' as int
  }

  predicate AllDigits(s: string) { forall i :: 0 <= i < |s| ==> IsDigit(s[i]) }

  /** The decimal digits of `n`, with no leading zero. */
  function NatToString(n: nat): (s: string)
    ensures |s| >= 1 && AllDigits(s)
    ensures n < 10 <==> |s| == 1
    ensures n >= 10 ==> s[0] != '0'
  {
    if n < 10 then [DigitChar(n)] else NatToString(n / 10) + [DigitChar(n % 10)]
  }

  /** The value of a string of digits, read most significant digit first. */
  function DigitsValue(s: string): nat
    requires AllDigits(s)
  {
    if s == [] then 0 else 10 * DigitsValue(s[..|s| - 1]) + DigitValue(s[|s| - 1])
  }

  /** Reading back the digits of `n` gives `n`. */
  lemma {:induction false} NatToStringRoundTrip(n: nat)
    ensures DigitsValue(NatToString(n)) == n
  {
    var s := NatToString(n);
    if n >= 10 {
      NatToStringRoundTrip(n / 10);
      assert s[..|s| - 1] == NatToString(n / 10);
    }
  }

  /** `String(i)` for an integer: a minus sign in front of the digits of |i|. */
  function IntToString(i: int): (s: string)
    ensures |s| >= 1
    ensures (i < 0) <==> s[0] == '-'
    ensures i >= 0 ==> s == NatToString(i)
    ensures i < 0 ==> s[1..] == NatToString(-i)
  {
    if i < 0 then "-" + NatToString(-i) else NatToString(i)
  }

  /** The whitespace `String.prototype.trim` and `parseInt` skip (the ASCII and Latin-1 ones). */
  predicate IsSpace(c: char) {
    c == ' ' || c == '\t' || c == '\n' || c == '\r' || c == '\U{000B}' || c == '\U{000C}' || c == '\U{00A0}' || c == '\U{FEFF}'
  }

  /** True when `s.trim()` is the empty string. */
  predicate IsBlank(s: string) { forall i :: 0 <= i < |s| ==> IsSpace(s[i]) }

  /** The number of leading digits of `s`. */
  function DigitPrefixLength(s: string): (k: nat)
    ensures k <= |s| && AllDigits(s[..k])
    ensures k < |s| ==> !IsDigit(s[k])
  {
    if s == [] || !IsDigit(s[0]) then 0
    else
      var k := 1 + DigitPrefixLength(s[1..]);
      assert s[..k] == [s[0]] + s[1..][..k - 1];
      k
  }

  /** The number of leading whitespace characters of `s`. */
  function SpacePrefixLength(s: string): (k: nat)
    ensures k <= |s|
    ensures forall i :: 0 <= i < k ==> IsSpace(s[i])
    ensures k < |s| ==> !IsSpace(s[k])
  {
    if s == [] || !IsSpace(s[0]) then 0 else 1 + SpacePrefixLength(s[1..])
  }

  /**
   * `parseInt(s)` in radix 10: leading whitespace is skipped, one optional sign is read,
   * then the longest run of digits; None stands for NaN (no digit at all).
   */
  function ParseInt(s: string): (r: Option<int>)
    ensures r.None? <==>
      var t := s[SpacePrefixLength(s)..];
      var u := if t != [] && (t[0] == '+' || t[0] == '-') then t[1..] else t;
      u == [] || !IsDigit(u[0])
  {
    var t := s[SpacePrefixLength(s)..];
    var negative := t != [] && t[0] == '-';
    var u := if t != [] && (t[0] == '+' || t[0] == '-') then t[1..] else t;
    var k := DigitPrefixLength(u);
    if k == 0 then None
    else
      var v: int := DigitsValue(u[..k]);
      var value: int := if negative then -v else v;
      Some(value)
  }

  /** parseInt reads back every integer that String() writes. */
  lemma ParseIntOfIntToString(i: int)
    ensures ParseInt(IntToString(i)) == Some(i)
  {
    if i < 0 {
      var digits := NatToString(-i);
      calc {
        ParseInt(IntToString(i));
        { assert IntToString(i) == "-" + digits; }
        ParseInt("-" + digits);
        { ParseIntOfNegative(digits); }
        Some(-(DigitsValue(digits) as int));
        { NatToStringRoundTrip(-i); }
        Some(i);
      }
    } else {
      var digits := NatToString(i);
      calc {
        ParseInt(IntToString(i));
        { ParseIntOfDigits(digits); }
        Some(DigitsValue(digits) as int);
        { NatToStringRoundTrip(i); }
        Some(i);
      }
    }
  }

  /** A run of digits parses as its value. */
  lemma ParseIntOfDigits(u: string)
    requires u != [] && AllDigits(u)
    ensures ParseInt(u) == Some(DigitsValue(u) as int)
  {
    assert !IsSpace(u[0]);
    assert SpacePrefixLength(u) == 0;
    assert u[0..] == u;
    DigitPrefixAll(u);
    assert u[..|u|] == u;
  }

  /** A minus sign and a run of digits parse as the negated value. */
  lemma ParseIntOfNegative(u: string)
    requires u != [] && AllDigits(u)
    ensures ParseInt("-" + u) == Some(-(DigitsValue(u) as int))
  {
    var s := "-" + u;
    assert s[0] == '-' && s[1..] == u;
    assert SpacePrefixLength(s) == 0;
    assert s[0..] == s;
    DigitPrefixAll(u);
    assert u[..|u|] == u;
  }

  lemma {:induction false} DigitPrefixAll(s: string)
    requires AllDigits(s)
    ensures DigitPrefixLength(s) == |s|
  {
    if s != [] {
      DigitPrefixAll(s[1..]);
    }
  }

  /** Index of the first `c` in s, or |s| when there is none. */
  function IndexOf(s: string, c: char): (k: nat)
    ensures k <= |s|
    ensures forall i :: 0 <= i < k ==> s[i] != c
    ensures k < |s| ==> s[k] == c
  {
    if s == [] then 0 else if s[0] == c then 0 else 1 + IndexOf(s[1..], c)
  }

  lemma {:induction false} IndexOfAt(a: string, b: string, c: char)
    requires forall i :: 0 <= i < |a| ==> a[i] != c
    requires b != [] ==> b[0] == c
    ensures IndexOf(a + b, c) == |a|
  {
    if a != [] {
      assert (a + b)[1..] == a[1..] + b;
      IndexOfAt(a[1..], b, c);
    } else {
      assert a + b == b;
    }
  }

  lemma DigitsAvoid(s: string, c: char)
    requires AllDigits(s) && !IsDigit(c)
    ensures forall i :: 0 <= i < |s| ==> s[i] != c
  {
  }

  /** The text of an integer holds nothing but a sign and digits. */
  lemma IntToStringAvoids(i: int, c: char)
    requires !IsDigit(c) && c != '-'
    ensures forall k :: 0 <= k < |IntToString(i)| ==> IntToString(i)[k] != c
  {
    var s := IntToString(i);
    if i >= 0 {
      DigitsAvoid(s, c);
    } else {
      DigitsAvoid(s[1..], c);
      forall k | 0 <= k < |s| ensures s[k] != c {
        if k > 0 { assert s[k] == s[1..][k - 1]; }
      }
    }
  }
}
