/** Decimal digit strings: the time-limit text of the session.
    The limit is kept as text; `parseInt` reads it back as a decimal number,
    `Number.prototype.toString` writes a preset's minutes as one, and the
    input handler keeps only the digits of what the user typed. */
module Digits {

  predicate IsDigit(c: char) {
    '0' <= c <= '9'
  }

  predicate AllDigits(s: string) {
    forall i :: 0 <= i < |s| ==> IsDigit(s[i])
  }

  function DigitOf(c: char): (d: nat)
    requires IsDigit(c)
    ensures d < 10
  {
    (c - '0') as nat
  }

  function DigitChar(d: nat): (c: char)
    requires d < 10
    ensures IsDigit(c) && DigitOf(c) == d
  {
    '0' + d as char
  }

  /** The value `parseInt` gives a non-empty string of decimal digits
      (leading zeros allowed). Reading the empty string as 0 is a
      convention of this model: `parseInt('')` is NaN, but the session
      only reads a limit that is not empty. */
  function Value(s: string): nat
    requires AllDigits(s)
  {
    if s == [] then 0 else Value(s[..|s| - 1]) * 10 + DigitOf(s[|s| - 1])
  }

  /** A digit text reads as 0 exactly when all its digits are zeros. */
  lemma {:induction false} ValueZero(s: string)
    requires AllDigits(s)
    ensures Value(s) == 0 <==> forall i :: 0 <= i < |s| ==> s[i] == '0'
  {
    if s != [] {
      var front := s[..|s| - 1];
      ValueZero(front);
      assert forall i :: 0 <= i < |front| ==> front[i] == s[i];
    }
  }

  /** `n.toString()` for a non-negative integer: its decimal digits,
      most significant first, without leading zeros. */
  function ToDecimal(n: nat): (r: string)
    ensures AllDigits(r) && |r| >= 1
    ensures r[0] != '0' || r == "0"
  {
    if n < 10 then [DigitChar(n)] else ToDecimal(n / 10) + [DigitChar(n % 10)]
  }

  /** Reading back what `toString` wrote gives the same number. */
  lemma {:induction false} ValueOfDecimal(n: nat)
    ensures Value(ToDecimal(n)) == n
  {
    if n >= 10 {
      var p := ToDecimal(n / 10);
      var r := ToDecimal(n);
      assert r[..|r| - 1] == p;
      ValueOfDecimal(n / 10);
    }
  }

  /** Two decimal digits are enough exactly for the numbers below 100. */
  lemma {:induction false} DecimalLength(n: nat)
    ensures |ToDecimal(n)| <= 2 <==> n < 100
    ensures n < 10 <==> |ToDecimal(n)| == 1
  {
    if n >= 10 {
      DecimalLength(n / 10);
    }
  }

  /** A leading zero does not change the value `parseInt` reads. */
  lemma {:induction false} LeadingZero(s: string)
    requires AllDigits(s)
    ensures AllDigits(['0'] + s) && Value(['0'] + s) == Value(s)
  {
    var z := ['0'] + s;
    if s != [] {
      assert z[..|z| - 1] == ['0'] + s[..|s| - 1];
      LeadingZero(s[..|s| - 1]);
    }
  }

  /** The time-limit input handler: every character that is not a decimal
      digit is removed, the digits stay in their order. */
  function Sanitize(s: string): (r: string)
    ensures AllDigits(r) && |r| <= |s|
    ensures forall c :: c in r <==> c in s && IsDigit(c)
  {
    if s == [] then []
    else (if IsDigit(s[0]) then [s[0]] else []) + Sanitize(s[1..])
  }

  /** Sanitizing works character by character: the result for a
      concatenation is the concatenation of the results. */
  lemma {:induction false} SanitizeAppend(a: string, b: string)
    ensures Sanitize(a + b) == Sanitize(a) + Sanitize(b)
  {
    if a != [] {
      assert (a + b)[1..] == a[1..] + b;
      SanitizeAppend(a[1..], b);
    } else {
      assert a + b == b;
    }
  }

  /** A string is left unchanged exactly when it already holds only digits. */
  lemma {:induction false} SanitizeFixed(s: string)
    ensures Sanitize(s) == s <==> AllDigits(s)
  {
    if s != [] && AllDigits(s) {
      SanitizeFixed(s[1..]);
    }
  }

  /** Sanitizing twice is sanitizing once. */
  lemma SanitizeIdempotent(s: string)
    ensures Sanitize(Sanitize(s)) == Sanitize(s)
  {
    SanitizeFixed(Sanitize(s));
  }
}
