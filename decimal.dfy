/**
 * Decimal text of integers: Python's `str(i)`, with a minus sign for a
 * negative `i`, and the zero-padded `%0wd` fields of a date-time, with the
 * digit parser that reads them back.
 */
module Decimal {

  function Pow10(k: nat): (p: nat)
    ensures p >= 1
  {
    if k == 0 then 1 else 10 * Pow10(k - 1)
  }

  predicate IsDigit(c: char) {
    '0' <= c <= '9'
  }

  predicate AllDigits(s: string) {
    forall i :: 0 <= i < |s| ==> IsDigit(s[i])
  }

  function DigitValue(c: char): (d: nat)
    requires IsDigit(c)
    ensures d < 10
  {
    c as int - '0' as int
  }

  function DigitChar(d: nat): (c: char)
    requires d < 10
    ensures IsDigit(c) && DigitValue(c) == d
  {
    ('0' as int + d) as char
  }

  /** The value of a string of decimal digits, most significant first. */
  function Value(s: string): (n: nat)
    requires AllDigits(s)
    ensures n < Pow10(|s|)
  {
    if s == [] then 0 else 10 * Value(s[..|s| - 1]) + DigitValue(s[|s| - 1])
  }

  /** `n` in exactly `width` digits, zero-padded on the left. */
  function Padded(n: nat, width: nat): (s: string)
    requires n < Pow10(width)
    ensures |s| == width && AllDigits(s)
  {
    if width == 0 then "" else Padded(n / 10, width - 1) + [DigitChar(n % 10)]
  }

  /** `n` in as few digits as it needs: Python's `str(n)` for `n >= 0`. */
  function NatText(n: nat): (s: string)
    ensures |s| > 0 && AllDigits(s)
  {
    if n < 10 then [DigitChar(n)] else NatText(n / 10) + [DigitChar(n % 10)]
  }

  /** Python's `str(i)` for any integer: a minus sign, for a negative `i` only, before the magnitude. */
  function IntText(i: int): (s: string)
    ensures |s| > 0
  {
    (if i < 0 then "-" else "") + NatText(if i < 0 then -i else i)
  }

  /** Reading back a padded field gives the number that was written. */
  lemma {:induction false} ValueOfPadded(n: nat, width: nat)
    requires n < Pow10(width)
    ensures Value(Padded(n, width)) == n
  {
    if width > 0 {
      var s := Padded(n, width);
      assert s[..|s| - 1] == Padded(n / 10, width - 1);
      ValueOfPadded(n / 10, width - 1);
    }
  }

  /** Reading back `str(n)` gives `n`. */
  lemma {:induction false} ValueOfNatText(n: nat)
    ensures Value(NatText(n)) == n
  {
    if n >= 10 {
      var s := NatText(n);
      assert s[..|s| - 1] == NatText(n / 10);
      ValueOfNatText(n / 10);
    }
  }

  /** A field of digits is exactly the padded text of its own value. */
  lemma {:induction false} PaddedOfValue(s: string)
    requires AllDigits(s)
    ensures Padded(Value(s), |s|) == s
  {
    if s != [] {
      var init := s[..|s| - 1];
      var last := s[|s| - 1];
      var v, d := Value(init), DigitValue(last);
      PaddedOfValue(init);
      LastDigit(v, d);
      assert Value(s) == 10 * v + d;
      assert DigitChar(d) == last;
      assert Padded(Value(s), |s|) == Padded(v, |init|) + [DigitChar(d)];
      assert s == init + [last];
    }
  }

  lemma LastDigit(v: nat, d: nat)
    requires d < 10
    ensures (10 * v + d) / 10 == v && (10 * v + d) % 10 == d
  {
  }

  /**
   * `str(i)` reads back as `i`: without a sign it is the digits of `i`, and
   * with one it is a minus sign before the digits of `-i`.
   */
  lemma IntTextReadsBack(i: int)
    ensures i >= 0 ==> AllDigits(IntText(i)) && Value(IntText(i)) == i
    ensures i < 0 ==> IntText(i)[0] == '-' && AllDigits(IntText(i)[1..]) && Value(IntText(i)[1..]) == -i
  {
    if i < 0 {
      assert IntText(i)[1..] == NatText(-i);
      ValueOfNatText(-i);
    } else {
      assert IntText(i) == NatText(i);
      ValueOfNatText(i);
    }
  }

  /** Distinct integers have distinct texts. */
  lemma IntTextInjective(i: int, j: int)
    requires IntText(i) == IntText(j)
    ensures i == j
  {
    IntTextReadsBack(i);
    IntTextReadsBack(j);
  }
}
