/**
 * Decimal text of non-negative integers: the percentage printed in a top-value
 * label, and the "array index" test that decides where a key goes in the
 * property order of a JavaScript object.
 */
module Decimal {

  predicate IsDigit(ch: char)
  {
    '0' <= ch <= '9'
  }

  predicate AllDigits(s: string)
  {
    forall i :: 0 <= i < |s| ==> IsDigit(s[i])
  }

  function DigitChar(d: nat): char
    requires d < 10
  {
    "0123456789"[d]
  }

  function DigitOf(ch: char): nat
    requires IsDigit(ch)
  {
    (ch as int) - ('0' as int)
  }

  /** The decimal numeral of `n`, as template interpolation `${n}` prints an integer. */
  function NatText(n: nat): (s: string)
    ensures IsCanonical(s)
  {
    if n < 10 then [DigitChar(n)] else NatText(n / 10) + [DigitChar(n % 10)]
  }

  /** The value of a string of decimal digits. */
  function DigitsValue(s: string): nat
    requires AllDigits(s)
  {
    if s == [] then 0 else 10 * DigitsValue(s[..|s| - 1]) + DigitOf(s[|s| - 1])
  }

  /** A non-empty digit string without a superfluous leading zero. */
  predicate IsCanonical(s: string)
  {
    |s| > 0 && AllDigits(s) && (s[0] == '0' ==> |s| == 1)
  }

  /** 2^32 - 1: array indices are the integers strictly below it. */
  const MAX_ARRAY_INDEX_BOUND: nat := 0x1_0000_0000 - 1

  /**
   * An "array index" property key: the canonical decimal text of an integer
   * i with 0 <= i < 2^32 - 1. Such keys come first, in ascending numeric
   * order, when an object's own keys are listed.
   */
  predicate IsArrayIndex(s: string)
  {
    IsCanonical(s) && DigitsValue(s) < MAX_ARRAY_INDEX_BOUND
  }

  function IndexValue(s: string): nat
    requires IsArrayIndex(s)
  {
    DigitsValue(s)
  }

  /** A one-digit key is an array index whose value is its digit. */
  lemma DigitKey(s: string)
    requires |s| == 1 && IsDigit(s[0])
    ensures IsArrayIndex(s) && IndexValue(s) == DigitOf(s[0])
  {
    assert s[..0] == [];
    assert DigitsValue(s) == DigitOf(s[0]);
  }

  /** Reading back a printed numeral gives the number printed. */
  lemma {:induction false} ValueOfNatText(n: nat)
    ensures DigitsValue(NatText(n)) == n
  {
    if n >= 10 {
      ValueOfNatText(n / 10);
      var s := NatText(n);
      assert s[..|s| - 1] == NatText(n / 10);
      assert DigitOf(s[|s| - 1]) == n % 10 by { DigitRoundTrip(n % 10); }
    } else {
      DigitRoundTrip(n);
    }
  }

  lemma DigitRoundTrip(d: nat)
    requires d < 10
    ensures IsDigit(DigitChar(d)) && DigitOf(DigitChar(d)) == d
  {
  }

  lemma CharRoundTrip(ch: char)
    requires IsDigit(ch)
    ensures DigitOf(ch) < 10 && DigitChar(DigitOf(ch)) == ch
  {
  }

  lemma {:induction false} LeadingDigitPositive(s: string)
    requires AllDigits(s) && |s| > 0 && s[0] != '0'
    ensures DigitsValue(s) >= 1
  {
    if |s| > 1 {
      LeadingDigitPositive(s[..|s| - 1]);
    }
  }

  /** Printing the value of a canonical numeral gives the numeral back. */
  lemma {:induction false} NatTextOfCanonical(s: string)
    requires IsCanonical(s)
    ensures NatText(DigitsValue(s)) == s
  {
    var last := s[|s| - 1];
    CharRoundTrip(last);
    if |s| > 1 {
      var init := s[..|s| - 1];
      assert IsCanonical(init);
      NatTextOfCanonical(init);
      LeadingDigitPositive(init);
      var n := DigitsValue(s);
      assert n / 10 == DigitsValue(init) && n % 10 == DigitOf(last);
      assert NatText(n) == init + [last];
    }
  }

  /**
   * The array-index keys are exactly the printed numerals of the integers
   * below 2^32 - 1.
   */
  lemma ArrayIndexIsNumeral(s: string)
    ensures IsArrayIndex(s) <==> exists i: nat :: i < MAX_ARRAY_INDEX_BOUND && NatText(i) == s
  {
    if IsArrayIndex(s) {
      NatTextOfCanonical(s);
    }
    if exists i: nat :: i < MAX_ARRAY_INDEX_BOUND && NatText(i) == s {
      var i: nat :| i < MAX_ARRAY_INDEX_BOUND && NatText(i) == s;
      ValueOfNatText(i);
    }
  }
}
