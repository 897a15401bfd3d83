/** `str(n)` for the non-negative integers the workload draws as keys. */
module Decimal {

  function DigitChar(d: nat): (c: char)
    requires d < 10
  {
    "0123456789"[d]
  }

  predicate IsDigit(c: char) {
    '0' <= c <= '9'
  }

  /** The decimal numeral of `n`, without sign or leading zeros. */
  function NatToString(n: nat): string {
    if n < 10 then [DigitChar(n)] else NatToString(n / 10) + [DigitChar(n % 10)]
  }

  /** The value of one decimal digit. */
  function DigitValue(c: char): int {
    c as int - '0' as int
  }

  /** The number a string of decimal digits denotes, by Horner's rule: an independent reading of a numeral. */
  function DigitsValue(s: string): int {
    if |s| == 0 then 0 else DigitsValue(s[..|s| - 1]) * 10 + DigitValue(s[|s| - 1])
  }

  lemma DigitValueOfDigitChar(d: nat)
    requires d < 10
    ensures IsDigit(DigitChar(d)) && DigitValue(DigitChar(d)) == d
  {
    assert "0123456789"[d] as int == '0' as int + d;
  }

  /** `str(n)` is a non-empty string of decimal digits, longer than one digit exactly when `n >= 10`. */
  lemma {:induction false} NatToStringShape(n: nat)
    ensures var s := NatToString(n);
      && |s| >= 1
      && (forall i :: 0 <= i < |s| ==> IsDigit(s[i]))
      && (n >= 10 <==> |s| > 1)
    decreases n
  {
    var s := NatToString(n);
    if n < 10 {
      DigitValueOfDigitChar(n);
    } else {
      NatToStringShape(n / 10);
      DigitValueOfDigitChar(n % 10);
      assert forall i :: 0 <= i < |s| - 1 ==> s[i] == NatToString(n / 10)[i];
    }
  }

  /** `str(n)` denotes `n`. */
  lemma {:induction false} ValueOfNatToString(n: nat)
    ensures DigitsValue(NatToString(n)) == n
    decreases n
  {
    var s := NatToString(n);
    if n < 10 {
      DigitValueOfDigitChar(n);
      assert s[..0] == [];
    } else {
      ValueOfNatToString(n / 10);
      DigitValueOfDigitChar(n % 10);
      assert s[..|s| - 1] == NatToString(n / 10);
    }
  }

  /** Distinct numbers have distinct numerals: two draws give the same key exactly when they are equal. */
  lemma NatToStringInjective(m: nat, n: nat)
    ensures NatToString(m) == NatToString(n) <==> m == n
  {
    ValueOfNatToString(m);
    ValueOfNatToString(n);
  }

  /** A larger number never has a shorter numeral, so every key is at most as long as `str(key_range)`. */
  lemma {:induction false} NatToStringLengthMonotone(m: nat, n: nat)
    requires m <= n
    ensures |NatToString(m)| <= |NatToString(n)|
    decreases n
  {
    if m >= 10 {
      NatToStringLengthMonotone(m / 10, n / 10);
    } else {
      NatToStringShape(n);
    }
  }
}
