// Decimal digits: reading a number from its digits, and printing one.
module Decimal {
  predicate IsDigit(c: char) {
    '0' <= c <= '9'
  }

  predicate AllDigits(s: string) {
    forall i :: 0 <= i < |s| ==> IsDigit(s[i])
  }

  function DigitValue(c: char): nat
    requires IsDigit(c)
  {
    c as int - '0' as int
  }

  function DigitChar(d: nat): (c: char)
    requires d < 10
    ensures IsDigit(c) && DigitValue(c) == d
  {
    (d + '0' as int) as char
  }

  /** The number a string of digits spells. */
  function Number(digits: string): nat
    requires AllDigits(digits)
  {
    if digits == "" then 0
    else 10 * Number(digits[..|digits| - 1]) + DigitValue(digits[|digits| - 1])
  }

  function Pow10(n: nat): (r: nat)
    ensures r >= 1
  {
    if n == 0 then 1 else 10 * Pow10(n - 1)
  }

  lemma {:induction false} NumberBound(digits: string)
    requires AllDigits(digits)
    ensures Number(digits) < Pow10(|digits|)
  {
    if digits != "" { NumberBound(digits[..|digits| - 1]); }
  }

  lemma NumberPush(digits: string, c: char)
    requires AllDigits(digits) && IsDigit(c)
    ensures AllDigits(digits + [c]) && Number(digits + [c]) == 10 * Number(digits) + DigitValue(c)
  {
    assert (digits + [c])[..|digits|] == digits;
  }

  /** The shortest decimal form. */
  function Decimal(n: nat): (s: string)
    ensures AllDigits(s) && s != ""
  {
    if n < 10 then [DigitChar(n)] else Decimal(n / 10) + [DigitChar(n % 10)]
  }

  lemma {:induction false} DecimalSpells(n: nat)
    ensures Number(Decimal(n)) == n
  {
    if n >= 10 {
      DecimalSpells(n / 10);
      NumberPush(Decimal(n / 10), DigitChar(n % 10));
    } else {
      NumberPush("", DigitChar(n));
      assert "" + [DigitChar(n)] == [DigitChar(n)];
    }
  }

  lemma {:induction false} DecimalWidth(n: nat, w: nat)
    requires w > 0
    ensures |Decimal(n)| <= w <==> n < Pow10(w)
  {
    if w == 1 {
      assert Pow10(1) == 10 * Pow10(0);
    } else if n >= 10 {
      DecimalWidth(n / 10, w - 1);
    } else {
      assert Pow10(w) == 10 * Pow10(w - 1);
    }
  }

  function Zeros(n: nat): (s: string)
    ensures |s| == n && AllDigits(s)
  {
    if n == 0 then "" else "0" + Zeros(n - 1)
  }

  lemma {:induction false} LeadingZeros(n: nat, digits: string)
    requires AllDigits(digits)
    ensures AllDigits(Zeros(n) + digits) && Number(Zeros(n) + digits) == Number(digits)
    decreases n, |digits|
  {
    if digits == "" {
      assert Zeros(n) + digits == Zeros(n);
      if n > 0 {
        ZerosFromEnd(n);
        LeadingZeros(n - 1, "");
        assert Zeros(n - 1) + "" == Zeros(n - 1);
        NumberPush(Zeros(n - 1), '0');
      }
    } else {
      var init, last := digits[..|digits| - 1], digits[|digits| - 1];
      LeadingZeros(n, init);
      NumberPush(Zeros(n) + init, last);
      assert digits == init + [last];
      assert Zeros(n) + digits == Zeros(n) + init + [last];
    }
  }

  lemma {:induction false} ZerosFromEnd(n: nat)
    requires n > 0
    ensures Zeros(n) == Zeros(n - 1) + "0"
  {
    if n > 1 { ZerosFromEnd(n - 1); }
  }

  /** The format `{:0w}`. */
  function Padded(n: nat, w: nat): (s: string)
    ensures AllDigits(s) && s != ""
  {
    var digits := Decimal(n);
    if |digits| >= w then digits else Zeros(w - |digits|) + digits
  }

  lemma PaddedSpells(n: nat, w: nat)
    requires w > 0
    ensures Number(Padded(n, w)) == n
    ensures n < Pow10(w) ==> |Padded(n, w)| == w
    ensures n >= Pow10(w) ==> |Padded(n, w)| > w
  {
    DecimalSpells(n);
    DecimalWidth(n, w);
    if |Decimal(n)| < w { LeadingZeros(w - |Decimal(n)|, Decimal(n)); }
  }
}
