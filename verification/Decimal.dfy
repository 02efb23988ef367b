/** Decimal rendering of integers, as Python's `str(n)` and `f"{n:05d}"` produce it. */
module Decimal {

  const DIGITS := "0123456789"

  function Digits(n: nat): (s: string)
    ensures |s| >= 1
  {
    if n < 10 then [DIGITS[n]] else Digits(n / 10) + [DIGITS[n % 10]]
  }

  /** Zero-padding on the left, to at least `width` characters. */
  function Padded(s: string, width: nat): (r: string)
    ensures |r| == if |s| >= width then |s| else width
    decreases width - |s|
  {
    if |s| >= width then s else Padded("0" + s, width)
  }

  /** `str(n)`. */
  function Text(n: int): string {
    if n < 0 then "-" + Digits(-n) else Digits(n)
  }

  /** The number a string of digits stands for. */
  ghost function Value(s: string): int {
    if s == "" then 0 else 10 * Value(s[..|s| - 1]) + DigitValue(s[|s| - 1])
  }

  function DigitValue(c: char): int {
    c as int - '0' as int
  }

  lemma {:induction false} ValueOfDigits(n: nat)
    ensures Value(Digits(n)) == n
  {
    DigitValues(n % 10);
    if n < 10 {
      assert Digits(n)[..0] == "";
    } else {
      ValueOfDigits(n / 10);
      assert Digits(n)[..|Digits(n)| - 1] == Digits(n / 10);
    }
  }

  lemma DigitValues(d: nat)
    requires d < 10
    ensures DigitValue(DIGITS[d]) == d
  {
  }

  lemma {:induction false} ValueOfZeroPrefix(s: string)
    ensures Value("0" + s) == Value(s)
  {
    var t := "0" + s;
    if s == "" {
      assert t[..0] == "";
    } else {
      assert t[..|t| - 1] == "0" + s[..|s| - 1];
      ValueOfZeroPrefix(s[..|s| - 1]);
    }
  }

  lemma {:induction false} ValueOfPadded(s: string, width: nat)
    ensures Value(Padded(s, width)) == Value(s)
    decreases width - |s|
  {
    if |s| < width {
      ValueOfZeroPrefix(s);
      ValueOfPadded("0" + s, width);
    }
  }

  /** Only decimal digits, with no leading zero but the zero of 0. */
  ghost predicate Numeral(s: string) {
    && s != ""
    && (forall c :: c in s ==> '0' <= c <= '9')
    && (|s| > 1 ==> s[0] != '0')
  }

  lemma {:induction false} DigitsShape(n: nat)
    ensures Numeral(Digits(n))
    ensures Digits(n) == "0" <==> n == 0
  {
    if n >= 10 {
      DigitsShape(n / 10);
      assert Digits(n)[0] == Digits(n / 10)[0];
    }
  }

  /** Padding adds zeros on the left, and only up to the width. */
  lemma {:induction false} PaddedShape(n: nat, width: nat)
    ensures forall c :: c in Padded(Digits(n), width) ==> '0' <= c <= '9'
    ensures |Padded(Digits(n), width)| > width ==> Padded(Digits(n), width) == Digits(n)
    ensures |Padded(Digits(n), width)| > width && width > 0 ==> Padded(Digits(n), width)[0] != '0'
  {
    DigitsShape(n);
    PaddedDigits(Digits(n), width);
  }

  lemma {:induction false} PaddedDigits(s: string, width: nat)
    requires forall c :: c in s ==> '0' <= c <= '9'
    ensures forall c :: c in Padded(s, width) ==> '0' <= c <= '9'
    decreases width - |s|
  {
    if |s| < width {
      PaddedDigits("0" + s, width);
    }
  }

  /** A minus sign, and then the digits of the absolute value. */
  lemma TextShape(n: int)
    ensures var s := Text(n);
            && (n < 0 ==> s[0] == '-' && Numeral(s[1..]) && Value(s[1..]) == -n)
            && (n >= 0 ==> Numeral(s) && Value(s) == n)
  {
    var m := if n < 0 then -n else n;
    DigitsShape(m);
    ValueOfDigits(m);
  }

  /** Different numbers are rendered differently, at any padding. */
  lemma {:induction false} PaddedDigitsInjective(m: nat, n: nat, width: nat)
    requires Padded(Digits(m), width) == Padded(Digits(n), width)
    ensures m == n
  {
    ValueOfPadded(Digits(m), width);
    ValueOfPadded(Digits(n), width);
    ValueOfDigits(m);
    ValueOfDigits(n);
  }

  /** Five decimal digits are enough exactly below one hundred thousand. */
  lemma {:induction false} FiveDigits(n: nat)
    ensures |Padded(Digits(n), 5)| == 5 <==> n <= 99_999
  {
    DigitCount(n);
  }

  lemma {:induction false} DigitCount(n: nat)
    ensures |Digits(n)| <= 5 <==> n <= 99_999
  {
    var a := n / 10;
    var b := a / 10;
    var c := b / 10;
    var d := c / 10;
    if n >= 10 {
      assert |Digits(n)| == |Digits(a)| + 1;
      if a >= 10 {
        assert |Digits(a)| == |Digits(b)| + 1;
        if b >= 10 {
          assert |Digits(b)| == |Digits(c)| + 1;
          if c >= 10 {
            assert |Digits(c)| == |Digits(d)| + 1;
          }
        }
      }
    }
  }
}
