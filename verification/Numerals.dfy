/** Reading back the decimal numerals that Go writes. */
module Numerals {
  import opened Text

  const DIGITS := "0123456789"

  /** The numeral of a number, as `strconv.Itoa` writes it. */
  function Decimal(n: nat): (s: string)
    ensures s != ""
  {
    if n < 10 then [DIGITS[n]] else Decimal(n / 10) + [DIGITS[n % 10]]
  }

  lemma {:induction false} DigitAt(k: nat)
    requires k < 10
    ensures DIGITS[k] == '0' + k as char && IsDigit(DIGITS[k]) && (DIGITS[k] - '0') as int == k
  {
  }

  lemma {:induction false} DigitsAreDigits(c: char)
    ensures IsDigit(c) <==> c in DIGITS
  {
    if IsDigit(c) {
      DigitAt((c - '0') as int);
      assert DIGITS[(c - '0') as int] == c;
    }
    if c in DIGITS {
      var k :| 0 <= k < |DIGITS| && DIGITS[k] == c;
      DigitAt(k);
    }
  }

  /** Every numeral is read as its number. */
  lemma {:induction false} DecimalIsRead(n: nat)
    ensures AllDigits(Decimal(n)) && DigitsValue(Decimal(n)) == n
  {
    if n < 10 {
      DigitAt(n);
      assert Decimal(n)[..0] == "";
      assert DigitsValue("") == 0;
    } else {
      DecimalIsRead(n / 10);
      DigitAt(n % 10);
      var front, last := Decimal(n / 10), DIGITS[n % 10];
      assert Decimal(n) == front + [last] && Decimal(n)[..|front|] == front;
    }
  }

  /** Exactly the numbers of 64 bits can be read back, with or without a sign. */
  lemma {:induction false} NumbersAreRead(n: int)
    requires n >= 0
    ensures ParseInt64(Decimal(n)) == if n <= 9223372036854775807 then Ok(n) else Err(Decimal(n))
    ensures ParseInt64("+" + Decimal(n)) == if n <= 9223372036854775807 then Ok(n) else Err("+" + Decimal(n))
    ensures ParseInt64("-" + Decimal(n)) == if n <= 9223372036854775808 then Ok(-n) else Err("-" + Decimal(n))
  {
    DecimalIsRead(n);
    UnsignedIsRead(Decimal(n));
    SignedIsRead(Decimal(n));
  }

  lemma {:induction false} UnsignedIsRead(digits: string)
    requires digits != "" && AllDigits(digits)
    ensures ParseInt64(digits) ==
            if DigitsValue(digits) <= 9223372036854775807 then Ok(DigitsValue(digits)) else Err(digits)
  {
    assert IsDigit(digits[0]);
  }

  lemma {:induction false} SignedIsRead(digits: string)
    requires digits != "" && AllDigits(digits)
    ensures var n: int := DigitsValue(digits);
            && ParseInt64("+" + digits) == (if n <= 9223372036854775807 then Ok(n) else Err("+" + digits))
            && ParseInt64("-" + digits) == (if n <= 9223372036854775808 then Ok(-n) else Err("-" + digits))
  {
    assert ("+" + digits)[1..] == digits && ("-" + digits)[1..] == digits;
  }

  /** Nothing, or a sign, before at least one digit, and only digits. */
  ghost predicate IsNumeral(s: string) {
    exists sign, digits :: sign in {"", "+", "-"} && SignedDigits(s, sign, digits)
  }

  ghost predicate SignedDigits(s: string, sign: string, digits: string) {
    s == sign + digits && digits != "" && forall c :: c in digits ==> c in DIGITS
  }

  /** Text that is not a numeral is an error. */
  lemma {:induction false} OnlyNumeralsAreRead(s: string)
    ensures ParseInt64(s).Ok? ==> IsNumeral(s)
  {
    if ParseInt64(s).Ok? {
      var signed := s != "" && (s[0] == '+' || s[0] == '-');
      var sign, digits := if signed then s[..1] else "", if signed then s[1..] else s;
      assert AllDigits(digits);
      forall c | c in digits ensures c in DIGITS { DigitsAreDigits(c); }
      assert signed ==> sign == [s[0]];
      assert s == sign + digits;
      assert sign in {"", "+", "-"} && SignedDigits(s, sign, digits);
    }
  }

  /** A numeral is only refused for its size: a digit string that does not overflow is read, leading zeros
      included. */
  lemma {:induction false} NumeralsAreRead(digits: string)
    requires digits != "" && AllDigits(digits)
    ensures ParseInt64(digits).Ok? <==> DigitsValue(digits) <= 9223372036854775807
    ensures ParseInt64(digits).Ok? ==> ParseInt64(digits).value == DigitsValue(digits)
  {
    UnsignedIsRead(digits);
  }

  lemma {:induction false} NoNumeral()
    ensures ParseInt64("1a").Err? && ParseInt64("").Err?
  {
    assert !IsDigit("1a"[1]);
  }
}
