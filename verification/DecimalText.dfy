/** Decimal numbers as Go prints them with %d and reads them with strconv. */
module DecimalText {
  import opened Options

  function Digit(n: nat): char
    requires n < 10
  {
    '0' + n as char
  }

  predicate IsDigit(c: char) {
    '0' <= c <= '9'
  }

  function DigitValue(c: char): nat
    requires IsDigit(c)
  {
    c as int - '0' as int
  }

  function Decimal(n: nat): (s: string)
    ensures s != "" && forall i :: 0 <= i < |s| ==> IsDigit(s[i])
  {
    if n < 10 then [Digit(n)] else Decimal(n / 10) + [Digit(n % 10)]
  }

  function SignedDecimal(n: int): string {
    if n < 0 then "-" + Decimal(-n) else Decimal(n)
  }

  function Value(s: string): nat
    requires forall i :: 0 <= i < |s| ==> IsDigit(s[i])
  {
    if s == "" then 0 else Value(s[..|s| - 1]) * 10 + DigitValue(s[|s| - 1])
  }

  predicate Numeral(s: string) {
    s != "" && forall i :: 0 <= i < |s| ==> IsDigit(s[i])
  }

  /** strconv.ParseUint in base 10: digits only, and within the width. */
  function ParseUint(s: string, bound: nat): Option<nat> {
    if Numeral(s) && Value(s) < bound then Some(Value(s)) else None
  }

  function Unsigned(s: string): string {
    if s != "" && (s[0] == '+' || s[0] == '-') then s[1..] else s
  }

  /** strconv.ParseInt in base 10 for 64 bits: one optional sign of either kind. */
  function ParseInt64(s: string): Option<int> {
    var digits := ParseUint(Unsigned(s), 0x1_0000_0000_0000_0000);
    if digits.None? then None
    else
      var size: int := digits.value;
      var n := if s[0] == '-' then -size else size;
      if -0x8000_0000_0000_0000 <= n < 0x8000_0000_0000_0000 then Some(n) else None
  }

  /** No superfluous leading zero. */
  predicate Plain(s: string) {
    |s| == 1 || (|s| > 1 && s[0] != '0')
  }

  lemma {:induction false} ValueOfDecimal(n: nat)
    ensures Value(Decimal(n)) == n && Plain(Decimal(n)) && (n > 0 ==> Decimal(n)[0] != '0')
  {
    if n >= 10 {
      ValueOfDecimal(n / 10);
      assert Decimal(n)[..|Decimal(n)| - 1] == Decimal(n / 10);
    } else {
      assert Decimal(n)[..0] == "";
    }
  }

  lemma {:induction false} PlainIsPositive(s: string)
    requires Numeral(s) && s[0] != '0'
    ensures Value(s) > 0
  {
    if |s| > 1 {
      PlainIsPositive(s[..|s| - 1]);
    } else {
      assert s[..0] == "";
    }
  }

  /** A numeral is what %d prints of its value exactly when it has no superfluous leading zero. */
  lemma {:induction false} PrintsBackExactlyWhenPlain(s: string)
    requires Numeral(s)
    ensures Decimal(Value(s)) == s <==> Plain(s)
  {
    ValueOfDecimal(Value(s));
    if Plain(s) {
      var front, last := s[..|s| - 1], DigitValue(s[|s| - 1]);
      if |s| == 1 {
        assert front == "";
      } else {
        PlainIsPositive(front);
        PrintsBackExactlyWhenPlain(front);
        assert Value(s) / 10 == Value(front) && Value(s) % 10 == last;
        assert Decimal(Value(s)) == front + [s[|s| - 1]] == s;
      }
    }
  }

  /** Printing and reading back, both widths. */
  lemma ReadsBack(n: nat, bound: nat)
    requires n < bound
    ensures ParseUint(Decimal(n), bound) == Some(n)
  {
    ValueOfDecimal(n);
  }

  lemma ReadsBackSigned(n: int)
    requires -0x8000_0000_0000_0000 <= n < 0x8000_0000_0000_0000
    ensures ParseInt64(SignedDecimal(n)) == Some(n)
  {
    hide Decimal, Value;
    if n < 0 {
      ValueOfDecimal(-n);
      assert SignedDecimal(n)[1..] == Decimal(-n);
    } else {
      ValueOfDecimal(n);
    }
  }

  /** A number as %d writes it: no plus sign, no leading zero, no negative zero. */
  predicate PlainSigned(s: string) {
    s != "" && s[0] != '+' && Plain(Unsigned(s)) && s != "-0"
  }

  lemma SignedPrintsBackExactlyWhenPlain(s: string)
    requires ParseInt64(s).Some?
    ensures SignedDecimal(ParseInt64(s).value) == s <==> PlainSigned(s)
  {
    hide Decimal, Value;
    var n := ParseInt64(s).value;
    var digits := Unsigned(s);
    PrintsBackExactlyWhenPlain(digits);
    ValueOfDecimal(if n < 0 then -n else n);
    if s[0] == '-' {
      assert s == "-" + digits;
      if n == 0 {
        ZeroDigits(digits);
      } else {
        assert SignedDecimal(n)[1..] == Decimal(-n);
      }
    }
  }

  /** Plain digits worth nothing are the digit zero. */
  lemma ZeroDigits(s: string)
    requires Numeral(s) && Value(s) == 0
    ensures Plain(s) <==> s == "0"
  {
    if Plain(s) {
      if s[0] != '0' {
        PlainIsPositive(s);
      }
    }
  }

  /** The digits are written most significant first. */
  lemma DigitsInOrder()
    ensures Decimal(0) == "0" && Decimal(1203) == "1203" && SignedDecimal(-1203) == "-1203"
  {
    assert Decimal(1) == "1";
    assert Decimal(12) == "12";
    assert Decimal(120) == "120";
  }
}
