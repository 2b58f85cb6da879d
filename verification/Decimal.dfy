/** Decimal numbers as the standard library prints and parses them. */
module Decimal {
  import opened Bytes

  predicate IsDigit(c: char) {
    '0' <= c <= '9'
  }

  function Digit(d: nat): (c: char)
    requires d < 10
    ensures IsDigit(c) && Value(c) == d
  {
    ('0' as int + d) as char
  }

  function Value(c: char): (d: nat)
    requires IsDigit(c)
    ensures d < 10
  {
    c as int - '0' as int
  }

  function Digits(n: nat): (s: string)
    ensures |s| > 0 && forall i | 0 <= i < |s| :: IsDigit(s[i])
  {
    if n < 10 then [Digit(n)] else Digits(n / 10) + [Digit(n % 10)]
  }

  function Print(v: int): (s: string)
    ensures |s| > 0
  {
    if v < 0 then "-" + Digits(-v) else Digits(v)
  }

  /** The value of a non-empty string of digits. */
  function ParseDigits(s: string): (v: Option<int>)
    ensures v.Some? ==> v.value >= 0
  {
    if s == "" then None
    else if |s| == 1 then (if IsDigit(s[0]) then Some(Value(s[0])) else None)
    else
      var front := ParseDigits(s[..|s| - 1]);
      var last := s[|s| - 1];
      if front.Some? && IsDigit(last) then Some(10 * front.value + Value(last)) else None
  }

  function InRange(v: Option<int>, lo: int, hi: int): Option<int> {
    if v.Some? && lo <= v.value <= hi then v else None
  }

  /** `str::parse` for an integer type with the given range: an optional plus sign,
      a minus sign only for a signed type, then at least one digit. */
  function Parse(s: string, signed: bool, lo: int, hi: int): (v: Option<int>)
    ensures v.Some? ==> lo <= v.value <= hi
  {
    if s == "" then None
    else if s[0] == '+' then InRange(ParseDigits(s[1..]), lo, hi)
    else if s[0] == '-' && signed then
      var d := ParseDigits(s[1..]);
      InRange(if d.Some? then Some(-d.value) else None, lo, hi)
    else InRange(ParseDigits(s), lo, hi)
  }

  function ParseU16(s: string): (v: Option<int>)
    ensures v.Some? ==> 0 <= v.value < 0x1_0000
  {
    Parse(s, false, 0, 0xFFFF)
  }

  function ParseI32(s: string): Option<int> {
    Parse(s, true, -0x8000_0000, 0x7FFF_FFFF)
  }

  function ParseI64(s: string): Option<int> {
    Parse(s, true, -0x8000_0000_0000_0000, 0x7FFF_FFFF_FFFF_FFFF)
  }

  lemma {:induction false} ParseDigitsOfDigits(n: nat)
    ensures ParseDigits(Digits(n)) == Some(n)
  {
    if n >= 10 {
      ParseDigitsOfDigits(n / 10);
      var s := Digits(n);
      assert s[..|s| - 1] == Digits(n / 10) && s[|s| - 1] == Digit(n % 10);
    }
  }

  /** Parsing what was printed gives the number back. */
  lemma ParseOfPrint(v: int, signed: bool, lo: int, hi: int)
    requires lo <= v <= hi && (v < 0 ==> signed)
    ensures Parse(Print(v), signed, lo, hi) == Some(v)
  {
    if v < 0 {
      ParseDigitsOfDigits(-v);
      assert Print(v)[1..] == Digits(-v);
    } else {
      ParseDigitsOfDigits(v);
      assert IsDigit(Digits(v)[0]);
    }
  }

  /** Whether a printed number parses is only a matter of sign and range. */
  lemma ParsePrinted(v: int, signed: bool, lo: int, hi: int)
    ensures Parse(Print(v), signed, lo, hi) == if v < 0 && !signed then None else InRange(Some(v), lo, hi)
  {
    if v < 0 {
      ParseSigned(-v, signed, lo, hi);
    } else {
      ParseDigitsOfDigits(v);
      assert IsDigit(Digits(v)[0]);
    }
  }

  /** The ten digits. */
  lemma DigitChars()
    ensures Digit(0) == '0' && Digit(1) == '1' && Digit(2) == '2' && Digit(3) == '3' && Digit(4) == '4'
    ensures Digit(5) == '5' && Digit(6) == '6' && Digit(7) == '7' && Digit(8) == '8' && Digit(9) == '9'
    ensures forall c | IsDigit(c) :: Digit(Value(c)) == c
  {
  }

  /** The least significant digit comes last. */
  lemma {:induction false} DigitsAt(n: nat, i: nat)
    requires i < |Digits(n)|
    ensures Digits(n)[|Digits(n)| - 1 - i] == Digit(n / Pow10(i) % 10)
    decreases n
  {
    if n >= 10 {
      if i > 0 {
        DigitsAt(n / 10, i - 1);
        DivideTwice(n, 10, Pow10(i - 1));
      }
    }
  }

  /** No zeros in front. */
  lemma {:induction false} NoLeadingZero(n: nat)
    requires n > 0
    ensures Digits(n)[0] != '0'
  {
    if n >= 10 {
      NoLeadingZero(n / 10);
    }
  }

  /** Exactly the non-empty strings of digits have a value. */
  lemma {:induction false} ParseDigitsIff(s: string)
    ensures ParseDigits(s).Some? <==> s != "" && forall i | 0 <= i < |s| :: IsDigit(s[i])
    decreases |s|
  {
    if |s| > 1 {
      ParseDigitsIff(s[..|s| - 1]);
      assert forall i | 0 <= i < |s| - 1 :: s[..|s| - 1][i] == s[i];
    }
  }

  /** Digits in front count for more, by the number of those that follow. */
  lemma {:induction false} ParseDigitsAppend(a: string, b: string)
    requires ParseDigits(a).Some? && ParseDigits(b).Some?
    ensures ParseDigits(a + b) == Some(ParseDigits(a).value * Pow10(|b|) + ParseDigits(b).value)
    decreases |b|
  {
    var s := a + b;
    assert s[|s| - 1] == b[|b| - 1];
    if |b| == 1 {
      assert s[..|s| - 1] == a;
      assert Pow10(1) == 10 * Pow10(0);
    } else {
      var front := b[..|b| - 1];
      assert s[..|s| - 1] == a + front;
      ParseDigitsAppend(a, front);
      Scale10(ParseDigits(a).value, Pow10(|front|), ParseDigits(front).value, Value(b[|b| - 1]));
    }
  }

  lemma Scale10(a: int, p: int, b: int, x: int)
    ensures 10 * (a * p + b) + x == a * (10 * p) + (10 * b + x)
  {
  }

  /** Signs: a plus is always allowed, a minus only for a signed type. */
  lemma ParseSigned(n: int, signed: bool, lo: int, hi: int)
    requires n >= 0
    ensures Parse("+" + Digits(n), signed, lo, hi) == InRange(Some(n), lo, hi)
    ensures Parse("-" + Digits(n), signed, lo, hi) == if signed then InRange(Some(-n), lo, hi) else None
  {
    ParseDigitsOfDigits(n);
    var p, m := "+" + Digits(n), "-" + Digits(n);
    assert p[1..] == Digits(n) && m[1..] == Digits(n);
    ParseDigitsIff(m);
    assert !IsDigit(m[0]);
  }

  /** A number below a power of ten has at most that many digits. */
  lemma {:induction false} DigitCount(n: nat, width: nat, bound: nat)
    requires width > 0 && n < bound && bound == Pow10(width)
    ensures |Digits(n)| <= width
    decreases width
  {
    if n >= 10 {
      DigitCount(n / 10, width - 1, Pow10(width - 1));
    }
  }

  function Pow10(n: nat): (r: nat)
    ensures r > 0
  {
    if n == 0 then 1 else 10 * Pow10(n - 1)
  }
}
