/** `str(int)` and `bytes.hex()`, with their inverses. */
module Rendering {
  import opened Bytes

  function Digit(n: nat): (c: char)
    requires n < 16
    ensures n < 10 ==> '0' <= c <= '9'
    ensures n >= 10 ==> 'a' <= c <= 'f'
  {
    if n < 10 then ('0' as int + n) as char else ('a' as int + n - 10) as char
  }

  function DigitValue(c: char): (n: nat)
    ensures n < 16
  {
    if '0' <= c <= '9' then c as int - '0' as int
    else if 'a' <= c <= 'f' then c as int - 'a' as int + 10
    else 0
  }

  function Digits(n: nat): (s: string)
    ensures s != "" && '0' <= s[0] <= '9'
  {
    if n < 10 then [Digit(n)] else Digits(n / 10) + [Digit(n % 10)]
  }

  /** `str(i)`. */
  function Decimal(i: int): (s: string)
    ensures s != "" && (s[0] == '-' || '0' <= s[0] <= '9')
  {
    if i < 0 then "-" + Digits(-i) else Digits(i)
  }

  function DigitsValue(s: string): nat {
    if s == "" then 0 else 10 * DigitsValue(s[..|s| - 1]) + DigitValue(s[|s| - 1])
  }

  function DecimalValue(s: string): int {
    if s != "" && s[0] == '-' then 0 - DigitsValue(s[1..]) as int else DigitsValue(s)
  }

  /** `bs.hex()`: two lower-case digits a byte. */
  function Hex(bs: seq<byte>): (s: string)
    ensures |s| == 2 * |bs|
  {
    if bs == [] then "" else [Digit(bs[0] / 16), Digit(bs[0] % 16)] + Hex(bs[1..])
  }

  function HexValue(s: string): seq<byte> {
    if |s| < 2 then [] else [16 * DigitValue(s[0]) + DigitValue(s[1])] + HexValue(s[2..])
  }

  lemma {:induction false} DigitsRoundTrip(n: nat)
    ensures DigitsValue(Digits(n)) == n
  {
    if n >= 10 {
      DigitsRoundTrip(n / 10);
      assert Digits(n)[..|Digits(n)| - 1] == Digits(n / 10);
    } else {
      assert Digits(n)[..0] == "";
    }
  }

  lemma DecimalRoundTrip(i: int)
    ensures DecimalValue(Decimal(i)) == i
  {
    DigitsRoundTrip(if i < 0 then -i else i);
    if i < 0 {
      assert Decimal(i)[1..] == Digits(-i);
    }
  }

  lemma {:induction false} HexRoundTrip(bs: seq<byte>)
    ensures HexValue(Hex(bs)) == bs
  {
    if bs != [] {
      assert Hex(bs)[2..] == Hex(bs[1..]);
      HexRoundTrip(bs[1..]);
    }
  }

  predicate IsDecimalDigit(c: char) {
    '0' <= c <= '9'
  }

  lemma {:induction false} DigitsCanonical(n: nat)
    ensures forall c | c in Digits(n) :: IsDecimalDigit(c)
    ensures |Digits(n)| > 1 ==> Digits(n)[0] != '0'
    ensures n > 0 ==> Digits(n)[0] != '0'
  {
    if n >= 10 {
      DigitsCanonical(n / 10);
      assert Digits(n)[0] == Digits(n / 10)[0];
    }
  }

  /** A minus sign for negative numbers only, then decimal digits without a leading zero. */
  lemma DecimalIsCanonical(i: int)
    ensures var s := Decimal(i); var digits := if i < 0 then s[1..] else s;
            && (i < 0 ==> s[0] == '-')
            && digits != "" && (forall c | c in digits :: IsDecimalDigit(c))
            && (digits[0] == '0' ==> i == 0 && digits == "0")
  {
    DigitsCanonical(if i < 0 then -i else i);
    if i < 0 { assert Decimal(i)[1..] == Digits(-i); }
  }

  lemma {:induction false} HexIsLowerCase(bs: seq<byte>)
    ensures forall c | c in Hex(bs) :: IsDecimalDigit(c) || 'a' <= c <= 'f'
  {
    if bs != [] { HexIsLowerCase(bs[1..]); }
  }
}
