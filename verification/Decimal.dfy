/** Integers written in decimal, as json_id and the attempt ids of the client write them. */
module Decimal {
  import opened Prelude

  function DigitChar(d: nat): (c: char)
    requires d < 10
    ensures IsDigit(c) && DigitValue(c) == d
  {
    "0123456789"[d]
  }

  predicate IsDigit(c: char) {
    '0' <= c <= '9'
  }

  function DigitValue(c: char): (d: nat)
    requires IsDigit(c)
    ensures d < 10
  {
    c as int - '0' as int
  }

  function Digits(n: nat): (s: string)
    ensures |s| > 0 && forall i :: 0 <= i < |s| ==> IsDigit(s[i])
  {
    if n < 10 then [DigitChar(n)] else Digits(n / 10) + [DigitChar(n % 10)]
  }

  /** i64::to_string */
  function Render(n: int): string {
    if n < 0 then "-" + Digits(-n) else Digits(n)
  }

  function ParseDigits(s: string): Option<nat> {
    if s == "" || !IsDigit(s[|s| - 1]) then None
    else if |s| == 1 then Some(DigitValue(s[0]))
    else
      match ParseDigits(s[..|s| - 1])
      case None => None
      case Some(n) => Some(10 * n + DigitValue(s[|s| - 1]))
  }

  /** str::parse::<i64>: an optional sign, then digits, within the range of i64. */
  function ParseI64(s: string): Option<int> {
    var negative := s != "" && s[0] == '-';
    var unsigned := if s != "" && (s[0] == '-' || s[0] == '+') then s[1..] else s;
    match ParseDigits(unsigned)
    case None => None
    case Some(n) =>
      var value: int := if negative then -(n as int) else n;
      if I64_MIN <= value <= I64_MAX then Some(value) else None
  }

  lemma {:induction false} ParseDigitsInverse(n: nat)
    ensures ParseDigits(Digits(n)) == Some(n)
  {
    if n >= 10 {
      ParseDigitsInverse(n / 10);
      assert Digits(n)[..|Digits(n)| - 1] == Digits(n / 10);
    }
  }

  /** Parsing reads back the decimal text of every 64-bit integer, and refuses that of any other. */
  lemma {:induction false} ParseInverse(n: int)
    ensures ParseI64(Render(n)) == if I64_MIN <= n <= I64_MAX then Some(n) else None
  {
    var digits := Digits(if n < 0 then -n else n);
    ParseDigitsInverse(if n < 0 then -n else n);
    assert IsDigit(digits[0]);
    assert n < 0 ==> Render(n)[1..] == digits;
  }

  /** The text is the short one: no zero in front, no sign but that of a negative number; a plus sign is read too. */
  lemma {:induction false} RenderIsShort(n: nat)
    ensures Digits(n)[0] == '0' <==> n == 0
    ensures Render(n) == Digits(n) && Render(0) == "0"
    ensures ParseI64("+" + Digits(n)) == ParseI64(Digits(n))
  {
    if n >= 10 {
      RenderIsShort(n / 10);
      assert Digits(n)[0] == Digits(n / 10)[0];
    }
    assert IsDigit(Digits(n)[0]);
    assert ("+" + Digits(n))[1..] == Digits(n);
  }
}
