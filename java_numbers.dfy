/**
 * The Java number handling the client relies on: the widths of int and long,
 * String.format("%d"), Long.valueOf / Integer.valueOf and Long.intValue().
 */
module JavaNumbers {
  import opened Outcomes

  /** Java's int. */
  type int32 = x: int | -0x8000_0000 <= x < 0x8000_0000
  /** Java's long. */
  type int64 = x: int | -0x8000_0000_0000_0000 <= x < 0x8000_0000_0000_0000

  /** Long.intValue(): keeps the low 32 bits and reads them as a two's-complement int. */
  function IntValue(v: int64): (r: int32)
    ensures -0x8000_0000 <= v < 0x8000_0000 ==> r == v
    ensures (v - r) % 0x1_0000_0000 == 0
  {
    var low := (v + 0x8000_0000) % 0x1_0000_0000;
    assert v + 0x8000_0000 == (v + 0x8000_0000) / 0x1_0000_0000 * 0x1_0000_0000 + low;
    low - 0x8000_0000
  }

  predicate IsDigit(c: char) { '0' <= c <= '9' }

  predicate AllDigits(s: string) { forall i :: 0 <= i < |s| ==> IsDigit(s[i]) }

  function DigitValue(c: char): nat
    requires IsDigit(c)
  {
    c as int - '0' as int
  }

  function DigitChar(d: nat): (c: char)
    requires d < 10
    ensures IsDigit(c) && DigitValue(c) == d
  {
    "0123456789"[d]
  }

  /** The value of a string of decimal digits, most significant first. */
  function DigitsValue(s: string): (r: nat)
    requires AllDigits(s)
  {
    if s == [] then 0 else DigitsValue(s[..|s| - 1]) * 10 + DigitValue(s[|s| - 1])
  }

  /** The decimal digits of n, most significant first. */
  function Digits(n: nat): (s: string)
    ensures |s| > 0 && AllDigits(s)
    ensures DigitsValue(s) == n
  {
    if n < 10 then [DigitChar(n)]
    else
      var s := Digits(n / 10) + [DigitChar(n % 10)];
      assert s[..|s| - 1] == Digits(n / 10);
      s
  }

  /** String.format("%d", n): an optional minus sign and the digits of |n|. */
  function Decimal(n: int): (s: string)
    ensures |s| > 0
  {
    if n < 0 then "-" + Digits(-n) else Digits(n)
  }

  /** What %d writes is a minus sign and digits, nothing else. */
  lemma DecimalChars(n: int)
    ensures forall i :: 0 <= i < |Decimal(n)| ==> Decimal(n)[i] == '-' || IsDigit(Decimal(n)[i])
  {
  }

  /**
   * What Long.parseLong and Integer.parseInt accept, before their range check:
   * an optional '-' or '+' followed by at least one decimal digit.
   */
  function ParseInteger(s: string): (r: Option<int>)
  {
    if |s| > 1 && (s[0] == '-' || s[0] == '+') && AllDigits(s[1..]) then
      Some(if s[0] == '-' then -(DigitsValue(s[1..]) as int) else DigitsValue(s[1..]))
    else if |s| > 0 && AllDigits(s) then
      Some(DigitsValue(s))
    else
      None
  }

  /** Long.valueOf(s); None stands for the NumberFormatException it raises. */
  function ParseLong(s: string): (r: Option<int64>)
    ensures r.Some? <==> ParseInteger(s).Some? && -0x8000_0000_0000_0000 <= ParseInteger(s).value < 0x8000_0000_0000_0000
    ensures r.Some? ==> ParseInteger(s) == Some(r.value as int)
  {
    match ParseInteger(s)
    case Some(v) => if -0x8000_0000_0000_0000 <= v < 0x8000_0000_0000_0000 then Some(v) else None
    case None => None
  }

  /** Integer.valueOf(s); None stands for the NumberFormatException it raises. */
  function ParseInt(s: string): (r: Option<int32>)
    ensures r.Some? <==> ParseInteger(s).Some? && -0x8000_0000 <= ParseInteger(s).value < 0x8000_0000
    ensures r.Some? ==> ParseInteger(s) == Some(r.value as int)
  {
    match ParseInteger(s)
    case Some(v) => if -0x8000_0000 <= v < 0x8000_0000 then Some(v) else None
    case None => None
  }

  /** Reading back what %d formats gives the number formatted, for every integer. */
  lemma DecimalRoundTrip(n: int)
    ensures ParseInteger(Decimal(n)) == Some(n)
  {
    if n < 0 {
      assert Decimal(n)[1..] == Digits(-n);
    }
  }

  /** Formatting a long with %d and reading it back with Long.valueOf gives the same long. */
  lemma LongRoundTrip(n: int64)
    ensures ParseLong(Decimal(n)) == Some(n)
  {
    DecimalRoundTrip(n);
  }

  /** The same for an int with Integer.valueOf. */
  lemma IntRoundTrip(n: int32)
    ensures ParseInt(Decimal(n)) == Some(n)
  {
    DecimalRoundTrip(n);
  }
}
