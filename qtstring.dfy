/** Decimal text of integers, as QString::number (int) writes it and as
    QVariant::toString () renders an int property. The uid index keys items
    by this text, and the demo controller builds page and item names with it. */
module QtString {

  /** The character of the decimal digit d. */
  function Digit(d: int): (c: char)
    requires 0 <= d < 10
    ensures '0' <= c <= '9'
  {
    (('0' as int) + d) as char
  }

  /** The numeric value of a digit character. */
  function DigitValue(c: char): (d: int)
    ensures '0' <= c <= '9' ==> 0 <= d < 10 && Digit(d) == c
  {
    (c as int) - ('0' as int)
  }

  /** The decimal digits of n, most significant first, without leading zeros. */
  function Decimal(n: nat): (s: string)
    ensures |s| >= 1
    ensures forall i :: 0 <= i < |s| ==> '0' <= s[i] <= '9'
    ensures |s| > 1 ==> s[0] != '0'
    decreases n
  {
    if n < 10 then [Digit(n)] else Decimal(n / 10) + [Digit(n % 10)]
  }

  /** QString::number (i): a '-' before the digits of a negative value. */
  function Number(i: int): (s: string)
    ensures s != ""
    ensures i < 0 <==> s[0] == '-'
  {
    if i < 0 then "-" + Decimal(-i) else Decimal(i)
  }

  /** Reads a string of decimal digits back as a number. */
  function ParseDecimal(s: string): (n: int)
    ensures (forall i :: 0 <= i < |s| ==> '0' <= s[i] <= '9') ==> n >= 0
  {
    if s == [] then 0 else ParseDecimal(s[..|s| - 1]) * 10 + DigitValue(s[|s| - 1])
  }

  /** Reads the text of Number back, sign included. */
  function ParseNumber(s: string): (n: int)
    ensures (forall i :: 0 <= i < |s| ==> '0' <= s[i] <= '9') ==> n >= 0
    ensures |s| > 0 && s[0] == '-' && (forall i :: 1 <= i < |s| ==> '0' <= s[i] <= '9') ==> n <= 0
  {
    if s != [] && s[0] == '-' then -ParseDecimal(s[1..]) else ParseDecimal(s)
  }

  lemma {:induction false} DecimalRoundTrip(n: nat)
    ensures ParseDecimal(Decimal(n)) == n
    decreases n
  {
    if n >= 10 {
      var s := Decimal(n);
      assert s[..|s| - 1] == Decimal(n / 10);
      DecimalRoundTrip(n / 10);
    }
  }

  /** Number loses nothing: its text reads back as the same integer. */
  lemma NumberRoundTrip(i: int)
    ensures ParseNumber(Number(i)) == i
  {
    if i < 0 {
      var d := Decimal(-i);
      assert Number(i) == "-" + d;
      assert ("-" + d)[0] == '-' && ("-" + d)[1..] == d;
      DecimalRoundTrip(-i);
    } else {
      DecimalRoundTrip(i);
    }
  }

  /** Distinct integers have distinct texts. */
  lemma NumberInjective(a: int, b: int)
    requires Number(a) == Number(b)
    ensures a == b
  {
    NumberRoundTrip(a);
    NumberRoundTrip(b);
  }
}
