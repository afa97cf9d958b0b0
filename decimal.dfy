/** Python's `str(int(v))` for an integer pixel value: base-ten digits with
    no leading zero, preceded by `-` when the value is negative. The parser
    beside it is the partner that shows the rendering loses nothing. */
module Decimal {

  predicate IsDigit(ch: char)
  {
    '0' <= ch <= '9'
  }

  predicate AllDigits(s: string)
  {
    forall i :: 0 <= i < |s| ==> IsDigit(s[i])
  }

  function DigitChar(d: int): (ch: char)
    requires 0 <= d <= 9
    ensures IsDigit(ch)
  {
    ('0' as int + d) as char
  }

  function DigitValue(ch: char): (d: int)
    requires IsDigit(ch)
    ensures 0 <= d <= 9 && DigitChar(d) == ch
  {
    ch as int - '0' as int
  }

  /** The digits of a natural number, most significant first. */
  function NatToDecimal(v: nat): (s: string)
    ensures |s| >= 1 && AllDigits(s)
    ensures s[0] == '0' <==> v == 0
    ensures |s| == 1 <==> v <= 9
    decreases v
  {
    if v <= 9 then [DigitChar(v)] else NatToDecimal(v / 10) + [DigitChar(v % 10)]
  }

  /** `str(v)` for a Python integer. */
  function IntToDecimal(v: int): (s: string)
    ensures |s| >= 1
    ensures |s| == 1 <==> 0 <= v <= 9
    ensures |s| == 1 ==> s[0] == DigitChar(v)
    ensures s[0] == '-' <==> v < 0
    ensures v >= 0 ==> AllDigits(s) && (s[0] == '0' ==> v == 0)
    ensures v < 0 ==> |s| >= 2 && AllDigits(s[1..]) && s[1] != '0'
  {
    if v < 0 then "-" + NatToDecimal(-v) else NatToDecimal(v)
  }

  /** The value of a string of digits. */
  function NatValue(s: string): nat
    requires AllDigits(s)
  {
    if s == [] then 0 else NatValue(s[..|s| - 1]) * 10 + DigitValue(s[|s| - 1])
  }

  /** What `str(int)` can produce: an optional minus sign, then at least one
      digit. */
  predicate IsDecimalText(s: string)
  {
    if |s| >= 1 && s[0] == '-' then |s| >= 2 && AllDigits(s[1..]) else |s| >= 1 && AllDigits(s)
  }

  /** `int(s)` for a string `str(int)` can produce. */
  function DecimalValue(s: string): int
    requires IsDecimalText(s)
  {
    if s[0] == '-' then -(NatValue(s[1..]) as int) else NatValue(s)
  }

  lemma {:induction false} NatRoundTrip(v: nat)
    ensures NatValue(NatToDecimal(v)) == v
    decreases v
  {
    if v > 9 {
      var s := NatToDecimal(v);
      var init := NatToDecimal(v / 10);
      assert s[..|s| - 1] == init;
      NatRoundTrip(v / 10);
    }
  }

  /** Rendering a pixel value and reading it back gives the value again, so
      distinct values never print alike. */
  lemma IntRoundTrip(v: int)
    ensures IsDecimalText(IntToDecimal(v))
    ensures DecimalValue(IntToDecimal(v)) == v
  {
    var s := IntToDecimal(v);
    if v < 0 {
      var digits := NatToDecimal(-v);
      assert s == "-" + digits;
      assert s[1..] == digits;
      NatRoundTrip(-v);
    } else {
      assert s == NatToDecimal(v);
      NatRoundTrip(v);
    }
  }
}
