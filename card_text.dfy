/** `GamePlayHelpers.CardValueToString`: the text of a card value, a letter
    for the face cards and the ace and the decimal number otherwise. */
module CardText {

  import opened Wrappers

  predicate IsDigit(c: char)
  {
    '0' <= c <= '9'
  }

  predicate AllDigits(s: string)
  {
    forall i :: 0 <= i < |s| ==> IsDigit(s[i])
  }

  function DigitChar(d: int): (c: char)
    requires 0 <= d <= 9
    ensures IsDigit(c)
  {
    ('0' as int + d) as char
  }

  function DigitValue(c: char): (d: int)
    requires IsDigit(c)
    ensures 0 <= d <= 9
  {
    c as int - '0' as int
  }

  /** The decimal digits of `n`, most significant first, with no leading
      zero. */
  function Decimal(n: nat): (s: string)
    ensures |s| >= 1 && AllDigits(s)
    ensures |s| > 1 ==> s[0] != '0'
  {
    if n < 10 then [DigitChar(n)] else Decimal(n / 10) + [DigitChar(n % 10)]
  }

  /** `int.ToString()`: a minus sign before the digits of a negative value. */
  function IntToString(v: int): (s: string)
    ensures |s| >= 1
    ensures v >= 0 ==> AllDigits(s)
    ensures v < 0 ==> s[0] == '-' && |s| >= 2 && AllDigits(s[1..])
  {
    if v < 0 then "-" + Decimal(-v) else Decimal(v)
  }

  function CardValueToString(value: int): (s: string)
    ensures 11 <= value <= 14 ==> |s| == 1 && s[0] == "JQKA"[value - 11]
    ensures !(11 <= value <= 14) ==> |s| >= 1 && (IsDigit(s[0]) || s[0] == '-')
  {
    match value
    case 11 => "J"
    case 12 => "Q"
    case 13 => "K"
    case 14 => "A"
    case _ => IntToString(value)
  }

  /** Reading digits back: the inverse of `Decimal`. */
  function ParseDecimal(s: string): (n: nat)
    requires |s| >= 1 && AllDigits(s)
  {
    if |s| == 1 then DigitValue(s[0])
    else ParseDecimal(s[..|s| - 1]) * 10 + DigitValue(s[|s| - 1])
  }

  /** Reading a card value back from its text. */
  function ParseCardValue(s: string): (r: Option<int>)
  {
    if s == "J" then Some(11)
    else if s == "Q" then Some(12)
    else if s == "K" then Some(13)
    else if s == "A" then Some(14)
    else if |s| >= 2 && s[0] == '-' && AllDigits(s[1..]) then Some(-(ParseDecimal(s[1..]) as int))
    else if |s| >= 1 && AllDigits(s) then Some(ParseDecimal(s))
    else None
  }

  lemma {:induction false} DecimalRoundTrip(n: nat)
    ensures ParseDecimal(Decimal(n)) == n
  {
    if n >= 10 {
      DecimalRoundTrip(n / 10);
      var s := Decimal(n);
      assert s[..|s| - 1] == Decimal(n / 10);
    }
  }

  /** The text of every value reads back as that value, so no two values
      share a text. */
  lemma CardValueRoundTrip(value: int)
    ensures ParseCardValue(CardValueToString(value)) == Some(value)
  {
    if value < 0 {
      NegativeTextRoundTrip(-value);
    } else if !(11 <= value <= 14) {
      assert CardValueToString(value) == Decimal(value);
      DigitsTextRoundTrip(value);
    }
  }

  lemma NegativeTextRoundTrip(n: nat)
    requires n > 0
    ensures ParseCardValue("-" + Decimal(n)) == Some(-(n as int))
  {
    var s := "-" + Decimal(n);
    assert |s| >= 2 && s[0] == '-' && s[1..] == Decimal(n);
    DecimalRoundTrip(n);
  }

  lemma DigitsTextRoundTrip(n: nat)
    ensures ParseCardValue(Decimal(n)) == Some(n)
  {
    var s := Decimal(n);
    assert IsDigit(s[0]);
    assert s != "J" && s != "Q" && s != "K" && s != "A";
    DecimalRoundTrip(n);
  }

  lemma CardValueToStringInjective(a: int, b: int)
    requires CardValueToString(a) == CardValueToString(b)
    ensures a == b
  {
    CardValueRoundTrip(a);
    CardValueRoundTrip(b);
  }
}
