/** The values a binding can hold and the default value formatter, `value => $"{value}"`. */
module Values {

  /**
   * A bound value. The source stores `object`; the model keeps the kinds its tests use:
   * null, strings, integers, booleans, and any other object through the text its `ToString` gives.
   */
  datatype Value =
    | Null
    | Text(text: string)
    | Integer(number: int)
    | Boolean(flag: bool)
    | Object(display: string)

  /** The character for a decimal digit. */
  function DigitChar(d: nat): char
    requires d < 10
  {
    "0123456789"[d]
  }

  /** The digit a decimal character stands for; -1 for any other character. */
  function DigitValue(c: char): int {
    if '0' <= c <= '9' then (c as int) - ('0' as int) else -1
  }

  /** The decimal digits of `n`, most significant first, without leading zeros. */
  function Digits(n: nat): (r: string)
    ensures |r| > 0 && forall k :: 0 <= k < |r| ==> '0' <= r[k] <= '9'
    decreases n
  {
    if n < 10 then [DigitChar(n)] else Digits(n / 10) + [DigitChar(n % 10)]
  }

  /** How an integer is rendered by string interpolation: an optional minus sign and its digits. */
  function DecimalString(i: int): string {
    if i < 0 then "-" + Digits(-i) else Digits(i)
  }

  /** Reads back a run of decimal digits. */
  function ParseDigits(s: string): int
    decreases |s|
  {
    if s == [] then 0 else ParseDigits(s[..|s| - 1]) * 10 + DigitValue(s[|s| - 1])
  }

  /** Reads back an optionally signed decimal number. */
  function ParseDecimal(s: string): int {
    if |s| > 0 && s[0] == '-' then -ParseDigits(s[1..]) else ParseDigits(s)
  }

  /** Reading back the digits of a natural number gives the number. */
  lemma {:induction false} DigitsRoundTrip(n: nat)
    ensures ParseDigits(Digits(n)) == n
    decreases n
  {
    if n < 10 {
      DigitCharValue(n);
    } else {
      var d := Digits(n);
      assert d[..|d| - 1] == Digits(n / 10);
      assert d[|d| - 1] == DigitChar(n % 10);
      DigitCharValue(n % 10);
      DigitsRoundTrip(n / 10);
      assert n == n / 10 * 10 + n % 10;
    }
  }

  /** A digit character reads back as its digit. */
  lemma DigitCharValue(d: nat)
    requires d < 10
    ensures DigitValue(DigitChar(d)) == d
  {
  }

  /** A leading minus sign negates the number its digits read as. */
  lemma ParseNegative(d: string)
    ensures ParseDecimal("-" + d) == -ParseDigits(d)
  {
    assert ("-" + d)[0] == '-' && ("-" + d)[1..] == d;
  }

  /** Text that does not start with a minus sign reads as its digits. */
  lemma ParseUnsigned(d: string)
    requires |d| > 0 && d[0] != '-'
    ensures ParseDecimal(d) == ParseDigits(d)
  {
  }

  /** The decimal rendering loses nothing: every integer is read back from its text. */
  lemma {:induction false} DecimalRoundTrip(i: int)
    ensures ParseDecimal(DecimalString(i)) == i
  {
    if i < 0 {
      DigitsRoundTrip(-i);
      ParseNegative(Digits(-i));
    } else {
      DigitsRoundTrip(i);
      ParseUnsigned(Digits(i));
    }
  }

  /**
   * The default formatter, string interpolation of the value: null becomes the empty string,
   * a string stays itself, booleans are "True"/"False" and integers are decimal.
   */
  function DefaultFormat(v: Value): (r: string)
    ensures v.Null? ==> r == ""
    ensures v.Text? ==> r == v.text
    ensures v.Boolean? ==> r == (if v.flag then "True" else "False")
    ensures v.Integer? ==> ParseDecimal(r) == v.number
  {
    match v
    case Null => ""
    case Text(s) => s
    case Integer(i) => DecimalRoundTrip(i); DecimalString(i)
    case Boolean(b) => if b then "True" else "False"
    case Object(display) => display
  }
}
