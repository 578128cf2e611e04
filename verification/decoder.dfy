/** Decoding of the Thingy:52 temperature and battery characteristic values. */
module Decoder {
  import opened Results
  import opened DataView
  import opened NumberText

  /** One `temperature-change` payload; all three scales come from one Celsius value. */
  datatype Temperature = Temperature(celsius: real, fahrenheit: real, kelvin: real)

  /** The three scales agree: Celsius is recovered from Fahrenheit and from Kelvin. */
  predicate ScalesAgree(t: Temperature) {
    && (t.fahrenheit - 32.0) * 5.0 / 9.0 == t.celsius
    && t.kelvin - 273.15 == t.celsius
  }

  /** Reference value of the reading (integer, decimal): the integer plus
      the decimal read as the digits after the point, on the integer's side
      of zero (zero counts as positive). */
  function CelsiusOf(integer: int, decimal: nat): (c: real)
    ensures integer >= 0 ==> integer as real <= c < integer as real + 1.0
    ensures integer < 0 ==> integer as real - 1.0 < c <= integer as real
  {
    if integer < 0 then integer as real - PointFraction(decimal)
    else integer as real + PointFraction(decimal)
  }

  /** The text the driver builds from the two bytes before parsing it;
      it always parses, to the reference value. */
  function ReadingText(integer: int, decimal: nat): (s: string)
    ensures ParseFloat(s) == Some(CelsiusOf(integer, decimal))
  {
    ParseIntegerPoint(integer, decimal);
    IntText(integer) + "." + NatText(decimal)
  }

  /** Parsing the reading's text gives the reference value, never NaN. */
  lemma ReadingTextParses(integer: int, decimal: nat)
    ensures ParseFloat(ReadingText(integer, decimal)) == Some(CelsiusOf(integer, decimal))
  {
  }

  /** Fahrenheit and Kelvin are derived from Celsius. */
  function FromCelsius(celsius: real): (t: Temperature)
    ensures t.celsius == celsius
    ensures ScalesAgree(t)
  {
    Temperature(celsius, celsius * 9.0 / 5.0 + 32.0, celsius + 273.15)
  }

  /** The temperature characteristic value: byte 0 as int8, byte 1 as uint8,
      glued as `${integer}.${decimal}` and parsed. A value shorter than two
      bytes makes the DataView read throw RangeError. */
  function DecodeTemperature(value: seq<byte>): (r: Result<Temperature>)
    ensures r.Ok? <==> |value| >= 2
    ensures r.Err? ==> r.error == RangeError
    ensures r.Ok? ==> r.value.celsius == CelsiusOf(ToInt8(value[0]), value[1])
    ensures r.Ok? ==> ScalesAgree(r.value)
  {
    match GetInt8(value, 0)
    case Err(e) => Err(e)
    case Ok(integer) =>
      match GetUint8(value, 1)
      case Err(e) => Err(e)
      case Ok(decimal) =>
        ReadingTextParses(integer, decimal);
        Ok(FromCelsius(ParseFloat(ReadingText(integer, decimal)).value))
  }

  /** The battery level characteristic value: byte 0, unsigned and unscaled.
      An empty value makes the DataView read throw RangeError. */
  function DecodeBattery(value: seq<byte>): (r: Result<nat>)
    ensures r.Ok? <==> |value| >= 1
    ensures r.Ok? ==> r.value == value[0] && r.value < 256
    ensures r.Err? ==> r.error == RangeError
  {
    match GetUint8(value, 0)
    case Err(e) => Err(e)
    case Ok(level) => Ok(level)
  }

  /** Celsius has the sign of the integer byte, zero counting as positive,
      and lies within one degree of it. */
  lemma CelsiusSign(integer: int, decimal: nat)
    ensures CelsiusOf(integer, decimal) >= 0.0 <==> integer >= 0
    ensures -1.0 < CelsiusOf(integer, decimal) - integer as real < 1.0
  {
  }

  /** The integer byte is recovered from the Celsius value: two readings
      that decode alike have the same integer part. */
  lemma IntegerPartDetermined(i: int, d: nat, i': int, d': nat)
    requires CelsiusOf(i, d) == CelsiusOf(i', d')
    ensures i == i'
  {
  }

  /** Scaling numerator and denominator by ten leaves a quotient unchanged. */
  lemma ScaledQuotient(n: nat, p: nat)
    requires p > 0
    ensures (10 * n) as real / (10 * p) as real == n as real / p as real
  {
  }

  /** Equal quotients over one denominator have equal numerators. */
  lemma QuotientInjective(n: nat, n': nat, p: nat)
    requires p > 0
    requires n as real / p as real == n' as real / p as real
    ensures n == n'
  {
  }

  /** A trailing zero in the fraction byte changes nothing: (i, 10d) and
      (i, d) decode alike, so (21, 50) and (21, 5) both give 21.5. */
  lemma TrailingZeroIgnored(integer: int, decimal: nat)
    ensures CelsiusOf(integer, 10 * decimal) == CelsiusOf(integer, decimal)
  {
    if decimal > 0 {
      var k := DigitCount(decimal);
      assert (10 * decimal) / 10 == decimal;
      assert DigitCount(10 * decimal) == k + 1;
      assert Pow10(k + 1) == 10 * Pow10(k);
      ScaledQuotient(decimal, Pow10(k));
    }
  }

  /** Among fraction bytes with the same number of digits the decoding is
      injective: only a different digit count can make two bytes collide. */
  lemma SameWidthFractionsDistinct(integer: int, d: nat, d': nat)
    requires DigitCount(d) == DigitCount(d')
    requires CelsiusOf(integer, d) == CelsiusOf(integer, d')
    ensures d == d'
  {
    assert PointFraction(d) == PointFraction(d');
    QuotientInjective(d, d', Pow10(DigitCount(d)));
  }

  /** Every decoded reading keeps its three scales in agreement and ties
      Celsius to the integer byte. */
  lemma DecodedReadingConsistent(value: seq<byte>)
    requires |value| >= 2
    ensures DecodeTemperature(value).Ok?
    ensures var t := DecodeTemperature(value).value;
      && ScalesAgree(t)
      && -1.0 < t.celsius - ToInt8(value[0]) as real < 1.0
      && (t.celsius >= 0.0 <==> value[0] < 128)
  {
    CelsiusSign(ToInt8(value[0]), value[1]);
  }

  /** Worked readings: the fraction byte is decimal text, not a count of 1/256. */
  lemma ReadingExamples()
    ensures CelsiusOf(21, 50) == 21.5
    ensures CelsiusOf(21, 5) == 21.5
    ensures CelsiusOf(21, 10) == 21.1
    ensures CelsiusOf(21, 123) == 21.123
    ensures CelsiusOf(-5, 5) == -5.5
    ensures CelsiusOf(0, 5) == 0.5
    ensures CelsiusOf(-5, 0) == -5.0
    ensures CelsiusOf(21, 128) != 21.0 + 128.0 / 256.0
  {
    assert DigitCount(50) == 2 && DigitCount(123) == 3 && DigitCount(128) == 3;
    assert Pow10(2) == 100 && Pow10(3) == 1000;
  }

  /** The bytes [21, 50] decode to 21.5 C, 70.7 F and 294.65 K. */
  lemma DecodeExample()
    ensures DecodeTemperature([21, 50]) == Ok(Temperature(21.5, 70.7, 294.65))
    ensures DecodeTemperature([251, 5]).value.celsius == -5.5
    ensures DecodeBattery([73]) == Ok(73)
  {
    ReadingExamples();
  }
}
