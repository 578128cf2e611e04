/** Decimal text of integers as a JavaScript template literal writes it,
    and Number.parseFloat read back over such text. */
module NumberText {
  import opened Results

  function Pow10(n: nat): (r: nat)
    ensures r >= 1
  {
    if n == 0 then 1 else 10 * Pow10(n - 1)
  }

  /** How many decimal digits the text of `n` has: the unique k >= 1 with
      10^(k-1) <= n < 10^k, and 1 for zero. */
  function DigitCount(n: nat): (k: nat)
    ensures 1 <= k
    ensures n < Pow10(k)
    ensures k > 1 ==> Pow10(k - 1) <= n
  {
    if n < 10 then 1
    else
      var k := DigitCount(n / 10);
      assert n < 10 * Pow10(k) by {
        assert n / 10 + 1 <= Pow10(k);
      }
      assert k > 1 ==> Pow10(k) <= n by {
        if k > 1 {
          assert Pow10(k) == 10 * Pow10(k - 1);
        }
      }
      1 + k
  }

  predicate IsDigit(c: char) {
    '0' <= c <= '9'
  }

  predicate AllDigits(s: string) {
    forall j :: 0 <= j < |s| ==> IsDigit(s[j])
  }

  function DigitValue(c: char): (d: nat)
    requires IsDigit(c)
    ensures d < 10
  {
    c as int - '0' as int
  }

  function DigitChar(d: nat): (c: char)
    requires d < 10
    ensures IsDigit(c) && DigitValue(c) == d
  {
    ('0' as int + d) as char
  }

  /** `${n}` for a non-negative integer: its digits, most significant first,
      with no leading zero. */
  function NatText(n: nat): (s: string)
    ensures |s| == DigitCount(n)
    ensures AllDigits(s)
    ensures n > 0 ==> s[0] != '0'
  {
    if n < 10 then [DigitChar(n)] else NatText(n / 10) + [DigitChar(n % 10)]
  }

  /** `${i}` for any integer: a minus sign before the digits when negative. */
  function IntText(i: int): (s: string)
    ensures |s| > 0
    ensures s[0] == '-' <==> i < 0
    ensures i >= 0 ==> AllDigits(s)
  {
    if i < 0 then "-" + NatText(-i) else NatText(i)
  }

  /** The number a run of decimal digits denotes. */
  function DigitsValue(s: string): (v: nat)
    requires AllDigits(s)
    ensures v < Pow10(|s|)
  {
    if |s| == 0 then 0
    else
      var v := DigitsValue(s[..|s| - 1]);
      assert 10 * v + 9 < Pow10(|s|) by {
        assert Pow10(|s|) == 10 * Pow10(|s| - 1);
      }
      10 * v + DigitValue(s[|s| - 1])
  }

  /** Position of the first '.', or |s| when there is none. */
  function DotIndex(s: string): (k: nat)
    ensures k <= |s|
    ensures k < |s| ==> s[k] == '.'
    ensures forall j :: 0 <= j < k ==> s[j] != '.'
  {
    if |s| == 0 || s[0] == '.' then 0 else 1 + DotIndex(s[1..])
  }

  /** n/d lies in [0, 1) when 0 <= n < d. */
  lemma ProperFraction(n: nat, d: nat)
    requires n < d
    ensures 0.0 <= n as real / d as real < 1.0
  {
  }

  /** The number written `whole.fraction`: the fraction digits count from
      the point, so their weight depends on how many there are. */
  function PointValue(whole: string, fraction: string): (v: real)
    requires AllDigits(whole) && AllDigits(fraction)
    ensures DigitsValue(whole) as real <= v < DigitsValue(whole) as real + 1.0
  {
    ProperFraction(DigitsValue(fraction), Pow10(|fraction|));
    DigitsValue(whole) as real + DigitsValue(fraction) as real / Pow10(|fraction|) as real
  }

  /** The value of the text `0.${b}`: b over the power of ten as wide as its text. */
  function PointFraction(b: nat): (f: real)
    ensures 0.0 <= f < 1.0
  {
    ProperFraction(b, Pow10(DigitCount(b)));
    b as real / Pow10(DigitCount(b)) as real
  }

  /** Number.parseFloat over an unsigned decimal literal `digits[.digits]`
      with at least one digit; None is NaN. */
  function ParseUnsigned(s: string): (r: Option<real>)
    ensures r.Some? ==> |s| > 0 && r.value >= 0.0
  {
    var k := DotIndex(s);
    var whole := s[..k];
    var fraction := if k < |s| then s[k + 1..] else [];
    if AllDigits(whole) && AllDigits(fraction) && |whole| + |fraction| > 0 then
      Some(PointValue(whole, fraction))
    else
      None
  }

  /** Number.parseFloat over an optionally negated decimal literal; None is NaN. */
  function ParseFloat(s: string): (r: Option<real>)
    ensures r.Some? && r.value < 0.0 ==> |s| > 0 && s[0] == '-'
  {
    if |s| > 0 && s[0] == '-' then
      match ParseUnsigned(s[1..])
      case Some(v) => Some(-v)
      case None => None
    else
      ParseUnsigned(s)
  }

  /** Reading the text of a number gives the number back. */
  lemma {:induction false} DigitsValueOfNatText(n: nat)
    ensures DigitsValue(NatText(n)) == n
  {
    if n >= 10 {
      var s := NatText(n);
      assert s[..|s| - 1] == NatText(n / 10);
      DigitsValueOfNatText(n / 10);
    }
  }

  /** Writing the value of a digit run without leading zero gives the run back. */
  lemma {:induction false} NatTextOfDigitsValue(s: string)
    requires AllDigits(s) && |s| > 0
    requires |s| == 1 || s[0] != '0'
    ensures NatText(DigitsValue(s)) == s
  {
    if |s| == 1 {
      assert DigitsValue(s) == DigitValue(s[0]) by {
        assert s[..0] == [];
      }
    } else {
      var p := s[..|s| - 1];
      assert p[0] == s[0];
      NatTextOfDigitsValue(p);
      var v := DigitsValue(s);
      assert DigitsValue(p) > 0;
      assert v / 10 == DigitsValue(p) && v % 10 == DigitValue(s[|s| - 1]);
      assert s == p + [s[|s| - 1]];
    }
  }

  /** The first point of `whole.fraction` is the one after the whole digits. */
  lemma DotIndexOfPointed(whole: string, fraction: string)
    requires AllDigits(whole)
    ensures DotIndex(whole + "." + fraction) == |whole|
  {
    var s := whole + "." + fraction;
    assert s[|whole|] == '.';
    assert forall j :: 0 <= j < |whole| ==> s[j] == whole[j];
  }

  /** Parsing splits at the first point. */
  lemma ParseAtDot(s: string, k: nat)
    requires k == DotIndex(s) && 0 < k < |s|
    requires AllDigits(s[..k]) && AllDigits(s[k + 1..])
    ensures ParseUnsigned(s) == Some(PointValue(s[..k], s[k + 1..]))
  {
  }

  /** A digit run, a point and a digit run parse to the whole part plus the
      fraction digits scaled by their own width. */
  lemma ParsePointed(whole: string, fraction: string)
    requires AllDigits(whole) && AllDigits(fraction) && |whole| > 0
    ensures ParseUnsigned(whole + "." + fraction) == Some(PointValue(whole, fraction))
  {
    var s := whole + "." + fraction;
    DotIndexOfPointed(whole, fraction);
    var k := |whole|;
    assert s[..k] == whole;
    assert s[k + 1..] == fraction;
    ParseAtDot(s, k);
  }

  /** The text `${a}.${b}` parses to a plus b read as the digits after the point. */
  lemma ParseNaturalPoint(a: nat, b: nat)
    ensures ParseUnsigned(NatText(a) + "." + NatText(b)) == Some(a as real + PointFraction(b))
  {
    ParsePointed(NatText(a), NatText(b));
    DigitsValueOfNatText(a);
    DigitsValueOfNatText(b);
  }

  /** A leading minus sign negates what the rest parses to. */
  lemma ParseMinus(rest: string)
    requires ParseUnsigned(rest).Some?
    ensures ParseFloat(['-'] + rest) == Some(-ParseUnsigned(rest).value)
  {
    assert (['-'] + rest)[1..] == rest;
  }

  /** The text `-${n}.${b}` parses to the negation of `${n}.${b}`. */
  lemma ParseNegativePoint(i: int, b: nat)
    requires i < 0
    ensures ParseFloat(IntText(i) + "." + NatText(b)) == Some(i as real - PointFraction(b))
  {
    var n: nat := -i;
    var rest := NatText(n) + "." + NatText(b);
    NegativePointText(i, b);
    ParseNaturalPoint(n, b);
    ParseMinus(rest);
    NegatedPoint(i, n, PointFraction(b));
  }

  /** The text `${i}.${b}` of a negative i is '-' before the text of |i|. */
  lemma NegativePointText(i: int, b: nat)
    requires i < 0
    ensures IntText(i) + "." + NatText(b) == ['-'] + (NatText(-i) + "." + NatText(b))
  {
    assert IntText(i) == ['-'] + NatText(-i);
  }

  /** Negating |i| plus a fraction gives i minus that fraction. */
  lemma NegatedPoint(i: int, n: nat, f: real)
    requires n == -i
    ensures -(n as real + f) == i as real - f
  {
  }

  /** The text `${i}.${b}` parses to |i| plus the fraction, negated when i is. */
  lemma ParseIntegerPoint(i: int, b: nat)
    ensures ParseFloat(IntText(i) + "." + NatText(b))
         == Some(if i < 0 then i as real - PointFraction(b) else i as real + PointFraction(b))
  {
    if i < 0 {
      ParseNegativePoint(i, b);
    } else {
      var s := IntText(i) + "." + NatText(b);
      assert s[0] == IntText(i)[0];
      ParseNaturalPoint(i, b);
    }
  }
}
