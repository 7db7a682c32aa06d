/**
 * The part of `java.math.BigDecimal` the amount field needs: building a
 * value from a plain string of digits with at most one decimal point
 * (`BigDecimal(String)`), and writing it back out (`toPlainString`).
 */
module JavaDecimal {
  import opened Wrappers
  import opened KotlinText

  /** A non-negative decimal: the value unscaled / 10^scale. */
  datatype Decimal = Decimal(unscaled: nat, scale: nat)

  /** `BigDecimal.ZERO` */
  const Zero := Decimal(0, 0)

  function Pow10(n: nat): (r: nat)
    ensures r >= 1
  {
    if n == 0 then 1 else 10 * Pow10(n - 1)
  }

  function DigitValue(c: char): (d: nat)
    requires IsDigit(c)
    ensures d < 10
  {
    c as int - '0' as int
  }

  function DigitChar(d: nat): (c: char)
    requires d < 10
    ensures IsDigit(c) && DigitValue(c) == d
  {
    ('0' as int + d) as char
  }

  /** The number a string of decimal digits denotes, most significant first. */
  function DigitsToNat(s: string): nat
    requires AllDigits(s)
  {
    if |s| == 0 then 0
    else DigitsToNat(s[..|s| - 1]) * 10 + DigitValue(s[|s| - 1])
  }

  /** The digits of a concatenation: the left part shifted past the right part. */
  lemma {:induction false} DigitsToNatAppend(a: string, b: string)
    requires AllDigits(a) && AllDigits(b)
    ensures AllDigits(a + b)
    ensures DigitsToNat(a + b) == DigitsToNat(a) * Pow10(|b|) + DigitsToNat(b)
  {
    AllDigitsAppend(a, b);
    if |b| == 0 {
      assert a + b == a;
    } else {
      var b', last := b[..|b| - 1], b[|b| - 1];
      assert AllDigits(b') by {
        assert forall i :: 0 <= i < |b'| ==> b'[i] == b[i];
      }
      assert (a + b)[..|a + b| - 1] == a + b';
      assert (a + b)[|a + b| - 1] == last;
      DigitsToNatAppend(a, b');
      ShiftStep(DigitsToNat(a), Pow10(|b'|), DigitsToNat(b'), DigitValue(last));
    }
  }

  lemma ShiftStep(x: int, p: int, y: int, v: int)
    ensures (x * p + y) * 10 + v == x * (10 * p) + (y * 10 + v)
  {
  }

  lemma {:induction false} AllDigitsAppend(a: string, b: string)
    requires AllDigits(a) && AllDigits(b)
    ensures AllDigits(a + b)
  {
    forall i | 0 <= i < |a + b|
      ensures IsDigit((a + b)[i])
    {
      if i < |a| {
        assert (a + b)[i] == a[i];
      } else {
        assert (a + b)[i] == b[i - |a|];
      }
    }
  }

  /** Leading zeros do not change the number. */
  lemma {:induction false} LeadingZeros(z: string, s: string)
    requires forall i :: 0 <= i < |z| ==> z[i] == '0'
    requires AllDigits(s)
    ensures AllDigits(z + s) && DigitsToNat(z + s) == DigitsToNat(s)
  {
    ZerosValue(z);
    DigitsToNatAppend(z, s);
  }

  lemma {:induction false} ZerosValue(z: string)
    requires forall i :: 0 <= i < |z| ==> z[i] == '0'
    ensures AllDigits(z) && DigitsToNat(z) == 0
  {
    if |z| > 0 {
      ZerosValue(z[..|z| - 1]);
    }
  }

  /** The shortest decimal digits of n ("0" for zero). */
  function NatToDigits(n: nat): (s: string)
    ensures |s| >= 1 && AllDigits(s)
    ensures DigitsToNat(s) == n
  {
    if n < 10 then
      assert DigitsToNat([DigitChar(n)]) == DigitsToNat([]) * 10 + n;
      [DigitChar(n)]
    else
      var s := NatToDigits(n / 10) + [DigitChar(n % 10)];
      assert s[..|s| - 1] == NatToDigits(n / 10);
      s
  }

  /** `width` characters at least, padded with zeros on the left. */
  function PadZeros(s: string, width: nat): (r: string)
    requires AllDigits(s)
    ensures |r| == if |s| < width then width else |s|
    ensures AllDigits(r) && DigitsToNat(r) == DigitsToNat(s)
  {
    if |s| < width then
      var z := seq(width - |s|, _ => '0');
      LeadingZeros(z, s);
      z + s
    else s
  }

  /**
   * `toPlainString`, the inverse the round trip below is stated with: the
   * digits of the unscaled value, with the point `scale` places from the
   * right and at least one digit in front of it.
   */
  function ToPlainString(d: Decimal): (r: string)
    ensures d.scale == 0 ==> |r| > 0 && AllDigits(r) && DigitsToNat(r) == d.unscaled
    ensures d.scale > 0 ==>
      && |r| >= d.scale + 2
      && r[|r| - d.scale - 1] == '.'
      && AllDigits(r[..|r| - d.scale - 1])
      && AllDigits(r[|r| - d.scale..])
  {
    var digits := PadZeros(NatToDigits(d.unscaled), d.scale + 1);
    if d.scale == 0 then digits
    else
      PointInserted(digits, |digits| - d.scale);
      digits[..|digits| - d.scale] + "." + digits[|digits| - d.scale..]
  }

  /** A point put into a run of digits at k has digits on both sides. */
  lemma PointInserted(digits: string, k: nat)
    requires AllDigits(digits) && k <= |digits|
    ensures var r := digits[..k] + "." + digits[k..];
      && |r| == |digits| + 1 && r[k] == '.'
      && AllDigits(r[..k]) && AllDigits(r[k + 1..])
  {
    var r := digits[..k] + "." + digits[k..];
    assert r[..k] == digits[..k] && r[k + 1..] == digits[k..];
    assert forall i :: 0 <= i < k ==> digits[..k][i] == digits[i];
    assert forall i :: 0 <= i < |digits| - k ==> digits[k..][i] == digits[k + i];
  }

  /**
   * `BigDecimal(s)` for strings of digits with at most one point: digits
   * before the point, after it, or both, and at least one digit in all.
   * Anything else is the `NumberFormatException`, here `None`; so nothing
   * parses that holds no digit or holds anything but digits and points.
   */
  function ParseDecimal(s: string): (r: Option<Decimal>)
    ensures r.Some? ==> HasDigit(s)
    ensures r.Some? ==> forall i :: 0 <= i < |s| ==> IsDigit(s[i]) || s[i] == '.'
  {
    var dot := IndexOf(s, '.');
    if dot == -1 then
      if |s| > 0 && AllDigits(s) then
        assert IsDigit(s[0]);
        Some(Decimal(DigitsToNat(s), 0))
      else None
    else
      var whole, fraction := s[..dot], s[dot + 1..];
      if AllDigits(whole) && AllDigits(fraction) && |whole| + |fraction| > 0
      then
        DigitsToNatAppend(whole, fraction);
        assert forall i :: 0 <= i < dot ==> s[i] == whole[i];
        assert forall i :: dot < i < |s| ==> s[i] == fraction[i - dot - 1];
        assert if |whole| > 0 then IsDigit(s[0]) else IsDigit(s[dot + 1]);
        Some(Decimal(DigitsToNat(whole + fraction), |fraction|))
      else None
  }

  predicate HasDigit(s: string) {
    exists i :: 0 <= i < |s| && IsDigit(s[i])
  }

  /** A non-empty run of digits parses as an integer, with scale 0. */
  lemma {:induction false} ParseWithoutPoint(s: string)
    requires |s| > 0 && AllDigits(s)
    ensures ParseDecimal(s) == Some(Decimal(DigitsToNat(s), 0))
  {
    assert '.' !in s by {
      assert forall i :: 0 <= i < |s| ==> IsDigit(s[i]);
    }
  }

  /** Digits, a point, digits: the scale is the number of digits after the point. */
  lemma {:induction false} ParseWithPoint(whole: string, fraction: string)
    requires AllDigits(whole) && AllDigits(fraction) && |whole| + |fraction| > 0
    ensures ParseDecimal(whole + ['.'] + fraction)
         == Some(Decimal(DigitsToNat(whole + fraction), |fraction|))
  {
    var s := whole + ['.'] + fraction;
    assert '.' !in whole by {
      assert forall i :: 0 <= i < |whole| ==> IsDigit(whole[i]);
    }
    IndexOfAfter(whole, '.', fraction);
    assert s[..|whole|] == whole;
    assert s[|whole| + 1..] == fraction;
  }

  /** Reading back what `toPlainString` writes gives the same decimal, scale included. */
  lemma {:induction false} ParsePlainString(d: Decimal)
    ensures ParseDecimal(ToPlainString(d)) == Some(d)
  {
    if d.scale == 0 {
      ParsePlainInteger(d);
    } else {
      ParsePlainFraction(d);
    }
  }

  lemma {:induction false} ParsePlainInteger(d: Decimal)
    requires d.scale == 0
    ensures ParseDecimal(ToPlainString(d)) == Some(d)
  {
    var digits := PadZeros(NatToDigits(d.unscaled), d.scale + 1);
    assert DigitsToNat(digits) == d.unscaled;
    assert ToPlainString(d) == digits;
    ParseWithoutPoint(digits);
  }

  lemma {:induction false} ParsePlainFraction(d: Decimal)
    requires d.scale > 0
    ensures ParseDecimal(ToPlainString(d)) == Some(d)
  {
    var digits := PadZeros(NatToDigits(d.unscaled), d.scale + 1);
    var k := |digits| - d.scale;
    assert ToPlainString(d) == digits[..k] + ['.'] + digits[k..];
    ParsePointAt(digits, k);
  }

  /** Putting a point into a run of digits at position k gives scale |digits| - k. */
  lemma {:induction false} ParsePointAt(digits: string, k: nat)
    requires AllDigits(digits) && k <= |digits| && |digits| > 0
    ensures ParseDecimal(digits[..k] + ['.'] + digits[k..])
         == Some(Decimal(DigitsToNat(digits), |digits| - k))
  {
    var whole, fraction := digits[..k], digits[k..];
    assert whole + fraction == digits;
    assert AllDigits(whole) by {
      assert forall i :: 0 <= i < |whole| ==> whole[i] == digits[i];
    }
    assert AllDigits(fraction) by {
      assert forall i :: 0 <= i < |fraction| ==> fraction[i] == digits[i + k];
    }
    ParseWithPoint(whole, fraction);
  }

  /** A successful parse holds the digits before the point shifted past those after it. */
  lemma {:induction false} ParseValue(s: string, d: Decimal)
    requires ParseDecimal(s) == Some(d)
    ensures IndexOf(s, '.') == -1 ==> AllDigits(s) && d == Decimal(DigitsToNat(s), 0)
    ensures IndexOf(s, '.') != -1 ==>
      var dot := IndexOf(s, '.');
      && AllDigits(s[..dot]) && AllDigits(s[dot + 1..])
      && d.scale == |s| - dot - 1
      && d.unscaled == DigitsToNat(s[..dot]) * Pow10(d.scale) + DigitsToNat(s[dot + 1..])
  {
    var dot := IndexOf(s, '.');
    if dot != -1 {
      DigitsToNatAppend(s[..dot], s[dot + 1..]);
    }
  }

  /**
   * A string of digits and at most one point parses exactly when it
   * holds a digit.
   */
  lemma {:induction false} ParseAcceptsDigits(s: string)
    requires forall i :: 0 <= i < |s| ==> IsDigit(s[i]) || s[i] == '.'
    requires Count(s, '.') <= 1
    ensures ParseDecimal(s).Some? <==> HasDigit(s)
  {
    var dot := IndexOf(s, '.');
    if dot == -1 {
      assert AllDigits(s) by {
        assert forall i :: 0 <= i < |s| ==> s[i] != '.';
      }
    } else {
      var whole, fraction := s[..dot], s[dot + 1..];
      assert s == whole + ['.'] + fraction;
      CountAppend(whole + ['.'], fraction, '.');
      CountAppend(whole, ['.'], '.');
      assert AllDigits(whole) by {
        assert forall i :: 0 <= i < |whole| ==> whole[i] == s[i] && whole[i] != '.';
      }
      assert AllDigits(fraction) by {
        assert forall i :: 0 <= i < |fraction| ==> fraction[i] == s[i + dot + 1] && fraction[i] != '.';
      }
      if HasDigit(s) {
        var i :| 0 <= i < |s| && IsDigit(s[i]);
        assert i != dot;
      }
    }
  }

  /** "3.14" is 314 hundredths. */
  lemma {:induction false} ParseExampleFraction()
    ensures ParseDecimal("3.14") == Some(Decimal(314, 2))
  {
    ParseWithPoint("3", "14");
    assert "3" + ['.'] + "14" == "3.14";
    assert "3" + "14" == "314";
    assert "314"[..2] == "31" && "31"[..1] == "3" && "3"[..0] == "";
    assert DigitsToNat("3") == 3;
    assert DigitsToNat("31") == 31;
  }

  /** "2", the field's initial amount, is the integer 2. */
  lemma {:induction false} ParseExampleInteger()
    ensures ParseDecimal("2") == Some(Decimal(2, 0))
  {
    ParseWithoutPoint("2");
    assert "2"[..0] == "";
  }

  /** Neither the empty field nor a lone point parses. */
  lemma {:induction false} ParseExampleFailures()
    ensures ParseDecimal("") == None
    ensures ParseDecimal(".") == None
  {
    IndexOfAfter("", '.', "");
    assert [] + ['.'] + [] == ".";
  }
}
