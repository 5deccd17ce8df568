/** Which form a number's text takes, told from the number alone. */
module EsNumberForm {
  import opened Text
  import opened EsNumber

  // ----- the form -----

  /** No zero in front, but for zero itself. */
  predicate IsPlainDigits(s: string) {
    s != "" && AllDecimal(s) && (s[0] == '0' ==> s == "0")
  }

  /** Digits, and a fraction only if one is needed: it does not end in a zero. */
  predicate IsShortMantissa(m: string) {
    var fraction := CutAfter(m, '.');
    && IsPlainDigits(CutBefore(m, '.')) && AllDecimal(fraction)
    && ('.' in m ==> fraction != "" && fraction[|fraction| - 1] != '0')
  }

  /** A sign, always written, and digits. */
  predicate IsSignedExponent(s: string, negative: bool) {
    s != "" && s[0] == (if negative then '-' else '+') && IsPlainDigits(s[1..])
  }

  /** The text of the positive number `size`: with an exponent from 10^21 on and below
      10^-6, otherwise with a point unless it is whole. */
  ghost predicate HasForm(text: string, size: real) {
    && ('e' in text <==> size >= 1_000_000_000_000_000_000_000.0 || size < 0.000_001)
    && IsShortMantissa(CutBefore(text, 'e'))
    && ('e' !in text ==> ('.' in text <==> size.Floor as real != size))
    && ('e' in text ==>
          && |CutBefore(CutBefore(text, 'e'), '.')| == 1 && text[0] != '0'
          && IsSignedExponent(CutAfter(text, 'e'), size < 1.0))
  }

  // ----- how large a significand is -----

  lemma {:induction false} DigitsBelow(d: string)
    requires AllDecimal(d)
    ensures DecimalValue(d) < PowInt(|d|)
  {
    if d != "" {
      DigitsBelow(d[..|d| - 1]);
    }
  }

  lemma {:induction false} DigitsFrom(d: string)
    requires d != "" && AllDecimal(d) && d[0] != '0'
    ensures DecimalValue(d) >= PowInt(|d| - 1)
  {
    if |d| == 1 {
      assert DecimalValue(d[..0]) == 0;
    } else {
      DigitsFrom(d[..|d| - 1]);
    }
  }

  /** `0.<digits> * 10^point` lies between two powers of ten. */
  lemma SizeOf(d: string, point: int)
    requires IsReduced(d)
    ensures Pow10(point - 1) <= Scaled(d, point - |d|) < Pow10(point)
  {
    hide Pow10, PowInt, DecimalValue, IsReduced, AllDecimal;
    var k, e := |d|, point - |d|;
    ReducedDigits(d);
    Pow10Positive(e);
    PowerTimes(e, k);
    PowerTimes(e, k - 1);
    Squeeze(Pow10(e), PowInt(k - 1) as real, DecimalValue(d) as real, PowInt(k) as real);
  }

  lemma PowerTimes(e: int, n: nat)
    ensures Pow10(e + n) == Pow10(e) * PowInt(n) as real
  {
    Pow10Adds(e, n);
    PowIntIsPow10(n);
  }

  lemma ReducedDigits(d: string)
    requires IsReduced(d)
    ensures d != "" && AllDecimal(d) && PowInt(|d| - 1) <= DecimalValue(d) < PowInt(|d|)
  {
    DigitsBelow(d);
    DigitsFrom(d);
  }

  lemma Squeeze(p: real, a: real, x: real, b: real)
    requires p > 0.0 && a <= x < b
    ensures p * a <= x * p < p * b
  {
  }

  lemma {:induction false} Pow10Grows(a: int, n: nat)
    ensures Pow10(a) <= Pow10(a + n)
  {
    if n > 0 {
      Pow10Grows(a, n - 1);
      Pow10Positive(a + n - 1);
      Pow10Step(a + n - 1);
    }
  }

  lemma Bounds()
    ensures Pow10(21) == 1_000_000_000_000_000_000_000.0 && Pow10(-6) == 0.000_001 && Pow10(0) == 1.0
  {
    assert Pow10(3) == 1000.0;
    Pow10Adds(3, 3);
    Pow10Adds(6, 3);
    Pow10Adds(9, 3);
    Pow10Adds(12, 3);
    Pow10Adds(15, 3);
    Pow10Adds(18, 3);
    assert Pow10(-3) == 0.001;
    Pow10Adds(-6, 3);
  }

  /** A bound that is a power of ten is met exactly from the point on that it sets. */
  lemma FromPower(d: string, point: int, bound: int)
    requires IsReduced(d)
    ensures Scaled(d, point - |d|) >= Pow10(bound) <==> point > bound
  {
    hide *;
    SizeOf(d, point);
    if point > bound {
      Pow10Grows(bound, point - 1 - bound);
    } else {
      Pow10Grows(point, bound - point);
    }
  }

  lemma WholeExactly(d: string, exponent: int)
    requires IsReduced(d)
    ensures Scaled(d, exponent).Floor as real == Scaled(d, exponent) <==> exponent >= 0
  {
    if exponent >= 0 {
      PowIntIsPow10(exponent);
      assert Scaled(d, exponent) == (DecimalValue(d) * PowInt(exponent)) as real;
    } else {
      var size := Scaled(d, exponent);
      if size.Floor as real == size {
        WholeScaled(d, exponent, size.Floor);
      }
    }
  }

  lemma WholeScaled(d: string, exponent: int, m: int)
    requires IsReduced(d) && exponent < 0
    ensures Scaled(d, exponent) != m as real
  {
    if Scaled(d, exponent) == m as real {
      var n := -exponent;
      ReducedPositive(d, exponent);
      PowerTimes(exponent, n);
      hide PowInt, DecimalValue, IsReduced;
      Undo(DecimalValue(d) as real, Pow10(exponent), PowInt(n) as real, m as real);
      hide Pow10, PowInt, DecimalValue, Scaled;
      assert DecimalValue(d) as real == (m * PowInt(n)) as real;
      TenDivides(DecimalValue(d), m, n);
      LastDigit(d);
      assert false;
    }
  }

  lemma Undo(x: real, p: real, q: real, y: real)
    requires x * p == y && p * q == 1.0
    ensures x == y * q
  {
    assert (x * p) * q == x * (p * q);
  }

  // ----- the form of a layout -----

  lemma WithoutExponent(text: string)
    requires Avoids('e', text)
    ensures 'e' !in text && CutBefore(text, 'e') == text
  {
    CutNone(text, 'e');
  }

  lemma PlainForm(d: string, zeros: nat, size: real)
    requires IsReduced(d) && size.Floor as real == size
    requires 0.000_001 <= size < 1_000_000_000_000_000_000_000.0
    ensures HasForm(d + Zeros(zeros), size)
  {
    var text := d + Zeros(zeros);
    WithoutExponent(text);
    CutNone(text, '.');
  }

  lemma PointedForm(a: string, b: string, size: real)
    requires IsPlainDigits(a) && AllDecimal(b) && b != "" && b[|b| - 1] != '0' && size.Floor as real != size
    requires 0.000_001 <= size < 1_000_000_000_000_000_000_000.0
    ensures HasForm(Pointed(a, b), size)
  {
    hide CutBefore, CutAfter, Pointed, Avoids, IsShortMantissa;
    PointedText(a, b);
    WithoutExponent(Pointed(a, b));
    PointedMantissa(a, b);
    hide IsPlainDigits, AllDecimal;
  }

  lemma PointedMantissa(a: string, b: string)
    requires IsPlainDigits(a) && AllDecimal(b) && b != "" && b[|b| - 1] != '0'
    ensures IsShortMantissa(Pointed(a, b))
  {
    hide CutBefore, CutAfter, Pointed;
    PointedText(a, b);
  }

  lemma PointedText(a: string, b: string)
    requires AllDecimal(a) && AllDecimal(b)
    ensures var text := Pointed(a, b);
            Avoids('e', text) && '.' in text && CutBefore(text, '.') == a && CutAfter(text, '.') == b
  {
    hide CutBefore, CutAfter;
    CutAt(a, '.', b);
    assert Pointed(a, b)[|a|] == '.';
  }

  lemma ScientificForm(d: string, e: int, size: real)
    requires IsReduced(d) && (e < 0 <==> size < 1.0)
    requires size >= 1_000_000_000_000_000_000_000.0 || size < 0.000_001
    ensures HasForm(Scientific(d, e), size)
  {
    hide CutBefore, CutAfter, Decimal, Scientific, IsShortMantissa, IsSignedExponent;
    var mantissa := [d[0]] + if |d| > 1 then "." + d[1..] else "";
    var magnitude := if e >= 0 then e else -e;
    var exponent := (if e >= 0 then "+" else "-") + Decimal(magnitude);
    var text := Scientific(d, e);
    MantissaForm(d);
    ExponentForm(e);
    assert text == mantissa + (['e'] + exponent) by { ScientificText(d, e); }
    CutAt(mantissa, 'e', exponent);
    hide Avoids;
    assert text[|mantissa|] == 'e' && text[0] == d[0];
  }

  lemma ScientificText(d: string, e: int)
    requires d != ""
    ensures Scientific(d, e) == ([d[0]] + if |d| > 1 then "." + d[1..] else "")
              + (['e'] + ((if e >= 0 then "+" else "-") + Decimal(if e >= 0 then e else -e)))
  {
  }

  lemma MantissaForm(d: string)
    requires IsReduced(d)
    ensures var m := [d[0]] + if |d| > 1 then "." + d[1..] else "";
            IsShortMantissa(m) && Avoids('e', m) && |CutBefore(m, '.')| == 1
  {
    hide CutBefore, CutAfter;
    LeadingDigitMantissa(d);
    if |d| > 1 {
      assert d[1..][|d| - 2] != '0';
    } else {
      assert '.' !in [d[0]] + "";
    }
  }

  lemma ExponentForm(e: int)
    ensures IsSignedExponent((if e >= 0 then "+" else "-") + Decimal(if e >= 0 then e else -e), e < 0)
  {
    var magnitude := if e >= 0 then e else -e;
    PlainDecimal(magnitude);
    hide Decimal, IsPlainDigits;
    assert ((if e >= 0 then "+" else "-") + Decimal(magnitude))[1..] == Decimal(magnitude);
  }

  lemma {:induction false} PlainDecimal(n: nat)
    ensures IsPlainDigits(Decimal(n)) && (Decimal(n)[0] == '0' <==> n == 0)
  {
    if n >= 10 {
      PlainDecimal(n / 10);
    }
  }

  lemma LayoutForm(s: Significand)
    requires IsReduced(s.digits)
    ensures HasForm(Layout(s), Scaled(s.digits, s.point - |s.digits|))
  {
    hide Pow10, Scaled, HasForm, Pointed, Scientific, IsPlainDigits;
    var d, k, n := s.digits, |s.digits|, s.point;
    var size := Scaled(d, n - k);
    Sizes(d, n);
    if k <= n <= 21 {
      PlainForm(d, n - k, size);
    } else if 0 < n <= 21 {
      PointedParts(d, n);
      PointedForm(d[..n], d[n..], size);
    } else if -6 < n <= 0 {
      SmallParts(d, -n);
      PointedForm("0", Zeros(-n) + d, size);
    } else {
      hide IsReduced, Layout;
      LayoutScientific(s);
      ScientificForm(d, n - 1, size);
    }
  }

  /** What the point says of the size. */
  lemma Sizes(d: string, n: int)
    requires IsReduced(d)
    ensures var size := Scaled(d, n - |d|);
            && (size >= 1_000_000_000_000_000_000_000.0 <==> n > 21)
            && (size < 0.000_001 <==> n <= -6)
            && (size < 1.0 <==> n <= 0)
            && (size.Floor as real == size <==> n >= |d|)
  {
    hide Pow10, Scaled, IsReduced;
    Bounds();
    FromPower(d, n, 21);
    FromPower(d, n, -6);
    FromPower(d, n, 0);
    WholeExactly(d, n - |d|);
  }

  lemma PointedParts(d: string, n: nat)
    requires IsReduced(d) && 0 < n < |d|
    ensures IsPlainDigits(d[..n]) && AllDecimal(d[n..]) && d[n..] != "" && d[n..][|d| - n - 1] != '0'
  {
  }

  lemma SmallParts(d: string, zeros: nat)
    requires IsReduced(d)
    ensures IsPlainDigits("0") && AllDecimal(Zeros(zeros) + d) && (Zeros(zeros) + d)[zeros + |d| - 1] != '0'
  {
  }

  lemma LayoutScientific(s: Significand)
    requires s.digits != "" && !(-6 < s.point <= 21)
    ensures Layout(s) == Scientific(s.digits, s.point - 1)
  {
  }

  // ----- the form of a number's text -----

  /** The text of a finite double denotes it and has the form its size calls for:
      `0`, or a minus sign exactly below zero and then the text of the magnitude. */
  lemma FormBySize(x: Double)
    requires x.Finite? && IsDouble(x)
    ensures EsNumber.EsNumber(x).Ok? && Denotes(EsNumber.EsNumber(x).value, Value(x))
    ensures var text, v := EsNumber.EsNumber(x).value, Value(x);
            && (v == 0.0 ==> text == "0")
            && (v > 0.0 ==> HasForm(text, v))
            && (v < 0.0 ==> text != "" && text[0] == '-' && HasForm(text[1..], -v))
  {
    hide Normalize, Layout, Denotes, Value, IsReduced, Scaled, HasForm, Read, IsNumeral;
    Exact(x);
    SignificandOf(x);
    var s := Normalize(Read(x.repr));
    if s.digits != "" {
      ReducedPositive(s.digits, s.point - |s.digits|);
      LayoutForm(s);
      assert ("-" + Layout(s))[1..] == Layout(s) && "" + Layout(s) == Layout(s);
    }
  }
}
