/** ECMAScript number text (section 3.2.2.3 of RFC 8785), laid out from the
    shortest round-trip text of a double. A double is its sign and that text. */
module EsNumber {
  import opened Text

  datatype Double =
    | NaN
    | Infinity(negative: bool)
    | Finite(negative: bool, repr: string)

  datatype EsError = NotAJsonNumber

  // ----- reading a numeral -----

  predicate IsExponent(s: string) {
    s == "" || (if s[0] in "+-" then |s| > 1 && AllDecimal(s[1..]) else AllDecimal(s))
  }

  /** A decimal numeral taken apart: `intPart.fracPart` times ten to `exponent`. */
  datatype Numeral = Numeral(intPart: string, fracPart: string, exponent: int)

  /** Digits, perhaps a point and digits, perhaps `e` and a signed exponent. */
  predicate IsNumeral(s: string) {
    var mantissa := CutBefore(s, 'e');
    && CutBefore(mantissa, '.') != "" && AllDecimal(CutBefore(mantissa, '.')) && AllDecimal(CutAfter(mantissa, '.'))
    && IsExponent(CutAfter(s, 'e'))
  }

  function ExponentValue(s: string): int
    requires IsExponent(s)
  {
    if s == "" then 0
    else if s[0] == '-' then 0 - DecimalValue(s[1..])
    else if s[0] == '+' then DecimalValue(s[1..])
    else DecimalValue(s)
  }

  function Pow10(e: int): real
    decreases if e < 0 then -e else e
  {
    if e == 0 then 1.0 else if e > 0 then 10.0 * Pow10(e - 1) else Pow10(e + 1) / 10.0
  }

  /** The number `0.<digits> * 10^(point)` written as digits and an exponent. */
  function Scaled(digits: string, exponent: int): real
    requires AllDecimal(digits)
  {
    DecimalValue(digits) as real * Pow10(exponent)
  }

  function Read(s: string): (n: Numeral)
    requires IsNumeral(s)
    ensures n.intPart != "" && AllDecimal(n.intPart) && AllDecimal(n.fracPart)
  {
    var mantissa := CutBefore(s, 'e');
    Numeral(CutBefore(mantissa, '.'), CutAfter(mantissa, '.'), ExponentValue(CutAfter(s, 'e')))
  }

  function ValueOf(n: Numeral): real
    requires AllDecimal(n.intPart) && AllDecimal(n.fracPart)
  {
    Scaled(n.intPart + n.fracPart, n.exponent - |n.fracPart|)
  }

  /** The number a numeral denotes. */
  function NumeralValue(s: string): real
    requires IsNumeral(s)
  {
    ValueOf(Read(s))
  }

  // ----- the layout -----

  function LeadingZeros(s: string): (n: nat)
    ensures n <= |s| && (n < |s| ==> s[n] != '0') && forall i :: 0 <= i < n ==> s[i] == '0'
  {
    if s != "" && s[0] == '0' then 1 + LeadingZeros(s[1..]) else 0
  }

  function StripTrailing(s: string): (r: string)
    ensures |r| <= |s| && r == s[..|r|] && (r != "" ==> r[|r| - 1] != '0')
    ensures forall i :: |r| <= i < |s| ==> s[i] == '0'
  {
    if s != "" && s[|s| - 1] == '0' then StripTrailing(s[..|s| - 1]) else s
  }

  /** The significand without zeros at either end, and where its point sits:
      the number is `0.<digits> * 10^point`. */
  datatype Significand = Significand(digits: string, point: int)

  function Normalize(n: Numeral): Significand {
    var digits := n.intPart + n.fracPart;
    var lead := LeadingZeros(digits);
    Significand(StripTrailing(digits[lead..]), |n.intPart| + n.exponent - lead)
  }

  function Pointed(intPart: string, fracPart: string): string {
    intPart + ("." + fracPart)
  }

  function Scientific(digits: string, e: int): string
    requires digits != ""
  {
    ([digits[0]] + if |digits| > 1 then "." + digits[1..] else "")
    + ("e" + ((if e >= 0 then "+" else "-") + Decimal(if e >= 0 then e else -e)))
  }

  function Layout(s: Significand): string
    requires s.digits != ""
  {
    var k, n := |s.digits|, s.point;
    if k <= n <= 21 then s.digits + Zeros(n - k)
    else if 0 < n <= 21 then Pointed(s.digits[..n], s.digits[n..])
    else if -6 < n <= 0 then Pointed("0", Zeros(-n) + s.digits)
    else Scientific(s.digits, n - 1)
  }

  predicate IsDouble(x: Double) {
    x.Finite? ==> IsNumeral(x.repr)
  }

  function EsNumber(x: Double): Result<string, EsError>
    requires IsDouble(x)
  {
    if !x.Finite? then Err(NotAJsonNumber)
    else if Normalize(Read(x.repr)).digits == "" then Ok("0")
    else Ok((if x.negative then "-" else "") + Layout(Normalize(Read(x.repr))))
  }

  function Value(x: Double): real
    requires x.Finite? && IsDouble(x)
  {
    if x.negative then -NumeralValue(x.repr) else NumeralValue(x.repr)
  }

  // ----- arithmetic -----

  lemma {:induction false} Pow10Positive(e: int)
    ensures Pow10(e) > 0.0
    decreases if e < 0 then -e else e
  {
    if e > 0 { Pow10Positive(e - 1); } else if e < 0 { Pow10Positive(e + 1); }
  }

  lemma Pow10Step(e: int)
    ensures Pow10(e + 1) == 10.0 * Pow10(e)
  {
  }

  lemma {:induction false} Pow10Adds(a: int, n: nat)
    ensures Pow10(a + n) == Pow10(a) * Pow10(n)
  {
    if n > 0 {
      Pow10Adds(a, n - 1);
      Pow10Step(a + n - 1);
      var p, q := Pow10(a), Pow10(n - 1);
      assert Pow10(n) == 10.0 * q;
      assert 10.0 * (p * q) == p * (10.0 * q);
    }
  }

  /** A zero in front changes nothing. */
  lemma {:induction false} LeadingZeroDrops(s: string)
    requires AllDecimal(s)
    ensures DecimalValue("0" + s) == DecimalValue(s)
  {
    if s == "" {
      assert DecimalValue("") == 0 && ("0" + s)[..0] == "";
    } else {
      LeadingZeroDrops(s[..|s| - 1]);
      assert ("0" + s)[..|s|] == "0" + s[..|s| - 1];
    }
  }

  lemma {:induction false} LeadingZerosDrop(s: string, n: nat)
    requires n <= |s| && AllDecimal(s) && forall i :: 0 <= i < n ==> s[i] == '0'
    ensures DecimalValue(s[n..]) == DecimalValue(s)
  {
    if n == 0 {
      assert s[0..] == s;
    } else {
      assert s == "0" + s[1..] && s[n..] == s[1..][n - 1..];
      LeadingZeroDrops(s[1..]);
      LeadingZerosDrop(s[1..], n - 1);
    }
  }

  /** Zeros at the end move the exponent. */
  lemma {:induction false} TrailingZerosScale(s: string, r: nat, exponent: int)
    requires r <= |s| && AllDecimal(s) && forall i :: r <= i < |s| ==> s[i] == '0'
    ensures Scaled(s, exponent) == Scaled(s[..r], exponent + |s| - r)
    decreases |s|
  {
    if r == |s| {
      assert s[..r] == s;
    } else {
      var t := s[..|s| - 1];
      TrailingZerosScale(t, r, exponent + 1);
      assert t[..r] == s[..r];
      Pow10Step(exponent);
      var m, p := DecimalValue(t) as real, Pow10(exponent);
      assert DecimalValue(s) as real == 10.0 * m;
      assert (10.0 * m) * p == m * (10.0 * p);
    }
  }

  // ----- the layout is exact -----

  lemma NormalizeExact(n: Numeral)
    requires AllDecimal(n.intPart) && AllDecimal(n.fracPart)
    ensures AllDecimal(Normalize(n).digits)
    ensures ValueOf(n) == Scaled(Normalize(n).digits, Normalize(n).point - |Normalize(n).digits|)
    ensures var d := Normalize(n).digits; d != "" ==> d[0] != '0' && d[|d| - 1] != '0'
  {
    var digits, exponent := n.intPart + n.fracPart, n.exponent - |n.fracPart|;
    var lead := LeadingZeros(digits);
    var rest := digits[lead..];
    hide Pow10, DecimalValue, Scaled;
    LeadingZerosScale(digits, lead, exponent);
    TrailingZerosScale(rest, |StripTrailing(rest)|, exponent);
  }

  lemma ReadPlain(digits: string)
    requires digits != "" && AllDecimal(digits)
    ensures IsNumeral(digits) && Read(digits) == Numeral(digits, "", 0)
  {
    CutNone(digits, 'e');
    CutNone(digits, '.');
    hide CutBefore, CutAfter;
  }

  lemma ReadPointed(intPart: string, fracPart: string)
    requires intPart != "" && AllDecimal(intPart) && AllDecimal(fracPart)
    ensures IsNumeral(Pointed(intPart, fracPart)) && Read(Pointed(intPart, fracPart)) == Numeral(intPart, fracPart, 0)
  {
    CutNone(Pointed(intPart, fracPart), 'e');
    CutAt(intPart, '.', fracPart);
    hide CutBefore, CutAfter;
  }

  lemma ReadExponent(e: int)
    ensures var x := (if e >= 0 then "+" else "-") + Decimal(if e >= 0 then e else -e);
            IsExponent(x) && ExponentValue(x) == e
  {
    var magnitude := if e >= 0 then e else -e;
    var x := (if e >= 0 then "+" else "-") + Decimal(magnitude);
    assert x[1..] == Decimal(magnitude);
    DecimalRoundTrip(magnitude);
  }

  lemma LeadingDigitMantissa(d: string)
    requires d != "" && AllDecimal(d)
    ensures var m := [d[0]] + if |d| > 1 then "." + d[1..] else "";
            Avoids('e', m) && CutBefore(m, '.') == [d[0]] && CutAfter(m, '.') == d[1..]
  {
    if |d| > 1 {
      CutAt([d[0]], '.', d[1..]);
    } else {
      CutNone([d[0]], '.');
      assert [d[0]] + "" == [d[0]];
    }
  }

  lemma ReadScientific(d: string, e: int)
    requires d != "" && AllDecimal(d)
    ensures IsNumeral(Scientific(d, e)) && Read(Scientific(d, e)) == Numeral([d[0]], d[1..], e)
  {
    hide CutBefore, CutAfter, IsExponent, ExponentValue, Decimal;
    var mantissa := [d[0]] + if |d| > 1 then "." + d[1..] else "";
    var x := (if e >= 0 then "+" else "-") + Decimal(if e >= 0 then e else -e);
    ReadExponent(e);
    LeadingDigitMantissa(d);
    CutAt(mantissa, 'e', x);
    assert Scientific(d, e) == mantissa + (['e'] + x);
  }

  /** Each of the four layouts denotes the significand it was made from. */
  lemma LayoutExact(s: Significand)
    requires s.digits != "" && AllDecimal(s.digits)
    ensures IsNumeral(Layout(s)) && NumeralValue(Layout(s)) == Scaled(s.digits, s.point - |s.digits|)
  {
    hide IsNumeral, Read, Pow10, Pointed, Scientific, DecimalValue, Scaled;
    var d, k, n := s.digits, |s.digits|, s.point;
    if k <= n <= 21 {
      var padded := d + Zeros(n - k);
      ReadPlain(padded);
      TrailingZerosScale(padded, k, 0);
      assert padded[..k] == d && padded + "" == padded;
    } else if 0 < n <= 21 {
      ReadPointed(d[..n], d[n..]);
      assert d[..n] + d[n..] == d;
    } else if -6 < n <= 0 {
      var frac := Zeros(-n) + d;
      ReadPointed("0", frac);
      LeadingZerosScale("0" + frac, 1 - n, n - k);
      assert ("0" + frac)[1 - n..] == d;
    } else {
      ReadScientific(d, n - 1);
      assert [d[0]] + d[1..] == d;
    }
  }

  lemma LeadingZerosScale(s: string, n: nat, exponent: int)
    requires n <= |s| && AllDecimal(s) && forall i :: 0 <= i < n ==> s[i] == '0'
    ensures Scaled(s[n..], exponent) == Scaled(s, exponent)
  {
    LeadingZerosDrop(s, n);
  }

  // ----- the layout is canonical -----

  /** The number a printed text denotes: a minus sign, then a numeral. */
  ghost predicate Denotes(text: string, value: real) {
    if text != "" && text[0] == '-' then IsNumeral(text[1..]) && value == -NumeralValue(text[1..])
    else IsNumeral(text) && value == NumeralValue(text)
  }

  /** Every finite double prints as text that denotes exactly that double. */
  lemma Exact(x: Double)
    requires x.Finite? && IsDouble(x)
    ensures EsNumber(x).Ok? && Denotes(EsNumber(x).value, Value(x))
  {
    hide Normalize, Layout, Denotes, NumeralValue, IsNumeral, ValueOf, Scaled, Read;
    var n := Read(x.repr);
    NormalizeExact(n);
    assert NumeralValue(x.repr) == ValueOf(n) by { ValueOfRead(x.repr); }
    var s := Normalize(n);
    if s.digits == "" {
      ZeroNumeral();
      ZeroValue(s.point);
      DenotesLayout("0", 0.0);
    } else {
      LayoutExact(s);
      DenotesLayout(Layout(s), NumeralValue(x.repr));
      assert "" + Layout(s) == Layout(s);
    }
  }

  lemma ValueOfRead(s: string)
    requires IsNumeral(s)
    ensures NumeralValue(s) == ValueOf(Read(s))
  {
  }

  lemma DenotesLayout(s: string, value: real)
    requires IsNumeral(s) && NumeralValue(s) == value
    ensures Denotes(s, value) && Denotes("-" + s, -value)
  {
    NumeralStartsWithDigit(s);
    assert ("-" + s)[1..] == s;
  }

  lemma ZeroValue(e: int)
    ensures Scaled("", e) == 0.0
  {
    assert DecimalValue("") == 0;
  }

  lemma ZeroNumeral()
    ensures IsNumeral("0") && NumeralValue("0") == 0.0
  {
    ReadPlain("0");
    LeadingZerosScale("0", 1, 0);
    ZeroValue(0);
    assert "0" + "" == "0" && "0"[1..] == "";
  }

  lemma NumeralStartsWithDigit(s: string)
    requires IsNumeral(s)
    ensures s != "" && IsDecimalDigit(s[0])
  {
    var mantissa := CutBefore(s, 'e');
    assert CutBefore(mantissa, '.')[0] == s[0];
  }

  // ----- equal numbers print alike -----

  /** Digits that are a number's only significand: no zero at either end. */
  predicate IsReduced(d: string) {
    d != "" && AllDecimal(d) && d[0] != '0' && d[|d| - 1] != '0'
  }

  function PowInt(n: nat): nat {
    if n == 0 then 1 else 10 * PowInt(n - 1)
  }

  lemma {:induction false} PowIntIsPow10(n: nat)
    ensures Pow10(n) == PowInt(n) as real
  {
    if n > 0 {
      PowIntIsPow10(n - 1);
    }
  }

  lemma {:induction false} DecimalOfValue(d: string)
    requires d != "" && AllDecimal(d) && d[0] != '0'
    ensures Decimal(DecimalValue(d)) == d && DecimalValue(d) > 0
  {
    var n := |d| - 1;
    if n == 0 {
      assert DecimalValue(d[..0]) == 0;
    } else {
      DecimalOfValue(d[..n]);
      assert d == d[..n] + [d[n]];
    }
  }

  lemma LastDigit(d: string)
    requires IsReduced(d)
    ensures DecimalValue(d) % 10 != 0
  {
  }

  lemma ExponentsAgree(c: string, a: int, d: string, b: int)
    requires IsReduced(c) && IsReduced(d) && Scaled(c, a) == Scaled(d, b)
    ensures a >= b
  {
    if a < b {
      hide Pow10, PowInt, DecimalValue, Scaled;
      var n := b - a;
      LargerExponent(c, a, d, n);
      TenDivides(DecimalValue(c), DecimalValue(d), n);
      LastDigit(c);
      assert false;
    }
  }

  lemma LargerExponent(c: string, a: int, d: string, n: nat)
    requires AllDecimal(c) && AllDecimal(d) && Scaled(c, a) == Scaled(d, a + n)
    ensures DecimalValue(c) == DecimalValue(d) * PowInt(n)
  {
    Pow10Adds(a, n);
    PowIntIsPow10(n);
    Pow10Positive(a);
    hide Pow10, PowInt, DecimalValue;
    var p, x, y, q := Pow10(a), DecimalValue(c), DecimalValue(d), PowInt(n);
    Reorder(y as real, p, q as real);
    CancelReal(x as real, y as real * q as real, p);
    assert x as real == (y * q) as real;
  }

  lemma Reorder(y: real, p: real, q: real)
    ensures y * (p * q) == (y * q) * p
  {
  }

  lemma TenDivides(x: nat, y: nat, n: nat)
    requires n > 0 && x == y * PowInt(n)
    ensures x % 10 == 0
  {
    assert x == 10 * (y * PowInt(n - 1));
  }

  lemma CancelReal(x: real, y: real, p: real)
    requires p > 0.0 && x * p == y * p
    ensures x == y
  {
    assert (x - y) * p == 0.0;
  }

  lemma SignificandUnique(c: string, a: int, d: string, b: int)
    requires IsReduced(c) && IsReduced(d) && Scaled(c, a) == Scaled(d, b)
    ensures c == d && a == b
  {
    ExponentsAgree(c, a, d, b);
    ExponentsAgree(d, b, c, a);
    Pow10Positive(a);
    CancelReal(DecimalValue(c) as real, DecimalValue(d) as real, Pow10(a));
    DecimalOfValue(c);
    DecimalOfValue(d);
  }

  lemma ReducedPositive(d: string, e: int)
    requires IsReduced(d)
    ensures Scaled(d, e) > 0.0
  {
    DecimalOfValue(d);
    Pow10Positive(e);
    var x, p := DecimalValue(d) as real, Pow10(e);
    assert x * p > 0.0;
  }

  lemma SameNumberSameSignificand(x: Double, y: Double)
    requires x.Finite? && y.Finite? && IsDouble(x) && IsDouble(y) && Value(x) == Value(y)
    ensures var s, t := Normalize(Read(x.repr)), Normalize(Read(y.repr));
            && (s.digits == "" <==> t.digits == "")
            && (s.digits != "" ==> s == t && x.negative == y.negative)
  {
    hide Normalize, Scaled, Read, IsNumeral, Value, IsReduced;
    var s, t := Normalize(Read(x.repr)), Normalize(Read(y.repr));
    SignificandOf(x);
    SignificandOf(y);
    if s.digits != "" {
      ReducedPositive(s.digits, s.point - |s.digits|);
    }
    if t.digits != "" {
      ReducedPositive(t.digits, t.point - |t.digits|);
    }
    if s.digits != "" && t.digits != "" {
      SignificandUnique(s.digits, s.point - |s.digits|, t.digits, t.point - |t.digits|);
    }
  }

  /** Two finite doubles print the same text exactly when they are the same number. */
  lemma Canonical(x: Double, y: Double)
    requires x.Finite? && y.Finite? && IsDouble(x) && IsDouble(y)
    ensures EsNumber(x) == EsNumber(y) <==> Value(x) == Value(y)
  {
    if EsNumber(x) == EsNumber(y) {
      Exact(x);
      Exact(y);
    }
    if Value(x) == Value(y) {
      SameNumberSameSignificand(x, y);
    }
    hide Normalize, Layout, Read, IsNumeral, Value, NumeralValue;
  }

  lemma SignificandOf(x: Double)
    requires x.Finite? && IsDouble(x)
    ensures var s := Normalize(Read(x.repr));
            && (s.digits == "" || IsReduced(s.digits))
            && (s.digits == "" ==> Value(x) == 0.0)
            && (s.digits != "" ==> Value(x) == if x.negative then -Scaled(s.digits, s.point - |s.digits|)
                                               else Scaled(s.digits, s.point - |s.digits|))
  {
    hide Normalize, Scaled, Read, IsNumeral, ValueOf;
    NormalizeExact(Read(x.repr));
    ValueOfRead(x.repr);
    ZeroValue(Normalize(Read(x.repr)).point);
  }
}
