/** The format-preserving generators for Indian identifiers: fixed shapes, and
    exactly when two vault ids give the same fake value. */
module FormatPreserving {
  import opened Text

  /** Vault ids are `u32`. */
  type Id = n: nat | n < 0x1_0000_0000

  // ----- zero-padded decimals -----

  /** `{n:0w}` */
  function Padded(n: nat, w: nat): (s: string)
    ensures |s| >= w && AllDecimal(s)
  {
    var d := Decimal(n);
    if |d| >= w then d else Zeros(w - |d|) + d
  }

  lemma {:induction false} ZerosHaveNoValue(k: nat, s: string)
    requires AllDecimal(s)
    ensures AllDecimal(Zeros(k) + s) && DecimalValue(Zeros(k) + s) == DecimalValue(s)
    decreases |s|, k
  {
    if s != "" {
      var init := s[..|s| - 1];
      ZerosHaveNoValue(k, init);
      assert (Zeros(k) + s)[..|Zeros(k) + s| - 1] == Zeros(k) + init;
    } else if k > 0 {
      ZerosHaveNoValue(k - 1, "");
      assert Zeros(k) + "" == Zeros(k) && Zeros(k)[..k - 1] == Zeros(k - 1) == Zeros(k - 1) + "";
    } else {
      assert Zeros(0) + "" == "";
    }
  }

  lemma PaddedValue(n: nat, w: nat)
    ensures DecimalValue(Padded(n, w)) == n
  {
    hide Decimal, DecimalValue, Zeros;
    DecimalRoundTrip(n);
    if |Decimal(n)| < w {
      ZerosHaveNoValue(w - |Decimal(n)|, Decimal(n));
    }
  }

  lemma PaddedInjective(m: nat, n: nat, w: nat)
    requires Padded(m, w) == Padded(n, w)
    ensures m == n
  {
    PaddedValue(m, w);
    PaddedValue(n, w);
  }

  lemma {:induction false} DecimalLength(n: nat, w: nat, bound: nat)
    requires 0 < w && n < bound && bound == Power10(w)
    ensures |Decimal(n)| <= w
  {
    if n >= 10 {
      DecimalLength(n / 10, w - 1, Power10(w - 1));
    }
  }

  function Power10(w: nat): (p: nat)
    ensures p > 0
  {
    if w == 0 then 1 else 10 * Power10(w - 1)
  }

  lemma Powers()
    ensures Power10(2) == 100 && Power10(4) == 10_000 && Power10(5) == 100_000
  {
    assert Power10(1) == 10 && Power10(3) == 1000;
  }

  lemma PaddedLength(n: nat, w: nat)
    requires 0 < w && n < Power10(w)
    ensures |Padded(n, w)| == w
  {
    DecimalLength(n, w, Power10(w));
  }

  // ----- the generators -----

  const LETTERS := "ABCDEFGHJKLMNPQRSTUVWXYZ"

  function Letter(id: Id, i: nat): char {
    LETTERS[(id + i * 7) % 24]
  }

  function Digit(n: nat): char {
    DigitChar(n % 10)
  }

  function FakePan(id: Id): string {
    [Letter(id, 0), Letter(id, 1), Letter(id, 2), Letter(id, 3), Letter(id, 4),
     Digit(id), Digit(id / 10), Digit(id / 100), Digit(id / 1000), Letter(id, 5)]
  }

  function FakeGstin(id: Id): string {
    Padded(id % 36 + 1, 2) + (FakePan(id) + "1ZV")
  }

  function FakeAadhaar(id: Id): string {
    Padded(5555 + id % 4444, 4) + (" " + (Padded(1000 + id * 7 % 8999, 4) + (" " + Padded(1000 + id * 13 % 8999, 4))))
  }

  /** The form of a phone number that starts with +91. */
  function FakeIndianPhone(id: Id): string {
    "+91 " + (Padded(55500 + id % 99999, 5) + (" " + Padded(10000 + id * 7 % 89999, 5)))
  }

  // ----- shapes -----

  predicate IsLetter(c: char) {
    'A' <= c <= 'Z'
  }

  lemma LetterIsLetter(id: Id, i: nat)
    ensures IsLetter(Letter(id, i))
  {
  }

  /** Five letters, four digits, one letter. */
  predicate PanShaped(s: string) {
    |s| == 10 && (forall i :: 0 <= i < 5 ==> IsLetter(s[i])) && AllDecimal(s[5..9]) && IsLetter(s[9])
  }

  lemma PanShape(id: Id)
    ensures PanShaped(FakePan(id))
  {
    hide Letter, Digit;
    LetterIsLetter(id, 0);
    LetterIsLetter(id, 1);
    LetterIsLetter(id, 2);
    LetterIsLetter(id, 3);
    LetterIsLetter(id, 4);
    LetterIsLetter(id, 5);
    DigitsAreDigits(id);
  }

  lemma DigitsAreDigits(id: Id)
    ensures IsDecimalDigit(Digit(id)) && IsDecimalDigit(Digit(id / 10)) && IsDecimalDigit(Digit(id / 100))
    ensures IsDecimalDigit(Digit(id / 1000))
  {
  }

  /** Two digits, a PAN, `1ZV`. */
  lemma GstinShape(id: Id)
    ensures var s := FakeGstin(id);
            |s| == 15 && AllDecimal(s[..2]) && PanShaped(s[2..12]) && s[12..] == "1ZV"
  {
    hide Padded, FakePan, PanShaped;
    Powers();
    PaddedLength(id % 36 + 1, 2);
    PanShape(id);
    PanLength(id);
    var s := FakeGstin(id);
    assert s[..2] == Padded(id % 36 + 1, 2) && s[2..12] == FakePan(id) && s[12..] == "1ZV";
  }

  lemma PanLength(id: Id)
    ensures |FakePan(id)| == 10
  {
  }

  /** Three groups of four digits. */
  lemma AadhaarShape(id: Id)
    ensures var s := FakeAadhaar(id);
            |s| == 14 && AllDecimal(s[..4]) && s[4] == ' ' && AllDecimal(s[5..9]) && s[9] == ' ' && AllDecimal(s[10..])
  {
    hide Padded;
    Powers();
    var a, b, c := Padded(5555 + id % 4444, 4), Padded(1000 + id * 7 % 8999, 4), Padded(1000 + id * 13 % 8999, 4);
    PaddedLength(5555 + id % 4444, 4);
    PaddedLength(1000 + id * 7 % 8999, 4);
    PaddedLength(1000 + id * 13 % 8999, 4);
    var s := FakeAadhaar(id);
    assert s[..4] == a && s[5..9] == b && s[10..] == c;
  }

  // ----- exact collision periods -----

  lemma LettersDiffer(i: nat, j: nat)
    requires i < 24 && j < 24 && LETTERS[i] == LETTERS[j]
    ensures i == j
  {
  }

  lemma FirstLetter(i: Id, j: Id)
    requires Letter(i, 0) == Letter(j, 0)
    ensures i % 24 == j % 24
  {
    LettersDiffer(i % 24, j % 24);
  }

  lemma DigitsAgree(m: nat, n: nat)
    requires Digit(m) == Digit(n)
    ensures m % 10 == n % 10
  {
    assert DigitChar(m % 10) as int - '0' as int == m % 10;
    assert DigitChar(n % 10) as int - '0' as int == n % 10;
  }

  lemma FourDigits(n: nat)
    ensures n % 10_000 == n % 10 + 10 * (n / 10 % 10) + 100 * (n / 100 % 10) + 1000 * (n / 1000 % 10)
  {
    var a, b, c := n / 10, n / 100, n / 1000;
    assert a / 10 == b && b / 10 == c;
    assert n == 10 * a + n % 10 && a == 10 * b + a % 10 && b == 10 * c + b % 10 && c == 10 * (c / 10) + c % 10;
    var low := n % 10 + 10 * (a % 10) + 100 * (b % 10) + 1000 * (c % 10);
    assert n == 10_000 * (c / 10) + low && low < 10_000;
    SameResidue(n, low, 10_000, c / 10);
  }

  lemma TwoModuli(i: nat, j: nat, p: nat, q: nat, u: int, v: int)
    requires p > 0 && q > 0 && u * p + v * q == 1
    requires i % p == j % p && i % q == j % q
    ensures exists k :: i - j == k * (p * q)
  {
    var a, b := i / p - j / p, i / q - j / q;
    Difference(i, j, p);
    Difference(i, j, q);
    calc {
      i - j;
      (i - j) * (u * p + v * q);
      (i - j) * (u * p) + (i - j) * (v * q);
      (b * q) * (u * p) + (a * p) * (v * q);
      { Commute(b, q, u, p); Commute(a, p, v, q); }
      (b * u) * (p * q) + (a * v) * (p * q);
      (b * u + a * v) * (p * q);
    }
  }

  lemma Commute(b: int, q: int, u: int, p: int)
    ensures (b * q) * (u * p) == (b * u) * (p * q)
  {
  }

  lemma Difference(i: nat, j: nat, p: nat)
    requires p > 0 && i % p == j % p
    ensures i - j == (i / p - j / p) * p
  {
    assert i == i / p * p + i % p && j == j / p * p + j % p;
  }

  lemma SameResidue(i: nat, j: nat, m: nat, k: int)
    requires m > 0 && i - j == k * m
    ensures i % m == j % m
  {
    var a, b := i / m, j / m;
    assert i == a * m + i % m && j == b * m + j % m;
    var d := k - a + b;
    assert i % m - j % m == d * m by {
      assert d * m == k * m - a * m + b * m;
    }
    if d >= 1 {
      AtLeastOnce(d, m);
      assert false;
    } else if d <= -1 {
      AtLeastOnce(-d, m);
      assert false;
    }
  }

  lemma AtLeastOnce(d: int, m: nat)
    requires d >= 1
    ensures d * m >= m && (-d) * m == -(d * m)
  {
  }

  /** Equal residues are equal residues of every divisor of the modulus. */
  lemma Coarsen(i: nat, j: nat, q: nat, r: nat)
    requires q > 0 && r > 0 && i % (q * r) == j % (q * r)
    ensures i % q == j % q
  {
    Difference(i, j, q * r);
    var k := i / (q * r) - j / (q * r);
    Reorder(k, q, r);
    SameResidue(i, j, q, k * r);
  }

  lemma Reorder(k: int, q: int, r: int)
    ensures k * (q * r) == (k * r) * q
  {
  }

  /** Fake PANs repeat exactly with period 30000. */
  lemma PanPeriod(i: Id, j: Id)
    ensures FakePan(i) == FakePan(j) <==> i % 30_000 == j % 30_000
  {
    hide Letter, Digit, DigitChar;
    var x, y := FakePan(i), FakePan(j);
    if x == y {
      assert x[0] == y[0] && x[5] == y[5] && x[6] == y[6] && x[7] == y[7] && x[8] == y[8];
      FirstLetter(i, j);
      DigitsAgree(i, j);
      DigitsAgree(i / 10, j / 10);
      DigitsAgree(i / 100, j / 100);
      DigitsAgree(i / 1000, j / 1000);
      FourDigits(i);
      FourDigits(j);
      PanModuli(i, j);
    }
    if i % 30_000 == j % 30_000 {
      SamePan(i, j);
    }
  }

  lemma PanModuli(i: nat, j: nat)
    requires i % 24 == j % 24 && i % 10_000 == j % 10_000
    ensures i % 30_000 == j % 30_000
  {
    Coarsen(i, j, 3, 8);
    TwoModuli(i, j, 3, 10_000, -3333, 1);
    var k :| i - j == k * (3 * 10_000);
    SameResidue(i, j, 30_000, k);
  }

  lemma SameLetter(i: Id, j: Id, n: nat)
    requires i % 24 == j % 24
    ensures Letter(i, n) == Letter(j, n)
  {
    Difference(i, j, 24);
    SameResidue(i + n * 7, j + n * 7, 24, i / 24 - j / 24);
  }

  lemma SamePan(i: Id, j: Id)
    requires i % 30_000 == j % 30_000
    ensures FakePan(i) == FakePan(j)
  {
    Coarsen(i, j, 24, 1250);
    SameDigits(i, j);
    hide Letter, DigitChar;
    SameLetter(i, j, 0);
    SameLetter(i, j, 1);
    SameLetter(i, j, 2);
    SameLetter(i, j, 3);
    SameLetter(i, j, 4);
    SameLetter(i, j, 5);
  }

  lemma SameDigits(i: Id, j: Id)
    requires i % 30_000 == j % 30_000
    ensures Digit(i) == Digit(j) && Digit(i / 10) == Digit(j / 10) && Digit(i / 100) == Digit(j / 100)
    ensures Digit(i / 1000) == Digit(j / 1000)
  {
    Difference(i, j, 30_000);
    var k := i / 30_000 - j / 30_000;
    SameResidue(i, j, 10, 3000 * k);
    SameResidue(i / 10, j / 10, 10, 300 * k);
    SameResidue(i / 100, j / 100, 10, 30 * k);
    SameResidue(i / 1000, j / 1000, 10, 3 * k);
    hide DigitChar;
  }

  /** Fake GSTINs repeat exactly with period 90000. */
  lemma GstinPeriod(i: Id, j: Id)
    ensures FakeGstin(i) == FakeGstin(j) <==> i % 90_000 == j % 90_000
  {
    hide Padded, FakePan;
    if FakeGstin(i) == FakeGstin(j) {
      GstinParts(i, j);
      PanPeriod(i, j);
      GstinModuli(i, j);
    }
    if i % 90_000 == j % 90_000 {
      Coarsen(i, j, 36, 2500);
      Coarsen(i, j, 30_000, 3);
      PanPeriod(i, j);
    }
  }

  lemma GstinParts(i: Id, j: Id)
    requires FakeGstin(i) == FakeGstin(j)
    ensures i % 36 == j % 36 && FakePan(i) == FakePan(j)
  {
    hide Padded, FakePan;
    Powers();
    PaddedLength(i % 36 + 1, 2);
    PaddedLength(j % 36 + 1, 2);
    ConcatCancels(Padded(i % 36 + 1, 2), FakePan(i) + "1ZV", Padded(j % 36 + 1, 2), FakePan(j) + "1ZV");
    PaddedInjective(i % 36 + 1, j % 36 + 1, 2);
    PanLength(i);
    PanLength(j);
    ConcatCancels(FakePan(i), "1ZV", FakePan(j), "1ZV");
  }

  lemma GstinModuli(i: nat, j: nat)
    requires i % 36 == j % 36 && i % 30_000 == j % 30_000
    ensures i % 90_000 == j % 90_000
  {
    Coarsen(i, j, 9, 4);
    Coarsen(i, j, 10_000, 3);
    TwoModuli(i, j, 9, 10_000, -1111, 1);
    var k :| i - j == k * (9 * 10_000);
    SameResidue(i, j, 90_000, k);
  }

  lemma ScaleBack(d: int, f: int, m: int, k: int, u: int, v: int)
    requires d * f == k * m && u * f + v * m == 1
    ensures d == (u * k + d * v) * m
  {
    calc {
      d;
      d * (u * f + v * m);
      d * (u * f) + d * (v * m);
      { Rotate(d, u, f); Rotate(d, v, m); }
      u * (k * m) + (d * v) * m;
      { Rotate(u, k, m); }
      (u * k) * m + (d * v) * m;
      (u * k + d * v) * m;
    }
  }

  lemma Factored(i: int, j: int, f: int)
    ensures i * f - j * f == (i - j) * f
  {
  }

  /** A factor coprime to the modulus does not matter. */
  lemma CancelFactor(i: nat, j: nat, f: nat, m: nat, u: int, v: int)
    requires m > 0 && u * f + v * m == 1
    ensures i * f % m == j * f % m <==> i % m == j % m
  {
    Factored(i, j, f);
    if i * f % m == j * f % m {
      FactorCancels(i, j, f, m, u, v);
    }
    if i % m == j % m {
      FactorKeeps(i, j, f, m);
    }
  }

  lemma FactorCancels(i: nat, j: nat, f: nat, m: nat, u: int, v: int)
    requires m > 0 && u * f + v * m == 1 && i * f % m == j * f % m
    ensures i % m == j % m
  {
    Factored(i, j, f);
    Difference(i * f, j * f, m);
    var k := i * f / m - j * f / m;
    ScaleBack(i - j, f, m, k, u, v);
    SameResidue(i, j, m, u * k + (i - j) * v);
  }

  lemma FactorKeeps(i: nat, j: nat, f: nat, m: nat)
    requires m > 0 && i % m == j % m
    ensures i * f % m == j * f % m
  {
    Factored(i, j, f);
    Difference(i, j, m);
    var k := i / m - j / m;
    Rotate(f, k, m);
    SameResidue(i * f, j * f, m, f * k);
  }

  lemma Rotate(d: int, u: int, f: int)
    ensures d * (u * f) == u * (d * f) == (d * u) * f
  {
  }

  /** Fake Aadhaar numbers repeat exactly with period 4444 * 8999. */
  lemma AadhaarPeriod(i: Id, j: Id)
    ensures FakeAadhaar(i) == FakeAadhaar(j) <==> i % 39_991_556 == j % 39_991_556
  {
    hide Padded;
    CancelFactor(i, j, 7, 8999, -2571, 2);
    CancelFactor(i, j, 13, 8999, 2769, -4);
    if FakeAadhaar(i) == FakeAadhaar(j) {
      AadhaarParts(i, j);
      AadhaarModuli(i, j);
    }
    if i % 39_991_556 == j % 39_991_556 {
      Difference(i, j, 39_991_556);
      var k := i / 39_991_556 - j / 39_991_556;
      SameResidue(i, j, 4444, k * 8999);
      SameResidue(i, j, 8999, k * 4444);
    }
  }

  lemma AadhaarParts(i: Id, j: Id)
    requires FakeAadhaar(i) == FakeAadhaar(j)
    ensures i % 4444 == j % 4444 && i * 7 % 8999 == j * 7 % 8999
  {
    hide Padded;
    Powers();
    var a, b := 5555 + i % 4444, 5555 + j % 4444;
    var c, d := 1000 + i * 7 % 8999, 1000 + j * 7 % 8999;
    var e, f := Padded(1000 + i * 13 % 8999, 4), Padded(1000 + j * 13 % 8999, 4);
    PaddedLength(a, 4);
    PaddedLength(b, 4);
    PaddedLength(c, 4);
    PaddedLength(d, 4);
    ConcatCancels(Padded(a, 4), " " + (Padded(c, 4) + (" " + e)), Padded(b, 4), " " + (Padded(d, 4) + (" " + f)));
    ConcatCancels(" ", Padded(c, 4) + (" " + e), " ", Padded(d, 4) + (" " + f));
    ConcatCancels(Padded(c, 4), " " + e, Padded(d, 4), " " + f);
    PaddedInjective(a, b, 4);
    PaddedInjective(c, d, 4);
  }

  lemma AadhaarModuli(i: nat, j: nat)
    requires i % 4444 == j % 4444 && i % 8999 == j % 8999
    ensures i % 39_991_556 == j % 39_991_556
  {
    TwoModuli(i, j, 4444, 8999, 2270, -1121);
    var k :| i - j == k * (4444 * 8999);
    SameResidue(i, j, 39_991_556, k);
  }

  lemma SevenDivides(i: nat, j: nat)
    ensures i * 7 % 89_999 == j * 7 % 89_999 <==> i % 12_857 == j % 12_857
  {
    assert i * 7 % 89_999 == 7 * (i % 12_857);
    assert j * 7 % 89_999 == 7 * (j % 12_857);
  }

  lemma PhoneParts(i: Id, j: Id)
    requires FakeIndianPhone(i) == FakeIndianPhone(j)
    ensures i % 99_999 == j % 99_999 && i * 7 % 89_999 == j * 7 % 89_999
  {
    hide Padded;
    Powers();
    var a, b := 55_500 + i % 99_999, 55_500 + j % 99_999;
    var c, d := 10_000 + i * 7 % 89_999, 10_000 + j * 7 % 89_999;
    ConcatCancels("+91 ", Padded(a, 5) + (" " + Padded(c, 5)), "+91 ", Padded(b, 5) + (" " + Padded(d, 5)));
    SplitUnique(IsDecimalDigit, Padded(a, 5), " " + Padded(c, 5), Padded(b, 5), " " + Padded(d, 5));
    ConcatCancels(" ", Padded(c, 5), " ", Padded(d, 5));
    PaddedInjective(a, b, 5);
    PaddedInjective(c, d, 5);
  }

  /** Fake Indian phone numbers repeat exactly with period 99999 * 12857: the
      factor 7 divides the second modulus, which shortens it sevenfold. */
  lemma IndianPhonePeriod(i: Id, j: Id)
    ensures FakeIndianPhone(i) == FakeIndianPhone(j) <==> i % 1_285_687_143 == j % 1_285_687_143
  {
    hide Padded;
    SevenDivides(i, j);
    if FakeIndianPhone(i) == FakeIndianPhone(j) {
      PhoneParts(i, j);
      TwoModuli(i, j, 99_999, 12_857, 9, -70);
      var k :| i - j == k * (99_999 * 12_857);
      SameResidue(i, j, 1_285_687_143, k);
    }
    if i % 1_285_687_143 == j % 1_285_687_143 {
      Difference(i, j, 1_285_687_143);
      var k := i / 1_285_687_143 - j / 1_285_687_143;
      SameResidue(i, j, 99_999, k * 12_857);
      SameResidue(i, j, 12_857, k * 99_999);
    }
  }
}
