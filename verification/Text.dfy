/** Text helpers shared by the encoders: decimals, hexadecimal, unique splits,
    and the iteration order of `BTreeMap` / `BTreeSet`. */
module Text {
  import opened Ordering

  datatype Option<+T> = None | Some(value: T)

  datatype Result<+T, +E> = Ok(value: T) | Err(error: E)

  newtype byte = x: int | 0 <= x < 256

  /** A 32-byte digest (`[u8; 32]`). */
  type Digest = d: seq<byte> | |d| == 32 witness seq(32, _ => 0)

  const ZERO_DIGEST: Digest :=
    [0, 0, 0, 0, 0, 0, 0, 0, 0, 0, 0, 0, 0, 0, 0, 0, 0, 0, 0, 0, 0, 0, 0, 0, 0, 0, 0, 0, 0, 0, 0, 0]

  // ----- decimals -----

  predicate IsDecimalDigit(c: char) {
    '0' <= c <= '9'
  }

  predicate AllDecimal(s: string) {
    forall i :: 0 <= i < |s| ==> IsDecimalDigit(s[i])
  }

  function DigitChar(d: nat): (c: char)
    requires d < 10
    ensures IsDecimalDigit(c) && c as int - '0' as int == d
  {
    '0' + d as char
  }

  function Decimal(n: nat): (s: string)
    ensures s != "" && AllDecimal(s)
  {
    if n < 10 then [DigitChar(n)] else Decimal(n / 10) + [DigitChar(n % 10)]
  }

  function DecimalValue(s: string): nat
    requires AllDecimal(s)
  {
    if s == "" then 0
    else 10 * DecimalValue(s[..|s| - 1]) + (s[|s| - 1] as int - '0' as int)
  }

  function Zeros(n: nat): (s: string)
    ensures |s| == n && AllDecimal(s)
  {
    seq(n, _ => '0')
  }

  lemma {:induction false} DecimalRoundTrip(n: nat)
    ensures DecimalValue(Decimal(n)) == n
  {
    if n >= 10 {
      DecimalRoundTrip(n / 10);
      assert Decimal(n)[..|Decimal(n)| - 1] == Decimal(n / 10);
    } else {
      assert DecimalValue("") == 0;
    }
  }

  lemma DecimalInjective(m: nat, n: nat)
    requires Decimal(m) == Decimal(n)
    ensures m == n
  {
    DecimalRoundTrip(m);
    DecimalRoundTrip(n);
  }

  /** Signed decimals, as `i64` prints. */
  function DecimalInt(i: int): string {
    if i < 0 then "-" + Decimal(-i) else Decimal(i)
  }

  lemma DecimalIntInjective(i: int, j: int)
    requires DecimalInt(i) == DecimalInt(j)
    ensures i == j
  {
    assert (DecimalInt(i)[0] == '-') == (i < 0);
    assert (DecimalInt(j)[0] == '-') == (j < 0);
    if i < 0 {
      assert DecimalInt(i)[1..] == Decimal(-i) && DecimalInt(j)[1..] == Decimal(-j);
      DecimalInjective(-i, -j);
    } else {
      DecimalInjective(i, j);
    }
  }

  // ----- unique splits -----

  predicate All(p: char -> bool, s: string) {
    forall i :: 0 <= i < |s| ==> p(s[i])
  }

  /** `s` is empty or starts with a character outside `p`. */
  predicate Stops(p: char -> bool, s: string) {
    s != "" ==> !p(s[0])
  }

  lemma Overlap(a: string, x: string, b: string, y: string)
    requires a + x == b + y && |a| < |b|
    ensures x != "" && x[0] == b[|a|]
  {
    assert (a + x)[|a|] == (b + y)[|a|];
  }

  /** The longest prefix inside `p` is found in one way only. */
  lemma SplitUnique(p: char -> bool, a: string, x: string, b: string, y: string)
    requires All(p, a) && All(p, b) && Stops(p, x) && Stops(p, y)
    requires a + x == b + y
    ensures a == b && x == y
  {
    if |a| < |b| {
      Overlap(a, x, b, y);
      assert false;
    } else if |b| < |a| {
      Overlap(b, y, a, x);
      assert false;
    }
    assert a == (a + x)[..|a|] && b == (b + y)[..|b|];
    assert x == (a + x)[|a|..] && y == (b + y)[|b|..];
  }

  /** A text without `c`. */
  predicate Avoids(c: char, s: string) {
    forall i :: 0 <= i < |s| ==> s[i] != c
  }

  /** `str.partition`: the text before the first `c` and the text after it. */
  function CutBefore(s: string, c: char): (r: string)
    ensures |r| <= |s| && Avoids(c, r) && r == s[..|r|] && (|r| < |s| ==> s[|r|] == c)
  {
    if s == "" || s[0] == c then "" else [s[0]] + CutBefore(s[1..], c)
  }

  function CutAfter(s: string, c: char): string {
    var n := |CutBefore(s, c)|;
    if n == |s| then "" else s[n + 1..]
  }

  lemma {:induction false} CutAt(a: string, c: char, b: string)
    requires Avoids(c, a)
    ensures CutBefore(a + ([c] + b), c) == a && CutAfter(a + ([c] + b), c) == b
  {
    var s := a + ([c] + b);
    if a == "" {
      assert s[1..] == b;
    } else {
      CutAt(a[1..], c, b);
      assert s[1..] == a[1..] + ([c] + b);
      assert a == [a[0]] + a[1..];
      assert s[|a| + 1..] == b;
    }
  }

  lemma CutNone(a: string, c: char)
    requires Avoids(c, a)
    ensures CutBefore(a, c) == a && CutAfter(a, c) == ""
  {
    assert |CutBefore(a, c)| == |a|;
  }

  lemma SeparatorInside(c: char, a: string, x: string, b: string, y: string)
    requires a + ([c] + x) == b + ([c] + y) && |a| < |b|
    ensures !Avoids(c, x)
  {
    assert (a + ([c] + x))[|b|] == (b + ([c] + y))[|b|];
    assert x[|b| - |a| - 1] == c;
  }

  /** The last `c` is found in one way only. */
  lemma LastSplitUnique(c: char, a: string, x: string, b: string, y: string)
    requires a + ([c] + x) == b + ([c] + y) && Avoids(c, x) && Avoids(c, y)
    ensures a == b && x == y
  {
    hide Avoids;
    if |a| < |b| {
      SeparatorInside(c, a, x, b, y);
      assert false;
    } else if |b| < |a| {
      SeparatorInside(c, b, y, a, x);
      assert false;
    }
    ConcatCancels(a, [c] + x, b, [c] + y);
    ConcatCancels([c], x, [c], y);
  }

  lemma ConcatCancels(a: string, x: string, b: string, y: string)
    requires |a| == |b| && a + x == b + y
    ensures a == b && x == y
  {
    assert a == (a + x)[..|a|] && b == (b + y)[..|b|];
    assert x == (a + x)[|a|..] && y == (b + y)[|b|..];
  }

  // ----- whitespace -----

  /** Unicode `White_Space`. */
  predicate IsWhitespace(c: char) {
    var x := c as int;
    9 <= x <= 13 || x == 0x20 || x == 0x85 || x == 0xa0 || x == 0x1680 || 0x2000 <= x <= 0x200a
    || x == 0x2028 || x == 0x2029 || x == 0x202f || x == 0x205f || x == 0x3000
  }

  /** `trim().is_empty()` */
  predicate IsBlank(s: string) {
    All(IsWhitespace, s)
  }

  // ----- hexadecimal -----

  const HEX_DIGITS := "0123456789abcdef"

  function HexByte(b: byte): (s: string)
    ensures |s| == 2 && s[0] in HEX_DIGITS && s[1] in HEX_DIGITS
  {
    [HEX_DIGITS[b as int / 16], HEX_DIGITS[b as int % 16]]
  }

  function Hex(bytes: seq<byte>): (s: string)
    ensures |s| == 2 * |bytes|
    ensures forall i :: 0 <= i < |s| ==> s[i] in HEX_DIGITS
  {
    if bytes == [] then "" else HexByte(bytes[0]) + Hex(bytes[1..])
  }

  lemma HexByteInjective(a: byte, b: byte)
    requires HexByte(a) == HexByte(b)
    ensures a == b
  {
    assert forall i, j :: 0 <= i < j < 16 ==> HEX_DIGITS[i] != HEX_DIGITS[j];
    assert HexByte(a)[0] == HexByte(b)[0] && HexByte(a)[1] == HexByte(b)[1];
  }

  lemma {:induction false} HexInjective(a: seq<byte>, b: seq<byte>)
    requires Hex(a) == Hex(b)
    ensures a == b
  {
    if a != [] && b != [] {
      ConcatCancels(HexByte(a[0]), Hex(a[1..]), HexByte(b[0]), Hex(b[1..]));
      HexByteInjective(a[0], b[0]);
      HexInjective(a[1..], b[1..]);
      assert a == [a[0]] + a[1..] && b == [b[0]] + b[1..];
    }
  }

  // ----- lists and sorted sets of strings -----

  ghost predicate Distinct(keys: seq<string>) {
    forall i, j :: 0 <= i < j < |keys| ==> keys[i] != keys[j]
  }

  predicate IsLeast(m: string, s: set<string>) {
    m in s && forall x :: x in s ==> CompareString(m, x) != Greater
  }

  lemma LesserIsLeast(m: string, y: string, s: set<string>)
    requires IsLeast(m, s)
    ensures IsLeast(if CompareString(m, y) != Greater then m else y, s + {y})
  {
    CompareStringTies(y, y);
    CompareStringFlips(m, y);
    forall x | x in s ensures CompareString(m, y) == Greater ==> CompareString(y, x) != Greater {
      CompareStringChains(y, m, x);
    }
  }

  lemma {:induction false} LeastExists(s: set<string>)
    requires s != {}
    ensures exists m :: IsLeast(m, s)
  {
    var y :| y in s;
    if s == {y} {
      CompareStringTies(y, y);
      assert IsLeast(y, s);
    } else {
      LeastExists(s - {y});
      var m :| IsLeast(m, s - {y});
      LesserIsLeast(m, y, s - {y});
      assert s - {y} + {y} == s;
    }
  }

  lemma LeastUnique(s: set<string>, a: string, b: string)
    requires IsLeast(a, s) && IsLeast(b, s)
    ensures a == b
  {
    CompareStringFlips(a, b);
    CompareStringTies(a, b);
  }

  function Least(s: set<string>): (m: string)
    requires s != {}
    ensures IsLeast(m, s)
  {
    LeastExists(s);
    assert forall a, b :: IsLeast(a, s) && IsLeast(b, s) ==> a == b by {
      forall a, b | IsLeast(a, s) && IsLeast(b, s) ensures a == b {
        LeastUnique(s, a, b);
      }
    }
    var m :| m in s && IsLeast(m, s);
    m
  }

  /** The items in ascending order, each once. */
  function SortedStrings(s: set<string>): (r: seq<string>)
    ensures |r| == |s| && forall x :: x in r <==> x in s
  {
    if s == {} then [] else [Least(s)] + SortedStrings(s - {Least(s)})
  }

  lemma {:induction false} SortedStringsStrictlyAscend(s: set<string>)
    ensures forall i, j :: 0 <= i < j < |SortedStrings(s)| ==>
              CompareString(SortedStrings(s)[i], SortedStrings(s)[j]) == Less
  {
    if s != {} {
      var m, rest := Least(s), SortedStrings(s - {Least(s)});
      SortedStringsStrictlyAscend(s - {m});
      forall j | 0 <= j < |rest| ensures CompareString(m, rest[j]) == Less {
        assert rest[j] in s - {m};
        CompareStringTies(m, rest[j]);
      }
    }
  }
}
