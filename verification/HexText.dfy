/** Reading hexadecimal digests back: the strict reader of the producer and the
    more lenient one of the auditor. */
module HexText {
  import opened Text

  function HexValue(c: char): Option<int> {
    if '0' <= c <= '9' then Some(c as int - '0' as int)
    else if 'a' <= c <= 'f' then Some(c as int - 'a' as int + 10)
    else if 'A' <= c <= 'F' then Some(c as int - 'A' as int + 10)
    else None
  }

  predicate IsHexChar(c: char) {
    HexValue(c).Some?
  }

  function PairValue(a: char, b: char): (x: byte)
    requires IsHexChar(a) && IsHexChar(b)
  {
    (16 * HexValue(a).value + HexValue(b).value) as byte
  }

  /** `hex::decode`: pairs of hexadecimal digits in either case. */
  function DecodeStrict(s: string): (r: Option<seq<byte>>)
    ensures r.Some? ==> 2 * |r.value| == |s|
  {
    if s == "" then Some([])
    else if |s| < 2 || !IsHexChar(s[0]) || !IsHexChar(s[1]) then None
    else
      var rest := DecodeStrict(s[2..]);
      if rest.None? then None else Some([PairValue(s[0], s[1])] + rest.value)
  }

  /** `from_str_radix` on two characters also takes a plus sign and one digit. */
  function DecodeLenient(s: string): (r: Option<seq<byte>>)
    ensures r.Some? ==> 2 * |r.value| == |s|
  {
    if s == "" then Some([])
    else if |s| < 2 || !IsHexChar(s[1]) || !(IsHexChar(s[0]) || s[0] == '+') then None
    else
      var rest := DecodeLenient(s[2..]);
      var first := if s[0] == '+' then HexValue(s[1]).value as byte else PairValue(s[0], s[1]);
      if rest.None? then None else Some([first] + rest.value)
  }

  function ReadHash(s: string): Option<Digest> {
    if |s| == 64 && DecodeStrict(s).Some? then Some(DecodeStrict(s).value) else None
  }

  function ParseHash(s: string): Option<Digest> {
    if |s| == 64 && DecodeLenient(s).Some? then Some(DecodeLenient(s).value) else None
  }

  lemma HexByteReadsBack(b: byte)
    ensures IsHexChar(HexByte(b)[0]) && IsHexChar(HexByte(b)[1]) && PairValue(HexByte(b)[0], HexByte(b)[1]) == b
  {
    HexDigitValue(b as int / 16);
    HexDigitValue(b as int % 16);
  }

  lemma HexDigitValue(d: nat)
    requires d < 16
    ensures HexValue(HEX_DIGITS[d]) == Some(d)
  {
  }

  lemma {:induction false} HexReadsBack(bytes: seq<byte>)
    ensures DecodeStrict(Hex(bytes)) == Some(bytes)
  {
    if bytes != [] {
      var rest := Hex(bytes[1..]);
      HexByteReadsBack(bytes[0]);
      HexReadsBack(bytes[1..]);
      hide PairValue, HexByte, IsHexChar;
      assert Hex(bytes)[2..] == rest && Hex(bytes)[0] == HexByte(bytes[0])[0] && Hex(bytes)[1] == HexByte(bytes[0])[1];
      assert bytes == [bytes[0]] + bytes[1..];
    }
  }

  /** What the producer reads, the auditor reads as the same bytes. */
  lemma {:induction false} StrictIsLenient(s: string)
    requires DecodeStrict(s).Some?
    ensures DecodeLenient(s) == DecodeStrict(s)
  {
    if s != "" {
      StrictIsLenient(s[2..]);
    }
  }

  lemma ReadIsParsed(s: string)
    requires ReadHash(s).Some?
    ensures ParseHash(s) == ReadHash(s)
  {
    StrictIsLenient(s);
  }

  lemma ParseHex(d: Digest)
    ensures ReadHash(Hex(d)) == ParseHash(Hex(d)) == Some(d)
  {
    HexReadsBack(d);
    StrictIsLenient(Hex(d));
  }

  /** The strict reader takes exactly an even number of hexadecimal digits. */
  lemma {:induction false} HexExactly(s: string)
    ensures DecodeStrict(s).Some? <==> |s| % 2 == 0 && forall i :: 0 <= i < |s| ==> IsHexChar(s[i])
  {
    if |s| >= 2 {
      HexExactly(s[2..]);
      assert forall i :: 2 <= i < |s| ==> s[i] == s[2..][i - 2];
    }
  }
}
