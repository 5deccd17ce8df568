/** A reader of JSON texts (RFC 8259, without whitespace between tokens), written apart
    from the canonical writer, and what the writer's texts read as. */
module JsonReader {
  import opened Ordering
  import opened Text
  import opened HexText
  import Lists
  import opened CanonicalJson

  // ----- the reader -----

  /** Four hexadecimal digits; pairs of surrogates are not read. */
  function ReadUnicode(s: string): Option<char> {
    if |s| < 4 then None
    else
      var a, b, c, d := HexValue(s[0]), HexValue(s[1]), HexValue(s[2]), HexValue(s[3]);
      if a.None? || b.None? || c.None? || d.None? then None
      else
        var code := ((a.value * 16 + b.value) * 16 + c.value) * 16 + d.value;
        if code < 0xd800 then Some(code as char) else None
  }

  /** The character an escape stands for, and how long the escape is after `\\`. */
  function ReadEscape(s: string): Option<(char, nat)> {
    if s == "" then None
    else if s[0] == '"' || s[0] == '\\' || s[0] == '/' then Some((s[0], 1))
    else if s[0] == 'b' then Some((8 as char, 1))
    else if s[0] == 't' then Some((9 as char, 1))
    else if s[0] == 'n' then Some((10 as char, 1))
    else if s[0] == 'f' then Some((12 as char, 1))
    else if s[0] == 'r' then Some((13 as char, 1))
    else if s[0] == 'u' && ReadUnicode(s[1..]).Some? then Some((ReadUnicode(s[1..]).value, 5))
    else None
  }

  /** One character of a string, and the text after it. */
  function ReadChar(s: string): (r: Option<(char, string)>)
    ensures r.Some? ==> |r.value.1| < |s|
  {
    if s == "" || s[0] == '"' || s[0] < ' ' then None
    else if s[0] != '\\' then Some((s[0], s[1..]))
    else
      var escape := ReadEscape(s[1..]);
      if escape.None? || escape.value.1 >= |s| then None else Some((escape.value.0, s[escape.value.1 + 1..]))
  }

  /** Up to the closing quote. */
  function ReadString(s: string): (r: Option<(string, string)>)
    ensures r.Some? ==> |r.value.1| < |s|
  {
    if s == "" then None
    else if s[0] == '"' then Some(("", s[1..]))
    else
      var c := ReadChar(s);
      if c.None? then None
      else
        var rest := ReadString(c.value.1);
        if rest.None? then None else Some(([c.value.0] + rest.value.0, rest.value.1))
  }

  function NumberLength(s: string): (n: nat)
    ensures n <= |s|
  {
    if s == "" || !IsNumberChar(s[0]) then 0 else 1 + NumberLength(s[1..])
  }

  /** Digits without a leading zero. */
  predicate IsNatText(s: string) {
    s != "" && AllDecimal(s) && (s[0] == '0' ==> |s| == 1)
  }

  function NumberOf(t: string): Option<Json> {
    if exists i :: 0 <= i < |t| && IsFloatMark(t[i]) then (if IsFloatText(t) then Some(Float(t)) else None)
    else if IsNatText(t) then Some(Int(DecimalValue(t)))
    else if t != "" && t[0] == '-' && IsNatText(t[1..]) && t != "-0" then Some(Int(0 - DecimalValue(t[1..])))
    else None
  }

  function ReadNumber(s: string): (r: Option<(Json, string)>)
    ensures r.Some? ==> |r.value.1| < |s|
  {
    var n := NumberLength(s);
    var number := NumberOf(s[..n]);
    if number.None? || n == 0 then None else Some((number.value, s[n..]))
  }

  function ReadLiteral(s: string, literal: string, v: Json): (r: Option<(Json, string)>)
    requires literal != ""
    ensures r.Some? ==> |r.value.1| < |s|
  {
    if literal <= s then Some((v, s[|literal|..])) else None
  }

  function ReadValue(s: string): (r: Option<(Json, string)>)
    ensures r.Some? ==> |r.value.1| < |s|
    decreases |s|, 1
  {
    if s == "" then None
    else if s[0] == 'n' then ReadLiteral(s, "null", Null)
    else if s[0] == 't' then ReadLiteral(s, "true", Bool(true))
    else if s[0] == 'f' then ReadLiteral(s, "false", Bool(false))
    else if s[0] == '"' then
      var text := ReadString(s[1..]);
      if text.None? then None else Some((Str(text.value.0), text.value.1))
    else if s[0] == '[' then
      if |s| > 1 && s[1] == ']' then Some((Arr([]), s[2..]))
      else
        var items := ReadItems(s[1..]);
        if items.None? then None else Some((Arr(items.value.0), items.value.1))
    else if s[0] == '{' then
      if |s| > 1 && s[1] == '}' then Some((Obj(map[]), s[2..]))
      else
        var members := ReadMembers(s[1..]);
        if members.None? then None else Some((Obj(members.value.0), members.value.1))
    else ReadNumber(s)
  }

  /** One item or more, up to the closing bracket. */
  function ReadItems(s: string): (r: Option<(seq<Json>, string)>)
    ensures r.Some? ==> |r.value.1| < |s|
    decreases |s|, 2
  {
    var first := ReadValue(s);
    if first.None? || first.value.1 == "" then None
    else if first.value.1[0] == ']' then Some(([first.value.0], first.value.1[1..]))
    else if first.value.1[0] != ',' then None
    else
      var rest := ReadItems(first.value.1[1..]);
      if rest.None? then None else Some(([first.value.0] + rest.value.0, rest.value.1))
  }

  /** One member or more, up to the closing brace; no key twice. */
  function ReadMembers(s: string): (r: Option<(map<string, Json>, string)>)
    ensures r.Some? ==> |r.value.1| < |s|
    decreases |s|, 2
  {
    if s == "" || s[0] != '"' then None
    else
      var key := ReadString(s[1..]);
      if key.None? || key.value.1 == "" || key.value.1[0] != ':' then None
      else
        var value := ReadValue(key.value.1[1..]);
        if value.None? || value.value.1 == "" then None
        else if value.value.1[0] == '}' then Some((map[key.value.0 := value.value.0], value.value.1[1..]))
        else if value.value.1[0] != ',' then None
        else
          var rest := ReadMembers(value.value.1[1..]);
          if rest.None? || key.value.0 in rest.value.0 then None
          else Some((rest.value.0[key.value.0 := value.value.0], rest.value.1))
  }

  // ----- strings are read back -----

  lemma HexDigitRead(n: nat)
    requires n < 16
    ensures HexValue(HEX_DIGITS[n]) == Some(n)
  {
  }

  lemma UnicodeRead(b: byte, w: string)
    ensures ReadUnicode("00" + (HexByte(b) + w)) == Some(b as int as char)
  {
    HexDigitRead(b as int / 16);
    HexDigitRead(b as int % 16);
    var s := "00" + (HexByte(b) + w);
    assert s[0] == '0' && s[1] == '0' && s[2] == HexByte(b)[0] && s[3] == HexByte(b)[1];
    assert HexValue('0') == Some(0);
    hide HexValue;
  }

  lemma CharRead(c: char, w: string)
    ensures ReadChar(EscapeChar(c) + w) == Some((c, w))
  {
    var e := EscapeChar(c);
    var s := e + w;
    assert s[0] == e[0] && s[|e|..] == w;
    if |e| == 2 {
      hide HexByte, ReadUnicode, HexValue;
      assert s[1..][0] == e[1];
    } else if |e| == 1 {
      hide HexByte, ReadEscape;
    } else {
      assert e == "\\u00" + HexByte(c as int as byte);
      ControlRead(c as int as byte, w);
      hide EscapeChar, HexByte, ReadUnicode;
      assert s[1..][0] == e[1];
    }
  }

  lemma ControlRead(b: byte, w: string)
    ensures ReadUnicode((("\\u00" + HexByte(b)) + w)[1..][1..]) == Some(b as int as char)
  {
    hide ReadUnicode;
    UnicodeRead(b, w);
    AfterMark(HexByte(b), w);
  }

  lemma AfterMark(h: string, w: string)
    ensures (("\\u00" + h) + w)[1..][1..] == "00" + (h + w)
  {
  }

  lemma {:induction false} StringRead(t: string, x: string)
    ensures ReadString(Escape(t) + ("\"" + x)) == Some((t, x))
  {
    var w := "\"" + x;
    EscapeStep(t, w);
    if t == "" {
      assert w[1..] == x;
    } else {
      StringRead(t[1..], x);
      CharRead(t[0], Escape(t[1..]) + w);
      EscapeCharIsNoQuote(t[0]);
      hide Escape, EscapeChar, ReadChar;
      assert t == [t[0]] + t[1..];
    }
  }

  lemma QuoteRead(t: string, x: string)
    ensures (Quote(t) + x)[0] == '"' && ReadString((Quote(t) + x)[1..]) == Some((t, x))
  {
    hide Escape, ReadString;
    QuoteThen(t, x);
    StringRead(t, x);
    assert ("\"" + (Escape(t) + ("\"" + x)))[1..] == Escape(t) + ("\"" + x);
  }

  // ----- numbers are read back -----

  lemma {:induction false} NumberLengthIs(t: string, x: string)
    requires All(IsNumberChar, t) && (x != "" ==> !IsNumberChar(x[0]))
    ensures NumberLength(t + x) == |t|
  {
    if t == "" {
      assert t + x == x;
    } else {
      NumberLengthIs(t[1..], x);
      assert (t + x)[1..] == t[1..] + x;
    }
  }

  lemma {:induction false} NoLeadingZero(n: nat)
    ensures IsNatText(Decimal(n)) && (Decimal(n)[0] == '0' <==> n == 0)
  {
    if n >= 10 {
      NoLeadingZero(n / 10);
    }
  }

  lemma IntRead(i: int)
    ensures NumberOf(DecimalInt(i)) == Some(Int(i))
  {
    var n: nat := if i < 0 then -i else i;
    NoLeadingZero(n);
    DecimalRoundTrip(n);
    var t := DecimalInt(i);
    NumberText(Int(i));
    if i < 0 {
      assert t[1..] == Decimal(n);
      assert t == "-0" ==> Decimal(n) == "0";
      assert !IsNatText(t);
    }
    hide Decimal, DecimalValue;
  }

  lemma NumberRead(v: Json, x: string)
    requires (v.Int? || v.Float?) && Delimited(x)
    ensures ReadNumber(Encode(v) + x) == Some((v, x))
  {
    var t := Encode(v);
    NumberText(v);
    NumberLengthIs(t, x);
    assert (t + x)[..|t|] == t && (t + x)[|t|..] == x;
    if v.Int? {
      IntRead(v.value);
    }
  }

  // ----- values are read back -----

  lemma LiteralRead(literal: string, x: string, v: Json)
    requires literal != ""
    ensures ReadLiteral(literal + x, literal, v) == Some((v, x))
  {
    assert (literal + x)[|literal|..] == x;
  }

  /** The reader reads every canonical text back as the value, whatever follows. */
  lemma {:induction false} EncodeRead(v: Json, x: string)
    requires Delimited(x)
    ensures ReadValue(Encode(v) + x) == Some((v, x))
    decreases v, 1, 0
  {
    EncodeHead(v, x);
    match v
    case Null => LiteralRead("null", x, v);
    case Bool(b) => LiteralRead(Encode(v), x, v);
    case Int(_) => NumberRead(v, x);
    case Float(_) => NumberRead(v, x);
    case Str(t) => QuoteRead(t, x);
    case Arr(_) => ArrayRead(v, x);
    case Obj(_) => ObjectRead(v, x);
  }

  lemma ReadArray(s: string)
    requires s != "" && s[0] != ']' && ReadItems(s).Some?
    ensures ReadValue("[" + s) == Some((Arr(ReadItems(s).value.0), ReadItems(s).value.1))
  {
    hide ReadItems;
    assert ("[" + s)[1] == s[0] && ("[" + s)[1..] == s;
  }

  lemma ReadObject(s: string)
    requires s != "" && s[0] != '}' && ReadMembers(s).Some?
    ensures ReadValue("{" + s) == Some((Obj(ReadMembers(s).value.0), ReadMembers(s).value.1))
  {
    hide ReadMembers;
    assert ("{" + s)[1] == s[0] && ("{" + s)[1..] == s;
  }

  lemma EmptyRead(x: string)
    ensures ReadValue("[" + ("]" + x)) == Some((Arr([]), x))
    ensures ReadValue("{" + ("}" + x)) == Some((Obj(map[]), x))
  {
    assert ("[" + ("]" + x))[2..] == x && ("{" + ("}" + x))[2..] == x;
  }

  lemma ArrayText(v: Json, x: string)
    requires v.Arr?
    ensures Encode(v) + x == "[" + (EncodeItems(v, 0) + ("]" + x))
  {
    hide EncodeItems;
    Append2("", "[", EncodeItems(v, 0) + "]", x);
  }

  lemma ObjectText(v: Json, x: string)
    requires v.Obj?
    ensures Encode(v) + x == "{" + (EncodeMembers(v, Keys(v), true) + ("}" + x))
  {
    hide EncodeMembers;
    Append2("", "{", EncodeMembers(v, Keys(v), true) + "}", x);
  }

  lemma {:induction false} ArrayRead(v: Json, x: string)
    requires v.Arr?
    ensures ReadValue(Encode(v) + x) == Some((v, x))
    decreases v, 0, |v.items| + 1
  {
    hide Encode, EncodeItems, ReadValue, ReadItems;
    var rest := EncodeItems(v, 0) + ("]" + x);
    ArrayText(v, x);
    ItemsThen(v, 0, x);
    if v.items == [] {
      EmptyRead(x);
      assert v == Arr([]);
    } else {
      ItemsRead(v, 0, x);
      assert rest == Encode(v.items[0]) + (EncodeItems(v, 1) + ("]" + x));
      ReadArray(rest);
      assert v.items[0..] == v.items;
    }
  }

  /** The items from `i` on, without a comma before the first. */
  lemma {:induction false} ItemsRead(v: Json, i: nat, x: string)
    requires v.Arr? && i < |v.items|
    ensures ReadItems(Encode(v.items[i]) + (EncodeItems(v, i + 1) + ("]" + x))) == Some((v.items[i..], x))
    decreases v, 0, |v.items| - i
  {
    hide Encode, EncodeItems, ReadValue;
    var p := EncodeItems(v, i + 1) + ("]" + x);
    ItemsRest(v, i + 1, x);
    EncodeRead(v.items[i], p);
    ItemsThen(v, i + 1, x);
    if i + 1 < |v.items| {
      ItemsRead(v, i + 1, x);
      var q := Encode(v.items[i + 1]) + (EncodeItems(v, i + 2) + ("]" + x));
      assert p == "," + q && p[1..] == q;
      assert v.items[i..] == [v.items[i]] + v.items[i + 1..];
    } else {
      assert p[1..] == x && v.items[i..] == [v.items[i]];
    }
  }

  lemma {:induction false} ObjectRead(v: Json, x: string)
    requires v.Obj?
    ensures ReadValue(Encode(v) + x) == Some((v, x))
    decreases v, 0, |Keys(v)| + 1
  {
    var keys := Keys(v);
    var rest := EncodeMembers(v, keys, true) + ("}" + x);
    ObjectText(v, x);
    MembersThen(v, keys, true, x);
    DistinctKeys(v);
    AllMembers(v, keys);
    hide Encode, EncodeMembers, ReadValue, ReadMembers, Keys, Distinct, Quote;
    if keys == [] {
      EmptyRead(x);
    } else {
      MembersRead(v, keys, x);
      assert rest == FirstMember(v, keys, x);
      ReadObject(rest);
    }
  }

  lemma DistinctKeys(v: Json)
    requires v.Obj?
    ensures Distinct(Keys(v))
  {
    var keys := Keys(v);
    SortedStringsStrictlyAscend(v.members.Keys);
    forall i, j | 0 <= i < j < |keys| ensures keys[i] != keys[j] {
      CompareStringTies(keys[i], keys[j]);
    }
  }

  /** The members named by `keys`. */
  function MembersOf(v: Json, keys: seq<string>): map<string, Json>
    requires v.Obj? && forall k :: k in keys ==> k in v.members
  {
    map k | k in keys :: v.members[k]
  }

  lemma AllMembers(v: Json, keys: seq<string>)
    requires v.Obj? && forall k :: k in keys <==> k in v.members
    ensures MembersOf(v, keys) == v.members
  {
  }

  /** The text from the first key on, without a comma before it. */
  function FirstMember(v: Json, keys: seq<string>, x: string): string
    requires v.Obj? && keys != [] && forall k :: k in keys ==> k in v.members
  {
    Quote(keys[0]) + (":" + (Encode(v.members[keys[0]]) + (EncodeMembers(v, keys[1..], false) + ("}" + x))))
  }

  /** One member is read, then the closing brace or a comma and the other members. */
  lemma ReadMember(k: string, value: string, v: Json, p: string)
    requires ReadValue(value) == Some((v, p)) && p != ""
    ensures var s := Quote(k) + (":" + value);
            (p[0] == '}' ==> ReadMembers(s) == Some((map[k := v], p[1..])))
            && (p[0] == ',' && ReadMembers(p[1..]).Some? && k !in ReadMembers(p[1..]).value.0 ==>
                  ReadMembers(s) == Some((ReadMembers(p[1..]).value.0[k := v], ReadMembers(p[1..]).value.1)))
  {
    hide Quote, ReadString, ReadValue;
    QuoteRead(k, ":" + value);
    assert (":" + value)[1..] == value;
  }

  lemma {:induction false} MembersRead(v: Json, keys: seq<string>, x: string)
    requires v.Obj? && keys != [] && Distinct(keys) && forall k :: k in keys ==> k in v.members
    ensures ReadMembers(FirstMember(v, keys, x)) == Some((MembersOf(v, keys), x))
    decreases v, 0, |keys|
  {
    hide Encode, EncodeMembers, Quote, ReadValue, ReadMembers;
    var k, tail := keys[0], keys[1..];
    var p := EncodeMembers(v, tail, false) + ("}" + x);
    MembersRest(v, tail, x);
    EncodeRead(v.members[k], p);
    MembersThen(v, tail, false, x);
    ReadMember(k, Encode(v.members[k]) + p, v.members[k], p);
    if tail != [] {
      TailDistinct(keys);
      MembersRead(v, tail, x);
      assert p[1..] == FirstMember(v, tail, x);
      assert MembersOf(v, keys) == MembersOf(v, tail)[k := v.members[k]];
    } else {
      assert p[1..] == x && keys == [k];
      assert MembersOf(v, keys) == map[k := v.members[k]];
    }
  }

  lemma TailDistinct(keys: seq<string>)
    requires Distinct(keys) && keys != []
    ensures Distinct(keys[1..]) && keys[0] !in keys[1..]
  {
    forall i | 0 <= i < |keys[1..]| ensures keys[1..][i] != keys[0] {
      assert keys[i + 1] != keys[0];
    }
  }

  // ----- the canonical form -----

  /** The whole text reads back as the value. */
  lemma CanonicalReads(v: Json)
    ensures ReadValue(Encode(v)) == Some((v, ""))
  {
    EncodeRead(v, "");
    assert Encode(v) + "" == Encode(v);
  }

  /** Strictly ascending in dictionary order. */
  ghost predicate Ascends(keys: seq<string>) {
    forall i, j :: 0 <= i < j < |keys| ==> IsBefore(keys[i], keys[j])
  }

  lemma {:induction false} DistinctMultisets(a: seq<string>, b: seq<string>)
    requires Distinct(a) && Distinct(b) && forall k :: k in a <==> k in b
    ensures multiset(a) == multiset(b)
  {
    forall k ensures multiset(a)[k] == multiset(b)[k] {
      AtMostOnce(a, k);
      AtMostOnce(b, k);
    }
  }

  lemma {:induction false} AtMostOnce(a: seq<string>, k: string)
    requires Distinct(a)
    ensures multiset(a)[k] == if k in a then 1 else 0
  {
    if a != [] {
      TailDistinct(a);
      AtMostOnce(a[1..], k);
      assert a == [a[0]] + a[1..];
    }
  }

  /** An object's members are written in the one strictly ascending order of its keys. */
  lemma KeysAscend(v: Json, keys: seq<string>)
    requires v.Obj? && Ascends(keys) && forall k :: k in keys <==> k in v.members
    ensures Encode(v) == "{" + (EncodeMembers(v, keys, true) + "}")
  {
    SortedStringsStrictlyAscend(v.members.Keys);
    AscendingMeans(keys);
    hide CompareString, EncodeMembers, Ascends;
    DistinctKeys(v);
    DistinctMultisets(keys, Keys(v));
    StringsTotallyOrdered();
    hide SortedStrings, Distinct;
    SortedUnique(CompareString, Keys(v), keys);
  }

  lemma AscendingMeans(keys: seq<string>)
    requires Ascends(keys)
    ensures Distinct(keys)
    ensures forall i, j :: 0 <= i < j < |keys| ==> CompareString(keys[i], keys[j]) == Less
  {
    hide CompareString, IsBefore;
    forall i, j | 0 <= i < j < |keys| ensures CompareString(keys[i], keys[j]) == Less && keys[i] != keys[j] {
      CompareStringMeans(keys[i], keys[j]);
      CompareStringTies(keys[i], keys[j]);
    }
  }

  /** A character stands for itself unless JSON forbids it; of the others those with a
      short escape have it, and the rest are `\\u` with lower-case digits. */
  lemma EscapeIsShortest(c: char)
    ensures |EscapeChar(c)| == 1 <==> c != '"' && c != '\\' && c >= ' '
    ensures |EscapeChar(c)| == 1 ==> EscapeChar(c) == [c]
    ensures |EscapeChar(c)| == 2 <==>
              c == '"' || c == '\\' || c as int == 8 || c as int == 9 || c as int == 10 || c as int == 12
                || c as int == 13
    ensures |EscapeChar(c)| != 1 && |EscapeChar(c)| != 2 ==>
              |EscapeChar(c)| == 6 && forall i :: 2 <= i < 6 ==> EscapeChar(c)[i] in HEX_DIGITS
  {
  }
}
