/** Canonical JSON: sorted keys, no whitespace, serde_json's string escaping.
    Text is a sequence of scalar values; its UTF-8 encoding is one-to-one. */
module CanonicalJson {
  import opened Ordering
  import opened Text
  import Lists

  predicate IsNumberChar(c: char) {
    IsDecimalDigit(c) || c == '+' || c == '-' || IsFloatMark(c)
  }

  predicate IsFloatMark(c: char) {
    c == '.' || c == 'e' || c == 'E'
  }

  /** What serde_json prints for an `f64`: always with a point or an exponent,
      one text for each number. */
  predicate IsFloatText(s: string) {
    && s != "" && (IsDecimalDigit(s[0]) || s[0] == '-') && All(IsNumberChar, s)
    && exists i :: 0 <= i < |s| && IsFloatMark(s[i])
  }

  type FloatText = s: string | IsFloatText(s) witness FloatWitness()

  function FloatWitness(): (s: string)
    ensures IsFloatText(s)
  {
    assert IsFloatMark("0.0"[1]);
    "0.0"
  }

  datatype Json =
    | Null
    | Bool(flag: bool)
    | Int(value: int)
    | Float(text: FloatText)
    | Str(str: string)
    | Arr(items: seq<Json>)
    | Obj(members: map<string, Json>)

  // ----- strings -----

  const BACKSPACE: char := 8 as char
  const FORM_FEED: char := 12 as char

  function EscapeChar(c: char): string {
    if c == '"' then "\\\""
    else if c == '\\' then "\\\\"
    else if c == BACKSPACE then "\\b"
    else if c == FORM_FEED then "\\f"
    else if c == '\n' then "\\n"
    else if c == '\r' then "\\r"
    else if c == '\t' then "\\t"
    else if c < ' ' then "\\u00" + HexByte(c as int as byte)
    else [c]
  }

  function Escape(s: string): string {
    if s == "" then "" else EscapeChar(s[0]) + Escape(s[1..])
  }

  function Quote(s: string): string {
    "\"" + (Escape(s) + "\"")
  }

  lemma EscapeCharUnique(c: char, x: string, d: char, y: string)
    requires EscapeChar(c) + x == EscapeChar(d) + y
    ensures c == d && x == y
  {
    hide HexByte;
    var a, b := EscapeChar(c), EscapeChar(d);
    assert (a + x)[0] == a[0] && (b + y)[0] == b[0];
    if |a| > 1 {
      assert |b| > 1;
      assert (a + x)[1] == a[1] && (b + y)[1] == b[1];
    }
    ConcatCancels(a, x, b, y);
    if |a| == 6 {
      var m, n := c as int as byte, d as int as byte;
      ConcatCancels("\\u00", HexByte(m), "\\u00", HexByte(n));
      HexByteInjective(m, n);
    }
  }

  /** No escaped character starts like the closing quote. */
  lemma EscapeCharIsNoQuote(c: char)
    ensures EscapeChar(c) != "" && EscapeChar(c)[0] != '"'
  {
  }

  /** `w` goes on with the closing quote. */
  predicate Closes(w: string) {
    w != "" && w[0] == '"'
  }

  lemma {:induction false} EscapeUnique(s: string, x: string, t: string, y: string)
    requires Escape(s) + x == Escape(t) + y && Closes(x) && Closes(y)
    ensures s == t && x == y
  {
    EscapeStep(s, x);
    EscapeStep(t, y);
    if s != "" && t != "" {
      hide Escape, EscapeChar;
      EscapeCharUnique(s[0], Escape(s[1..]) + x, t[0], Escape(t[1..]) + y);
      EscapeUnique(s[1..], x, t[1..], y);
      assert s == [s[0]] + s[1..] && t == [t[0]] + t[1..];
    }
  }

  lemma EscapeStep(s: string, x: string)
    requires Closes(x)
    ensures s == "" ==> Escape(s) + x == x
    ensures s != "" ==>
              && Escape(s) + x == EscapeChar(s[0]) + (Escape(s[1..]) + x)
              && !Closes(Escape(s) + x)
  {
    if s != "" {
      EscapeCharIsNoQuote(s[0]);
      hide EscapeChar;
      Lists.ConcatAssociates(EscapeChar(s[0]), Escape(s[1..]), x);
      assert (EscapeChar(s[0]) + (Escape(s[1..]) + x))[0] == EscapeChar(s[0])[0];
    } else {
      assert "" + x == x;
    }
  }

  lemma QuoteUnique(s: string, x: string, t: string, y: string)
    requires Quote(s) + x == Quote(t) + y
    ensures s == t && x == y
  {
    hide Escape;
    QuoteThen(s, x);
    QuoteThen(t, y);
    ConcatCancels("\"", Escape(s) + ("\"" + x), "\"", Escape(t) + ("\"" + y));
    EscapeUnique(s, "\"" + x, t, "\"" + y);
    ConcatCancels("\"", x, "\"", y);
  }

  lemma QuoteThen(s: string, x: string)
    ensures Quote(s) + x == "\"" + (Escape(s) + ("\"" + x))
  {
    hide Escape;
    Lists.ConcatAssociates("\"", Escape(s) + "\"", x);
    Lists.ConcatAssociates(Escape(s), "\"", x);
  }

  // ----- values -----

  function Keys(v: Json): seq<string>
    requires v.Obj?
  {
    SortedStrings(v.members.Keys)
  }

  function Comma(first: bool): string {
    if first then "" else ","
  }

  function Encode(v: Json): (s: string)
    ensures s != ""
    decreases v, 1, 0
  {
    match v
    case Null => "null"
    case Bool(b) => if b then "true" else "false"
    case Int(i) => DecimalInt(i)
    case Float(text) => text
    case Str(s) => Quote(s)
    case Arr(items) => "[" + (EncodeItems(v, 0) + "]")
    case Obj(members) => "{" + (EncodeMembers(v, Keys(v), true) + "}")
  }

  /** The items from position `i` on, each after the first with a comma. */
  function EncodeItems(v: Json, i: nat): string
    requires v.Arr? && i <= |v.items|
    decreases v, 0, |v.items| - i
  {
    if i == |v.items| then ""
    else Comma(i == 0) + (Encode(v.items[i]) + EncodeItems(v, i + 1))
  }

  function EncodeMembers(v: Json, keys: seq<string>, first: bool): string
    requires v.Obj? && forall k :: k in keys ==> k in v.members
    decreases v, 0, |keys|
  {
    if keys == [] then ""
    else Comma(first) + (Quote(keys[0]) + (":" + (Encode(v.members[keys[0]]) + EncodeMembers(v, keys[1..], false))))
  }

  // ----- the implementation -----

  class Buffer {
    var text: string

    constructor ()
      ensures text == ""
    {
      text := "";
    }
  }

  /** Appends the canonical encoding of `v`. */
  method WriteCanonical(v: Json, out: Buffer)
    modifies out
    ensures out.text == old(out.text) + Encode(v)
    decreases v
  {
    hide SortedStrings, Quote, DecimalInt;
    match v
    case Obj(members) =>
      var keys := SortedStrings(members.Keys);
      out.text := out.text + "{";
      ghost var start := out.text;
      assert keys[0..] == keys;
      for i := 0 to |keys|
        invariant out.text + EncodeMembers(v, keys[i..], i == 0) == start + EncodeMembers(v, keys, true)
      {
        assert keys[i..][0] == keys[i] && keys[i..][1..] == keys[i + 1..];
        hide Encode, Quote;
        Append5(out.text, Comma(i == 0), Quote(keys[i]), ":", Encode(members[keys[i]]),
                EncodeMembers(v, keys[i + 1..], false));
        if i > 0 {
          out.text := out.text + ",";
        } else {
          assert out.text + "" == out.text;
        }
        out.text := out.text + Quote(keys[i]);
        out.text := out.text + ":";
        WriteCanonical(members[keys[i]], out);
      }
      assert keys[|keys|..] == [] && out.text + "" == out.text;
      out.text := out.text + "}";
      Append2(old(out.text), "{", EncodeMembers(v, keys, true), "}");
    case Arr(items) =>
      out.text := out.text + "[";
      ghost var start := out.text;
      for i := 0 to |items|
        invariant out.text + EncodeItems(v, i) == start + EncodeItems(v, 0)
      {
        hide Encode;
        Append2(out.text, Comma(i == 0), Encode(items[i]), EncodeItems(v, i + 1));
        if i > 0 {
          out.text := out.text + ",";
        } else {
          assert out.text + "" == out.text;
        }
        WriteCanonical(items[i], out);
      }
      assert out.text + "" == out.text;
      out.text := out.text + "]";
      Append2(old(out.text), "[", EncodeItems(v, 0), "]");
    case _ =>
      out.text := out.text + Encode(v);
  }

  lemma Append2(t: string, a: string, b: string, c: string)
    ensures t + a + b + c == t + (a + (b + c))
  {
  }

  lemma Append5(t: string, a: string, b: string, c: string, d: string, e: string)
    ensures t + a + b + c + d + e == t + (a + (b + (c + (d + e))))
  {
  }

  // ----- the encoding is one-to-one -----

  /** What follows a value inside a canonical text. */
  predicate Delimited(x: string) {
    x != "" ==> x[0] in ",]}"
  }

  /** The first character tells which kind of value follows. */
  predicate HeadFits(v: Json, c: char) {
    match v
    case Null => c == 'n'
    case Bool(b) => c == if b then 't' else 'f'
    case Int(_) => IsDecimalDigit(c) || c == '-'
    case Float(_) => IsDecimalDigit(c) || c == '-'
    case Str(_) => c == '"'
    case Arr(_) => c == '['
    case Obj(_) => c == '{'
  }

  lemma EncodeHead(v: Json, x: string)
    ensures HeadFits(v, (Encode(v) + x)[0]) && (Encode(v) + x)[0] == Encode(v)[0]
  {
    if v.Str? {
      assert Encode(v)[0] == '"';
    }
  }

  lemma NumberText(v: Json)
    requires v.Int? || v.Float?
    ensures All(IsNumberChar, Encode(v))
    ensures v.Float? <==> exists i :: 0 <= i < |Encode(v)| && IsFloatMark(Encode(v)[i])
  {
    var s := Encode(v);
    if v.Int? {
      forall i | 0 <= i < |s| ensures !IsFloatMark(s[i]) {
        assert IsDecimalDigit(s[i]) || s[i] == '-';
      }
    } else {
      var i :| 0 <= i < |v.text| && IsFloatMark(v.text[i]);
      assert Encode(v)[i] == v.text[i];
    }
  }

  lemma NumberUnique(v: Json, x: string, w: Json, y: string)
    requires (v.Int? || v.Float?) && (w.Int? || w.Float?) && Delimited(x) && Delimited(y)
    requires Encode(v) + x == Encode(w) + y
    ensures v == w && x == y
  {
    NumberText(v);
    NumberText(w);
    SplitUnique(IsNumberChar, Encode(v), x, Encode(w), y);
    if v.Int? {
      DecimalIntInjective(v.value, w.value);
    }
  }

  /** Canonical texts read one way only: equal texts come from equal values. */
  lemma {:induction false} EncodeUnique(v: Json, x: string, w: Json, y: string)
    requires Encode(v) + x == Encode(w) + y && Delimited(x) && Delimited(y)
    ensures v == w && x == y
    decreases v, 1, 0
  {
    EncodeHead(v, x);
    EncodeHead(w, y);
    match v
    case Null =>
      ConcatCancels("null", x, "null", y);
    case Bool(_) =>
      ConcatCancels(Encode(v), x, Encode(w), y);
    case Int(_) =>
      NumberUnique(v, x, w, y);
    case Float(_) =>
      NumberUnique(v, x, w, y);
    case Str(s) =>
      QuoteUnique(s, x, w.str, y);
    case Arr(_) =>
      BracketThen("[", EncodeItems(v, 0), "]", x, EncodeItems(w, 0), y);
      ItemsUnique(v, 0, x, w, y);
      assert v.items == v.items[0..] && w.items == w.items[0..];
    case Obj(_) =>
      BracketThen("{", EncodeMembers(v, Keys(v), true), "}", x, EncodeMembers(w, Keys(w), true), y);
      MembersUnique(v, Keys(v), true, x, w, Keys(w), y);
      MembersEqual(v, w);
  }

  lemma BracketThen(open: string, a: string, close: string, x: string, b: string, y: string)
    requires (open + (a + close)) + x == (open + (b + close)) + y
    ensures a + (close + x) == b + (close + y)
  {
    Append2("", open, a + close, x);
    Append2("", open, b + close, y);
    assert (open + (a + close)) + x == open + (a + (close + x));
    assert (open + (b + close)) + y == open + (b + (close + y));
    ConcatCancels(open, a + (close + x), open, b + (close + y));
  }

  lemma {:induction false} ItemsUnique(v: Json, i: nat, x: string, w: Json, y: string)
    requires v.Arr? && w.Arr? && i <= |v.items| && i <= |w.items|
    requires EncodeItems(v, i) + ("]" + x) == EncodeItems(w, i) + ("]" + y)
    ensures v.items[i..] == w.items[i..] && x == y
    decreases v, 0, |v.items| - i
  {
    ItemsThen(v, i, x);
    ItemsThen(w, i, y);
    if i < |v.items| && i < |w.items| {
      var p, q := EncodeItems(v, i + 1) + ("]" + x), EncodeItems(w, i + 1) + ("]" + y);
      ItemsRest(v, i + 1, x);
      ItemsRest(w, i + 1, y);
      hide Encode, EncodeItems;
      ConcatCancels(Comma(i == 0), Encode(v.items[i]) + p, Comma(i == 0), Encode(w.items[i]) + q);
      EncodeUnique(v.items[i], p, w.items[i], q);
      ItemsUnique(v, i + 1, x, w, y);
      assert v.items[i..] == [v.items[i]] + v.items[i + 1..] && w.items[i..] == [w.items[i]] + w.items[i + 1..];
    } else {
      ConcatCancels("]", x, "]", y);
    }
  }

  /** How the items from `i` on read when closed: one item, or the bracket. */
  lemma ItemsThen(v: Json, i: nat, x: string)
    requires v.Arr? && i <= |v.items|
    ensures i < |v.items| ==>
              && EncodeItems(v, i) + ("]" + x) == Comma(i == 0)
                + (Encode(v.items[i]) + (EncodeItems(v, i + 1) + ("]" + x)))
              && (EncodeItems(v, i) + ("]" + x))[0] != ']'
    ensures i == |v.items| ==> EncodeItems(v, i) + ("]" + x) == "]" + x
  {
    if i < |v.items| {
      EncodeHead(v.items[i], EncodeItems(v, i + 1) + ("]" + x));
      hide Encode;
      Lists.ConcatRegroups(Comma(i == 0), Encode(v.items[i]), EncodeItems(v, i + 1), "]" + x);
    }
  }

  lemma ItemsRest(v: Json, i: nat, x: string)
    requires v.Arr? && 0 < i <= |v.items|
    ensures Delimited(EncodeItems(v, i) + ("]" + x))
  {
    ItemsThen(v, i, x);
  }

  lemma {:induction false} MembersUnique(v: Json, keys: seq<string>, first: bool, x: string,
                                         w: Json, keys': seq<string>, y: string)
    requires v.Obj? && w.Obj? && (forall k :: k in keys ==> k in v.members)
            && (forall k :: k in keys' ==> k in w.members)
    requires EncodeMembers(v, keys, first) + ("}" + x) == EncodeMembers(w, keys', first) + ("}" + y)
    ensures keys == keys' && x == y && forall k :: k in keys ==> v.members[k] == w.members[k]
    decreases v, 0, |keys|
  {
    MembersThen(v, keys, first, x);
    MembersThen(w, keys', first, y);
    if keys != [] && keys' != [] {
      var k, k' := keys[0], keys'[0];
      var p, q := EncodeMembers(v, keys[1..], false) + ("}" + x), EncodeMembers(w, keys'[1..], false) + ("}" + y);
      MembersRest(v, keys[1..], x);
      MembersRest(w, keys'[1..], y);
      hide Encode, EncodeMembers, Quote;
      var a, b := Encode(v.members[k]) + p, Encode(w.members[k']) + q;
      ConcatCancels(Comma(first), Quote(k) + (":" + a), Comma(first), Quote(k') + (":" + b));
      QuoteUnique(k, ":" + a, k', ":" + b);
      ConcatCancels(":", a, ":", b);
      EncodeUnique(v.members[k], p, w.members[k'], q);
      MembersUnique(v, keys[1..], false, x, w, keys'[1..], y);
      assert keys == [k] + keys[1..] && keys' == [k'] + keys'[1..];
    } else {
      ConcatCancels("}", x, "}", y);
    }
  }

  lemma MembersThen(v: Json, keys: seq<string>, first: bool, x: string)
    requires v.Obj? && forall k :: k in keys ==> k in v.members
    ensures keys != [] ==>
              && EncodeMembers(v, keys, first) + ("}" + x)
              == Comma(first) + (Quote(keys[0]) + (":" + (Encode(v.members[keys[0]])
                 + (EncodeMembers(v, keys[1..], false) + ("}" + x)))))
              && (EncodeMembers(v, keys, first) + ("}" + x))[0] == if first then '"' else ','
    ensures keys == [] ==> EncodeMembers(v, keys, first) + ("}" + x) == "}" + x
  {
    if keys != [] {
      var rest := EncodeMembers(v, keys[1..], false);
      var e := Encode(v.members[keys[0]]);
      assert Quote(keys[0])[0] == '"';
      hide Encode, Quote;
      Lists.ConcatRegroups(Quote(keys[0]), ":", e + rest, "}" + x);
      Lists.ConcatRegroups("", e, rest, "}" + x);
      Lists.ConcatRegroups(Comma(first), Quote(keys[0]), ":" + (e + rest), "}" + x);
      Lists.ConcatAssociates(":", e + rest, "}" + x);
      Lists.ConcatAssociates(e, rest, "}" + x);
    }
  }

  lemma MembersRest(v: Json, keys: seq<string>, x: string)
    requires v.Obj? && forall k :: k in keys ==> k in v.members
    ensures Delimited(EncodeMembers(v, keys, false) + ("}" + x))
  {
    MembersThen(v, keys, false, x);
  }

  lemma MembersEqual(v: Json, w: Json)
    requires v.Obj? && w.Obj? && Keys(v) == Keys(w)
    requires forall k :: k in Keys(v) ==> v.members[k] == w.members[k]
    ensures v == w
  {
    assert forall k :: k in v.members <==> k in Keys(v);
    assert forall k :: k in w.members <==> k in Keys(w);
    assert v.members == w.members;
  }

  /** Canonical JSON is one-to-one on values, objects taken as maps. */
  lemma EncodeInjective(v: Json, w: Json)
    requires Encode(v) == Encode(w)
    ensures v == w
  {
    assert Encode(v) + "" == Encode(v) && Encode(w) + "" == Encode(w);
    EncodeUnique(v, "", w, "");
  }
}
