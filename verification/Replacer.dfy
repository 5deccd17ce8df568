/** Pseudonymisation of detected spans, and its undoing by token substitution. */
module Replacer {
  import opened Text
  import opened Tokens
  import opened Vault
  import Lists
  import R = Rehydrator

  /** A detected span: `text[start..end]`, with the text the detector reported. */
  datatype Entity = Entity(original: string, start: nat, end: nat, category: Category)

  // ----- pseudonymisation -----

  /** No slice of `text` the loop takes is out of bounds. */
  predicate InBounds(text: string, entities: seq<Entity>, lastEnd: nat)
    decreases |entities|
  {
    entities != [] ==>
      && (entities[0].start <= lastEnd || entities[0].start <= |text|)
      && InBounds(text, entities[1..], entities[0].end)
  }

  function Gap(text: string, from: nat, to: nat): string
    requires to <= from || to <= |text|
  {
    if from < to then text[from..to] else ""
  }

  datatype Pseudonymized = Pseudonymized(text: string, mappings: map<string, string>, vault: Contents)

  function Pseudonymize(text: string, entities: seq<Entity>, lastEnd: nat, resolver: Option<Resolver>, c: Contents)
    : Pseudonymized
    requires InBounds(text, entities, lastEnd)
    decreases |entities|
  {
    if entities == [] then Pseudonymized(Gap(text, lastEnd, |text|), map[], c)
    else
      var e := entities[0];
      var (c', token) := c.GetOrCreate(resolver, e.original, e.category);
      var rest := Pseudonymize(text, entities[1..], e.end, resolver, c');
      Pseudonymized(Gap(text, lastEnd, e.start) + token.token + rest.text,
                    map[token.token := e.original] + rest.mappings,
                    rest.vault)
  }

  /** What the loop has built so far, followed by the rest of its work. */
  function Glue(built: string, mappings: map<string, string>, rest: Pseudonymized): Pseudonymized {
    Pseudonymized(built + rest.text, mappings + rest.mappings, rest.vault)
  }

  lemma PseudonymizeStep(text: string, entities: seq<Entity>, i: nat, lastEnd: nat, resolver: Option<Resolver>,
                         c: Contents,
                         built: string, mappings: map<string, string>)
    requires i < |entities| && InBounds(text, entities[i..], lastEnd)
    ensures InBounds(text, entities[i + 1..], entities[i].end)
    ensures entities[i].start > lastEnd ==> entities[i].start <= |text|
    ensures var e := entities[i];
            var made := c.GetOrCreate(resolver, e.original, e.category);
            Glue(built, mappings, Pseudonymize(text, entities[i..], lastEnd, resolver, c)) ==
            Glue(built + Gap(text, lastEnd, e.start) + made.1.token, mappings[made.1.token := e.original],
                 Pseudonymize(text, entities[i + 1..], e.end, resolver, made.0))
  {
    hide Contents.GetOrCreate, Gap;
    var e := entities[i];
    assert entities[i..][0] == e && entities[i..][1..] == entities[i + 1..];
    var made := c.GetOrCreate(resolver, e.original, e.category);
    var rest := Pseudonymize(text, entities[i + 1..], e.end, resolver, made.0);
    GlueText(built, Gap(text, lastEnd, e.start), made.1.token, rest.text);
    GlueMap(mappings, made.1.token, e.original, rest.mappings);
  }

  lemma GlueText(a: string, b: string, c: string, d: string)
    ensures a + (b + c + d) == a + b + c + d
  {
  }

  lemma GlueMap(m: map<string, string>, k: string, v: string, rest: map<string, string>)
    ensures m + (map[k := v] + rest) == m[k := v] + rest
  {
  }

  method PseudonymizeText(text: string, entities: seq<Entity>, vault: Vault)
      returns (result: string, mappings: map<string, string>)
    requires InBounds(text, entities, 0)
    modifies vault
    ensures Pseudonymized(result, mappings, vault.State())
         == Pseudonymize(text, entities, 0, old(vault.resolver), old(vault.State()))
    ensures vault.resolver == old(vault.resolver)
  {
    result, mappings := "", map[];
    var lastEnd: nat := 0;
    ghost var p := Pseudonymize(text, entities, 0, vault.resolver, vault.State());
    assert entities[0..] == entities && Glue("", map[], p) == p;
    for i := 0 to |entities|
      invariant vault.resolver == old(vault.resolver)
      invariant InBounds(text, entities[i..], lastEnd)
      invariant p == Glue(result, mappings, Pseudonymize(text, entities[i..], lastEnd, vault.resolver, vault.State()))
    {
      hide Contents.GetOrCreate, Pseudonymize, InBounds, Glue;
      var e := entities[i];
      PseudonymizeStep(text, entities, i, lastEnd, vault.resolver, vault.State(), result, mappings);
      if e.start > lastEnd {
        result := result + text[lastEnd..e.start];
      } else {
        assert result == result + "";
      }
      var token := vault.GetOrCreate(e.original, e.category);
      mappings := mappings[token.token := e.original];
      result := result + token.token;
      lastEnd := e.end;
    }
    assert entities[|entities|..] == [] && mappings + map[] == mappings && result + "" == result;
    if lastEnd < |text| {
      result := result + text[lastEnd..];
    }
  }

  // ----- undoing it -----

  predicate IsPrefixWord(p: string) {
    p != "" && forall i :: 0 <= i < |p| ==> IsUpper(p[i])
  }

  lemma BuiltInPrefixes(category: Category)
    requires !category.Custom?
    ensures IsPrefixWord(CategoryPrefix(category))
  {
  }

  /** Every stored token is one the token expression finds whole. */
  ghost predicate Regular(c: Contents) {
    forall o :: o in c.forward ==> IsPrefixWord(CategoryPrefix(c.forward[o].category))
  }

  /** Spans in order, apart, inside the text, and reporting the text they cover. */
  predicate Faithful(text: string, entities: seq<Entity>, lastEnd: nat)
    decreases |entities|
  {
    if entities == [] then lastEnd <= |text|
    else
      var e := entities[0];
      && lastEnd <= e.start <= e.end <= |text|
      && text[e.start..e.end] == e.original
      && Faithful(text, entities[1..], e.end)
  }

  /** The text around the spans cannot be mistaken for part of a token: a gap
      before a span does not end in a capital, a gap after one does not start
      with a digit, and no gap holds a token of the vault. */
  predicate Apart(d: DigitClass, v: map<string, string>, text: string, entities: seq<Entity>, lastEnd: nat,
                  afterToken: bool)
    requires Faithful(text, entities, lastEnd)
    decreases |entities|
  {
    var to := if entities == [] then |text| else entities[0].start;
    var gap := text[lastEnd..to];
    && !FindsKnown(d, v, gap)
    && (afterToken && gap != "" ==> gap[0] !in d)
    && (entities != [] ==>
          && (gap != "" ==> !IsUpper(gap[|gap| - 1]))
          && Apart(d, v, text, entities[1..], entities[0].end, true))
  }

  lemma {:induction false} FaithfulInBounds(text: string, entities: seq<Entity>, lastEnd: nat)
    requires Faithful(text, entities, lastEnd)
    ensures InBounds(text, entities, lastEnd)
    decreases |entities|
  {
    if entities != [] {
      FaithfulInBounds(text, entities[1..], entities[0].end);
    }
  }

  /** Text without known tokens is read and written unchanged, step by step. */
  lemma QuietStep(d: DigitClass, v: map<string, string>, s: string)
    requires s != "" && !FindsKnown(d, v, s)
    ensures var n := R.StepLength(d, s);
            && n <= |s| && !FindsKnown(d, v, s[n..])
            && R.Emit(v, MatchLength(d, s) > 0, s[..n]) == s[..n]
  {
  }

  lemma {:induction false} QuietUnchanged(d: DigitClass, v: map<string, string>, s: string)
    requires !FindsKnown(d, v, s)
    ensures Substitute(d, v, s) == s
    decreases |s|
  {
    hide Substitute, FindsKnown, MatchLength, R.Emit;
    if s == "" {
      R.EmptyUnchanged(d, v);
    } else {
      var n := R.StepLength(d, s);
      QuietStep(d, v, s);
      QuietUnchanged(d, v, s[n..]);
      R.SubstituteStep(d, v, s);
      assert s == s[..n] + s[n..];
    }
  }

  /** A gap before a token is scanned as it would be alone. */
  lemma {:induction false} SubstituteGap(d: DigitClass, v: map<string, string>, gap: string, rest: string)
    requires !FindsKnown(d, v, gap)
    requires gap != "" ==> !IsUpper(gap[|gap| - 1])
    requires rest != "" && IsUpper(rest[0])
    ensures Substitute(d, v, gap + rest) == gap + Substitute(d, v, rest)
    decreases |gap|
  {
    hide Substitute, FindsKnown, MatchLength, R.Emit, IsUpper;
    if gap == "" {
      assert gap + rest == rest;
    } else {
      GapMatch(d, gap, rest);
      var n, w := R.StepLength(d, gap), gap + rest;
      QuietStep(d, v, gap);
      var read, tail := gap[..n], gap[n..];
      assert tail != "" ==> tail[|tail| - 1] == gap[|gap| - 1];
      SubstituteGap(d, v, tail, rest);
      assert Substitute(d, v, w) == read + Substitute(d, v, tail + rest) by {
        R.SubstituteStep(d, v, w);
        assert w[..n] == read && w[n..] == tail + rest;
      }
      Lists.ConcatAssociates(read, tail, Substitute(d, v, rest));
      assert gap == read + tail;
    }
  }

  lemma GapMatch(d: DigitClass, gap: string, rest: string)
    requires gap != "" && !IsUpper(gap[|gap| - 1]) && rest != "" && IsUpper(rest[0])
    ensures MatchLength(d, gap + rest) == MatchLength(d, gap)
  {
    var w, u := gap + rest, UpperRun(gap);
    assert forall i :: 0 <= i < |gap| ==> w[i] == gap[i];
    assert u < |gap| && UpperRun(w) == u;
    if u > 0 && gap[u] == '_' {
      assert w[|gap|] == rest[0];
      assert DigitEnd(d, w, u + 1) == DigitEnd(d, gap, u + 1);
    }
  }

  lemma SubstituteToken(d: DigitClass, v: map<string, string>, token: string, rest: string)
    requires IsToken(d, token) && (rest != "" ==> rest[0] !in d)
    ensures Substitute(d, v, token + rest) == Lookup(v, token) + Substitute(d, v, rest)
  {
    var w := token + rest;
    var u :| 0 < u < |token| && SplitsAsToken(d, token, u);
    assert forall i :: 0 <= i < |token| ==> w[i] == token[i];
    assert rest != "" ==> w[|token|] == rest[0];
    assert UpperRun(w) == u && DigitEnd(d, w, u + 1) == |token|;
    assert MatchLength(d, w) == |token|;
    R.SubstituteStep(d, v, w);
    assert w[..|token|] == token && w[|token|..] == rest;
  }

  lemma TokenTextIsToken(d: DigitClass, prefix: string, id: nat)
    requires IsPrefixWord(prefix)
    ensures IsToken(d, TokenText(prefix, id)) && IsUpper(TokenText(prefix, id)[0])
  {
    var w := TokenText(prefix, id);
    forall i | |prefix| < i < |w| ensures w[i] in d {
      assert w[i] == Decimal(id)[i - |prefix| - 1];
      DecimalDigitsAscii(w[i]);
    }
    assert SplitsAsToken(d, w, |prefix|);
  }

  lemma DecimalDigitsAscii(c: char)
    requires IsDecimalDigit(c)
    ensures c in ASCII_DIGITS
  {
  }

  lemma GetOrCreateRegular(c: Contents, resolver: Option<Resolver>, original: string, category: Category)
    requires Regular(c) && IsPrefixWord(CategoryPrefix(category))
    ensures Regular(c.GetOrCreate(resolver, original, category).0)
  {
    hide CategoryPrefix, TokenText;
  }

  /** What a run of the loop leaves in the vault. */
  lemma {:induction false} PseudonymizeKeeps(text: string, entities: seq<Entity>, lastEnd: nat, c: Contents, n: nat)
    requires InBounds(text, entities, lastEnd)
    requires Consistent(c) && Inverse(c) && CountersBelow(c, n) && 0 < n && n + |entities| <= U32_SIZE
    ensures var c' := Pseudonymize(text, entities, lastEnd, None, c).vault;
            Consistent(c') && Inverse(c') && Grows(c, c')
    decreases |entities|
  {
    hide CategoryPrefix, Consistent, Inverse, CountersBelow, Contents.GetOrCreate;
    if entities != [] {
      var e := entities[0];
      var c1 := c.GetOrCreate(None, e.original, e.category).0;
      CounterBelow(c, n, CategoryPrefix(e.category));
      GetOrCreateKeeps(c, None, e.original, e.category);
      GetOrCreateFinds(c, None, e.original, e.category, n);
      PseudonymizeKeeps(text, entities[1..], e.end, c1, n + 1);
    }
  }

  /** The token of an entity leads back to the entity in every later vault. */
  lemma TokenLeadsBack(c: Contents, original: string, later: Contents)
    requires LeadsBack(c) && Inverse(c) && original in c.forward && Grows(c, later)
    ensures Lookup(later.reverse, c.forward[original].token) == original
  {
  }

  /** A consistent vault with room for `m` more tokens, all of them tokens the
      token expression finds whole. */
  ghost predicate Ready(c: Contents, n: nat, m: nat) {
    Consistent(c) && Inverse(c) && CountersBelow(c, n) && 0 < n && n + m <= U32_SIZE && Regular(c)
  }

  lemma VaultStep(c: Contents, n: nat, m: nat, original: string, category: Category)
    requires Ready(c, n, m) && m > 0 && IsPrefixWord(CategoryPrefix(category))
    ensures var (c1, token) := c.GetOrCreate(None, original, category);
            Ready(c1, n + 1, m - 1) && original in c1.forward && c1.forward[original] == token
  {
    CounterBelow(c, n, CategoryPrefix(category));
    GetOrCreateKeeps(c, None, original, category);
    GetOrCreateFinds(c, None, original, category, n);
    GetOrCreateRegular(c, None, original, category);
    hide CategoryPrefix, Consistent, Inverse, CountersBelow, IsPrefixWord, Regular, TokenText;
  }

  /** What the first span and the gap before it are. */
  lemma FirstSpan(d: DigitClass, v: map<string, string>, text: string, entities: seq<Entity>, lastEnd: nat,
                  afterToken: bool)
    requires entities != [] && Faithful(text, entities, lastEnd) && Apart(d, v, text, entities, lastEnd, afterToken)
    ensures var e := entities[0];
            lastEnd <= e.start <= e.end <= |text| && Faithful(text, entities[1..], e.end)
            && Apart(d, v, text, entities[1..], e.end, true)
            && var gap := Gap(text, lastEnd, e.start);
            text[lastEnd..] == gap + (e.original + text[e.end..]) && !FindsKnown(d, v, gap)
            && (gap != "" ==> !IsUpper(gap[|gap| - 1]) && (afterToken ==> gap[0] !in d))
  {
    hide FindsKnown, IsUpper;
    var e := entities[0];
    ThreeParts(text, lastEnd, e.start, e.end);
  }

  lemma ThreeParts(text: string, a: nat, b: nat, c: nat)
    requires a <= b <= c <= |text|
    ensures Gap(text, a, b) == text[a..b] && text[a..] == text[a..b] + (text[b..c] + text[c..])
  {
  }

  lemma FirstToken(text: string, entities: seq<Entity>, lastEnd: nat, c: Contents)
    requires entities != [] && InBounds(text, entities, lastEnd)
    ensures var e := entities[0];
            InBounds(text, entities[1..], e.end) && (e.start <= lastEnd || e.start <= |text|)
            && var (c1, token) := c.GetOrCreate(None, e.original, e.category);
            var p, rest := Pseudonymize(text, entities, lastEnd, None, c),
              Pseudonymize(text, entities[1..], e.end, None, c1);
            p.text == Gap(text, lastEnd, e.start) + token.token + rest.text && p.vault == rest.vault
  {
    hide Contents.GetOrCreate;
  }

  lemma ReadyKeeps(text: string, entities: seq<Entity>, lastEnd: nat, c: Contents, n: nat)
    requires InBounds(text, entities, lastEnd) && Ready(c, n, |entities|)
    ensures Grows(c, Pseudonymize(text, entities, lastEnd, None, c).vault)
  {
    hide Pseudonymize, Consistent, Inverse, CountersBelow, Regular, InBounds;
    PseudonymizeKeeps(text, entities, lastEnd, c, n);
  }

  lemma LastGap(d: DigitClass, v: map<string, string>, text: string, lastEnd: nat, c: Contents, afterToken: bool)
    requires Faithful(text, [], lastEnd) && Apart(d, v, text, [], lastEnd, afterToken)
    ensures var out := Pseudonymize(text, [], lastEnd, None, c).text;
            Substitute(d, v, out) == text[lastEnd..] && (afterToken && out != "" ==> out[0] !in d)
  {
    hide FindsKnown, Substitute;
    assert Gap(text, lastEnd, |text|) == text[lastEnd..|text|] == text[lastEnd..];
    QuietUnchanged(d, v, text[lastEnd..|text|]);
  }

  /** Token substitution undoes pseudonymisation, from any consistent vault with
      room for the new tokens: the result reads back as the original text. */
  lemma {:induction false} SubstitutionUndoes(d: DigitClass, text: string, entities: seq<Entity>, lastEnd: nat,
                                              c: Contents,
                                              n: nat, last: Contents, afterToken: bool)
    requires Faithful(text, entities, lastEnd) && InBounds(text, entities, lastEnd)
    requires Ready(c, n, |entities|) && forall e :: e in entities ==> IsPrefixWord(CategoryPrefix(e.category))
    requires last == Pseudonymize(text, entities, lastEnd, None, c).vault
    requires Apart(d, last.reverse, text, entities, lastEnd, afterToken)
    ensures Substitute(d, last.reverse, Pseudonymize(text, entities, lastEnd, None, c).text) == text[lastEnd..]
    ensures var out := Pseudonymize(text, entities, lastEnd, None, c).text;
            afterToken && out != "" ==> out[0] !in d
    decreases |entities|
  {
    hide *;
    if entities == [] {
      LastGap(d, last.reverse, text, lastEnd, c, afterToken);
    } else {
      var e, rest := entities[0], entities[1..];
      FirstSpan(d, last.reverse, text, entities, lastEnd, afterToken);
      FirstToken(text, entities, lastEnd, c);
      VaultStep(c, n, |entities|, e.original, e.category);
      var made := c.GetOrCreate(None, e.original, e.category);
      ReadyKeeps(text, rest, e.end, made.0, n + 1);
      SubstitutionUndoes(d, text, rest, e.end, made.0, n + 1, last, true);
      EntityToken(d, e.original, made.0, n + 1, |rest|, made.1, last);
      var out := Pseudonymize(text, rest, e.end, None, made.0).text;
      UndoOne(d, last.reverse, Gap(text, lastEnd, e.start), made.1.token, out);
      UpperIsNoDigit(d, made.1.token[0]);
    }
  }

  lemma UndoOne(d: DigitClass, v: map<string, string>, gap: string, token: string, out: string)
    requires !FindsKnown(d, v, gap) && (gap != "" ==> !IsUpper(gap[|gap| - 1]))
    requires IsToken(d, token) && token != "" && IsUpper(token[0]) && (out != "" ==> out[0] !in d)
    ensures Substitute(d, v, gap + token + out) == gap + (Lookup(v, token) + Substitute(d, v, out))
  {
    hide Substitute, FindsKnown, IsUpper, IsToken, Lookup;
    SubstituteToken(d, v, token, out);
    SubstituteGap(d, v, gap, token + out);
    Lists.ConcatAssociates(gap, token, out);
  }

  lemma UpperIsNoDigit(d: DigitClass, c: char)
    requires IsUpper(c)
    ensures c !in d
  {
  }

  lemma EntityToken(d: DigitClass, original: string, c: Contents, n: nat, m: nat, token: PseudoToken, last: Contents)
    requires Ready(c, n, m) && original in c.forward && c.forward[original] == token && Grows(c, last)
    ensures IsToken(d, token.token) && token.token != "" && IsUpper(token.token[0])
    ensures Lookup(last.reverse, token.token) == original
  {
    TokenLeadsBack(c, original, last);
    TokenTextIsToken(d, CategoryPrefix(token.category), token.id);
  }

  /** The round trip in full: whatever earlier calls filled the vault, if the
      spans are faithful and apart from the text around them and all categories
      are built in, substituting the pseudonymised text gives the text back. */
  lemma RoundTrip(d: DigitClass, text: string, entities: seq<Entity>, calls: seq<(string, Category)>)
    requires |calls| + |entities| + 1 < U32_SIZE && Faithful(text, entities, 0)
    requires forall i :: 0 <= i < |calls| ==> !calls[i].1.Custom?
    requires forall i :: 0 <= i < |entities| ==> !entities[i].category.Custom?
    requires InBounds(text, entities, 0)
    requires var p := Pseudonymize(text, entities, 0, None, Run(None, calls));
             Apart(d, p.vault.reverse, text, entities, 0, false)
    ensures var p := Pseudonymize(text, entities, 0, None, Run(None, calls));
            Substitute(d, p.vault.reverse, p.text) == text
  {
    var c := Run(None, calls);
    RunConsistent(None, calls);
    RunRegular(calls);
    forall e | e in entities ensures IsPrefixWord(CategoryPrefix(e.category)) {
      BuiltInPrefixes(e.category);
    }
    SubstitutionUndoes(d, text, entities, 0, c, |calls| + 1, Pseudonymize(text, entities, 0, None, c).vault, false);
    assert text[0..] == text;
  }

  lemma {:induction false} RunRegular(calls: seq<(string, Category)>)
    requires forall i :: 0 <= i < |calls| ==> !calls[i].1.Custom?
    ensures Regular(Run(None, calls))
  {
    if calls != [] {
      var last := calls[|calls| - 1];
      RunRegular(calls[..|calls| - 1]);
      BuiltInPrefixes(last.1);
      GetOrCreateRegular(Run(None, calls[..|calls| - 1]), None, last.0, last.1);
    }
  }
}
