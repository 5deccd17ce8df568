/** What pseudonymising a text puts where, told from the vault it leaves behind. */
module Replacements {
  import opened Text
  import opened Vault
  import opened Replacer

  /** The text with every span replaced by the token that `tokens` has for it. */
  function Rendered(text: string, entities: seq<Entity>, lastEnd: nat, tokens: map<string, PseudoToken>): string
    requires InBounds(text, entities, lastEnd) && forall e :: e in entities ==> e.original in tokens
    decreases |entities|
  {
    if entities == [] then text[if lastEnd < |text| then lastEnd else |text|..]
    else
      var e := entities[0];
      (if lastEnd < e.start then text[lastEnd..e.start] else "")
      + (tokens[e.original].token + Rendered(text, entities[1..], e.end, tokens))
  }

  /** What was given a token keeps it. */
  ghost predicate KeepsTokens(c: Contents, d: Contents) {
    forall o :: o in c.forward ==> o in d.forward && d.forward[o] == c.forward[o]
  }

  lemma OneCall(c: Contents, resolver: Option<Resolver>, original: string, category: Category)
    ensures var (d, token) := c.GetOrCreate(resolver, original, category);
            && KeepsTokens(c, d) && original in d.forward && d.forward[original] == token
            && (forall o :: o in d.forward ==> o in c.forward || o == original)
            && (resolver.None? && original !in c.forward ==> token.category == category)
  {
    hide CategoryPrefix, TokenText;
  }

  ghost predicate IsListed(entities: seq<Entity>, original: string) {
    exists e :: e in entities && e.original == original
  }

  /** What the first span and the rest say. */
  lemma Unfold(text: string, entities: seq<Entity>, lastEnd: nat, resolver: Option<Resolver>, c: Contents)
    requires entities != [] && InBounds(text, entities, lastEnd)
    ensures var e := entities[0];
            var (d, token) := c.GetOrCreate(resolver, e.original, e.category);
            && InBounds(text, entities[1..], e.end)
            && (lastEnd < e.start ==> e.start <= |text|)
            && var rest := Pseudonymize(text, entities[1..], e.end, resolver, d);
            var all := Pseudonymize(text, entities, lastEnd, resolver, c);
            && all.vault == rest.vault && all.mappings == map[token.token := e.original] + rest.mappings
            && all.text == (if lastEnd < e.start then text[lastEnd..e.start] else "") + (token.token + rest.text)
  {
    hide Contents.GetOrCreate;
  }

  /** Exactly the originals listed are given tokens, and no token changes. */
  lemma {:induction false} VaultAfter(text: string, entities: seq<Entity>, lastEnd: nat, resolver: Option<Resolver>,
                                      c: Contents)
    requires InBounds(text, entities, lastEnd)
    ensures var d := Pseudonymize(text, entities, lastEnd, resolver, c).vault;
            && KeepsTokens(c, d) && forall o :: o in d.forward <==> o in c.forward || IsListed(entities, o)
    decreases |entities|
  {
    hide Contents.GetOrCreate;
    if entities != [] {
      var e := entities[0];
      var d := c.GetOrCreate(resolver, e.original, e.category).0;
      OneCall(c, resolver, e.original, e.category);
      Unfold(text, entities, lastEnd, resolver, c);
      VaultAfter(text, entities[1..], e.end, resolver, d);
      hide Pseudonymize, InBounds;
      forall o ensures IsListed(entities, o) <==> o == e.original || IsListed(entities[1..], o) {
        assert entities == [e] + entities[1..];
      }
    }
  }

  /** Every span is replaced by the token its original has in the end, and nothing else
      of the text changes. */
  lemma {:induction false} TextIs(text: string, entities: seq<Entity>, lastEnd: nat, resolver: Option<Resolver>,
                                  c: Contents)
    requires InBounds(text, entities, lastEnd)
    ensures var p := Pseudonymize(text, entities, lastEnd, resolver, c);
            && (forall e :: e in entities ==> e.original in p.vault.forward)
            && p.text == Rendered(text, entities, lastEnd, p.vault.forward)
    decreases |entities|
  {
    hide Contents.GetOrCreate, KeepsTokens;
    VaultAfter(text, entities, lastEnd, resolver, c);
    if entities != [] {
      var e := entities[0];
      var d := c.GetOrCreate(resolver, e.original, e.category).0;
      OneCall(c, resolver, e.original, e.category);
      Unfold(text, entities, lastEnd, resolver, c);
      VaultAfter(text, entities[1..], e.end, resolver, d);
      Kept(d, Pseudonymize(text, entities, lastEnd, resolver, c).vault, e.original);
      TextIs(text, entities[1..], e.end, resolver, d);
      hide Pseudonymize, InBounds;
    }
  }

  lemma Kept(c: Contents, d: Contents, o: string)
    requires KeepsTokens(c, d) && o in c.forward
    ensures o in d.forward && d.forward[o] == c.forward[o]
  {
  }

  /** The last entity that has the token. */
  ghost predicate IsLastWith(entities: seq<Entity>, tokens: map<string, PseudoToken>, token: string, i: nat) {
    && i < |entities| && HasToken(entities[i], tokens, token)
    && forall j :: i < j < |entities| ==> !HasToken(entities[j], tokens, token)
  }

  predicate HasToken(e: Entity, tokens: map<string, PseudoToken>, token: string) {
    e.original in tokens && tokens[e.original].token == token
  }

  lemma LastInRest(entities: seq<Entity>, tokens: map<string, PseudoToken>, token: string, i: nat)
    requires entities != [] && IsLastWith(entities[1..], tokens, token, i)
    ensures IsLastWith(entities, tokens, token, i + 1)
  {
    forall j | i + 1 < j < |entities| ensures !HasToken(entities[j], tokens, token) {
      assert entities[j] == entities[1..][j - 1];
    }
  }

  /** No entity has the token and it is not mapped, or it is mapped to the original of the
      last one that has it. */
  ghost predicate MappedRight(entities: seq<Entity>, tokens: map<string, PseudoToken>, mappings: map<string, string>,
                              token: string) {
    if forall j :: 0 <= j < |entities| ==> !HasToken(entities[j], tokens, token) then token !in mappings
    else
      token in mappings
      && exists i: nat :: IsLastWith(entities, tokens, token, i) && mappings[token] == entities[i].original
  }

  lemma MappedMore(entities: seq<Entity>, tokens: map<string, PseudoToken>, mappings: map<string, string>,
                   token: string)
    requires entities != [] && entities[0].original in tokens && MappedRight(entities[1..], tokens, mappings, token)
    ensures MappedRight(entities, tokens, map[tokens[entities[0].original].token := entities[0].original] + mappings,
                        token)
  {
    hide HasToken;
    var e, rest := entities[0], entities[1..];
    assert HasToken(e, tokens, token) <==> tokens[e.original].token == token by { Has(e, tokens, token); }
    forall j | 0 < j < |entities| ensures entities[j] == rest[j - 1] {}
    if token in mappings {
      var i: nat :| IsLastWith(rest, tokens, token, i) && mappings[token] == rest[i].original;
      LastInRest(entities, tokens, token, i);
      assert IsLastWith(entities, tokens, token, i + 1) && entities[i + 1] == rest[i];
    } else {
      assert forall j :: 0 <= j < |rest| ==> !HasToken(rest[j], tokens, token);
      if HasToken(e, tokens, token) {
        assert IsLastWith(entities, tokens, token, 0);
      }
    }
  }

  lemma Has(e: Entity, tokens: map<string, PseudoToken>, token: string)
    requires e.original in tokens
    ensures HasToken(e, tokens, token) <==> tokens[e.original].token == token
  {
  }

  /** The mappings say for every token put into the text which original it stands for. */
  lemma {:induction false} MappingsAre(text: string, entities: seq<Entity>, lastEnd: nat, resolver: Option<Resolver>,
                                       c: Contents, token: string)
    requires InBounds(text, entities, lastEnd)
    ensures var p := Pseudonymize(text, entities, lastEnd, resolver, c);
            MappedRight(entities, p.vault.forward, p.mappings, token)
    decreases |entities|
  {
    hide Contents.GetOrCreate, KeepsTokens, MappedRight;
    if entities == [] {
      NothingMapped(Pseudonymize(text, entities, lastEnd, resolver, c).vault.forward, token);
    } else {
      var e := entities[0];
      var d := c.GetOrCreate(resolver, e.original, e.category).0;
      var last := Pseudonymize(text, entities, lastEnd, resolver, c).vault;
      OneCall(c, resolver, e.original, e.category);
      Unfold(text, entities, lastEnd, resolver, c);
      VaultAfter(text, entities[1..], e.end, resolver, d);
      Kept(d, last, e.original);
      MappingsAre(text, entities[1..], e.end, resolver, d, token);
      hide Pseudonymize, InBounds;
      MappedMore(entities, last.forward, Pseudonymize(text, entities[1..], e.end, resolver, d).mappings, token);
    }
  }

  lemma NothingMapped(tokens: map<string, PseudoToken>, token: string)
    ensures MappedRight([], tokens, map[], token)
  {
  }

  /** Without a resolver a new original's token has the category it was first listed with. */
  lemma {:induction false} CategoryKept(text: string, entities: seq<Entity>, lastEnd: nat, c: Contents, i: nat)
    requires InBounds(text, entities, lastEnd) && i < |entities| && entities[i].original !in c.forward
    requires forall j :: 0 <= j < i ==> entities[j].original != entities[i].original
    ensures var d := Pseudonymize(text, entities, lastEnd, None, c).vault;
            && entities[i].original in d.forward
            && d.forward[entities[i].original].category == entities[i].category
    decreases |entities|
  {
    hide Contents.GetOrCreate, KeepsTokens;
    var e := entities[0];
    var d := c.GetOrCreate(None, e.original, e.category).0;
    OneCall(c, None, e.original, e.category);
    Unfold(text, entities, lastEnd, None, c);
    if i == 0 {
      VaultAfter(text, entities[1..], e.end, None, d);
      Kept(d, Pseudonymize(text, entities, lastEnd, None, c).vault, e.original);
    } else {
      CategoryKept(text, entities[1..], e.end, d, i - 1);
    }
    hide Pseudonymize, InBounds;
  }
}
