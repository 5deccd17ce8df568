/** The mapping vault: originals to pseudo-tokens and back. */
module Vault {
  import opened Text

  datatype Category =
    | Person | Organization | Location | Amount | Percentage | Date | Email
    | PhoneNumber | IpAddress | Secret | Url | Project | Business | Infra
    | Custom(upperName: string)  // the name as upper-cased for its prefix

  datatype PseudoToken = PseudoToken(token: string, category: Category, id: nat)

  /** Finds the stored original a new spelling should share a token with. */
  type Resolver = (string, Category, map<string, Category>) -> Option<string>

  /** Counters are `u32`. */
  const U32_SIZE := 0x1_0000_0000

  function Increment(counter: nat): nat {
    (counter + 1) % U32_SIZE
  }

  function CategoryPrefix(category: Category): string {
    match category
    case Person => "PERSON"
    case Organization => "ORG"
    case Location => "LOC"
    case Amount => "AMOUNT"
    case Percentage => "PCT"
    case Date => "DATE"
    case Email => "EMAIL"
    case PhoneNumber => "PHONE"
    case IpAddress => "IP"
    case Secret => "SECRET"
    case Url => "URL"
    case Project => "PROJECT"
    case Business => "BIZ"
    case Infra => "INFRA"
    case Custom(upperName) => upperName
  }

  function TokenText(prefix: string, id: nat): string {
    prefix + "_" + Decimal(id)
  }

  /** The contents of a vault. */
  datatype Contents = Contents(
    forward: map<string, PseudoToken>,
    reverse: map<string, string>,
    counters: map<string, nat>)
  {
    function Counter(prefix: string): nat {
      if prefix in counters then counters[prefix] else 0
    }

    function Categories(): map<string, Category> {
      map original | original in forward :: forward[original].category
    }

    /** The stored original `resolver` picks for `original`, if it has a token. */
    function Alias(resolver: Option<Resolver>, original: string, category: Category): Option<PseudoToken> {
      if resolver.None? then None
      else
        var canonical := resolver.value(original, category, Categories());
        if canonical.Some? && canonical.value in forward then Some(forward[canonical.value]) else None
    }

    /** A new token; the counter wraps as `u32` does. */
    function Fresh(original: string, category: Category): (Contents, PseudoToken) {
      var prefix := CategoryPrefix(category);
      var id := Increment(Counter(prefix));
      var token := PseudoToken(TokenText(prefix, id), category, id);
      (Contents(forward[original := token], reverse[token.token := original], counters[prefix := id]), token)
    }

    function GetOrCreate(resolver: Option<Resolver>, original: string, category: Category): (Contents, PseudoToken) {
      if original in forward then (this, forward[original])
      else
        var alias := Alias(resolver, original, category);
        if alias.Some? then (this.(forward := forward[original := alias.value]), alias.value)
        else Fresh(original, category)
    }
  }

  const EMPTY := Contents(map[], map[], map[])

  class Vault {
    var forward: map<string, PseudoToken>
    var reverse: map<string, string>
    var counters: map<string, nat>
    var resolver: Option<Resolver>

    function State(): Contents
      reads this
    {
      Contents(forward, reverse, counters)
    }

    constructor Ephemeral()
      ensures State() == EMPTY && resolver == None
    {
      forward, reverse, counters := map[], map[], map[];
      resolver := None;
    }

    method GetOrCreate(original: string, category: Category) returns (token: PseudoToken)
      modifies this`forward, this`reverse, this`counters
      ensures (State(), token) == old(State()).GetOrCreate(resolver, original, category)
    {
      hide CategoryPrefix, TokenText, Increment;
      if original in forward {
        return forward[original];
      }
      if resolver.Some? {
        var canonical := resolver.value(original, category, State().Categories());
        if canonical.Some? && canonical.value in forward {
          token := forward[canonical.value];
          forward := forward[original := token];
          return;
        }
      }
      var prefix := CategoryPrefix(category);
      var counter := if prefix in counters then counters[prefix] else 0;
      counter := Increment(counter);
      counters := counters[prefix := counter];
      token := PseudoToken(TokenText(prefix, counter), category, counter);
      forward := forward[original := token];
      reverse := reverse[token.token := original];
    }

    method LookUp(token: string) returns (original: Option<string>)
      ensures original == if token in reverse then Some(reverse[token]) else None
      ensures LeadsBack(State()) && original.Some? ==>
                original.value in forward && forward[original.value].token == token
    {
      original := if token in reverse then Some(reverse[token]) else None;
    }
  }

  /** The stored originals, each with the category of its token. */
  ghost predicate IsListing(c: Contents, listing: map<string, Category>) {
    && (forall o :: o in listing <==> o in c.forward)
    && (forall o :: o in listing ==> listing[o] == c.forward[o].category)
  }

  /** Which token a call gives: a known original its own; another one that of the stored
      original the resolver picks for it, which the two then share, and no number is used
      up; otherwise a token of its own, with the next number of its prefix. */
  lemma TokenGiven(c: Contents, resolver: Option<Resolver>, original: string, category: Category,
                   listing: map<string, Category>)
    requires IsListing(c, listing)
    ensures var (d, token) := c.GetOrCreate(resolver, original, category);
            var picked := if resolver.Some? then resolver.value(original, category, listing) else None;
            && original in d.forward && d.forward[original] == token
            && (forall o :: o != original ==> (o in d.forward <==> o in c.forward))
            && (forall o :: o != original && o in d.forward ==> d.forward[o] == c.forward[o])
            && (original in c.forward ==> d == c)
            && (original !in c.forward && picked.Some? && picked.value in c.forward ==>
                  token == c.forward[picked.value] && d.reverse == c.reverse && d.counters == c.counters)
            && (original !in c.forward && (picked.None? || picked.value !in c.forward) ==>
                  && token.category == category && token.token == TokenText(CategoryPrefix(category), token.id)
                  && token.id == (c.Counter(CategoryPrefix(category)) + 1) % 0x1_0000_0000
                  && d.Counter(CategoryPrefix(category)) == token.id
                  && token.token in d.reverse && d.reverse[token.token] == original)
  {
    hide CategoryPrefix, TokenText;
    assert listing == c.Categories();
    if original !in c.forward && c.Alias(resolver, original, category).None? {
      FreshToken(c, original, category);
      hide Contents.Fresh;
    }
  }

  lemma FreshToken(c: Contents, original: string, category: Category)
    ensures var (d, token) := c.Fresh(original, category);
            && d.forward == c.forward[original := token]
            && token.category == category && token.token == TokenText(CategoryPrefix(category), token.id)
            && token.id == (c.Counter(CategoryPrefix(category)) + 1) % 0x1_0000_0000
            && d.Counter(CategoryPrefix(category)) == token.id
            && token.token in d.reverse && d.reverse[token.token] == original
  {
    hide CategoryPrefix, TokenText;
  }

  // ----- what every run of calls keeps -----

  /** `t` was made for its category, by a count already passed. */
  ghost predicate WasCounted(c: Contents, t: PseudoToken) {
    && t.token == TokenText(CategoryPrefix(t.category), t.id)
    && 1 <= t.id <= c.Counter(CategoryPrefix(t.category))
  }

  ghost predicate Counted(c: Contents) {
    forall o :: o in c.forward ==> WasCounted(c, c.forward[o])
  }

  /** Each way through the vault leads back: a token to an original that holds
      it, an original to a known token. */
  ghost predicate LeadsBack(c: Contents) {
    && (forall o :: o in c.forward ==> c.forward[o].token in c.reverse)
    && (forall t :: t in c.reverse ==> c.reverse[t] in c.forward && c.forward[c.reverse[t]].token == t)
  }

  ghost predicate Consistent(c: Contents) {
    Counted(c) && LeadsBack(c)
  }

  /** No two originals share a token: `forward` and `reverse` are inverse. */
  ghost predicate Inverse(c: Contents) {
    forall o :: o in c.forward ==> c.forward[o].token in c.reverse && c.reverse[c.forward[o].token] == o
  }

  ghost predicate CountersBelow(c: Contents, n: int) {
    forall p :: p in c.counters ==> c.counters[p] < n
  }

  /** The text of a token determines its prefix and its id, even when the
      prefix itself contains underscores or digits. */
  lemma TokenTextInjective(p: string, m: nat, q: string, n: nat)
    requires TokenText(p, m) == TokenText(q, n)
    ensures p == q && m == n
  {
    var s, a, b := TokenText(p, m), Decimal(m), Decimal(n);
    forall i | |s| - |a| <= i < |s| ensures s[i] != '_' {
      assert s[i] == a[i - |s| + |a|];
    }
    forall i | |s| - |b| <= i < |s| ensures s[i] != '_' {
      assert s[i] == b[i - |s| + |b|];
    }
    assert s[|s| - |a| - 1] == '_' && s[|s| - |b| - 1] == '_';
    assert |a| == |b|;
    assert s[|s| - |a|..] == a && s[|s| - |b|..] == b;
    DecimalInjective(m, n);
    assert p == s[..|s| - |a| - 1] && q == s[..|s| - |b| - 1];
  }

  /** A counted token is new while its counter has not wrapped. */
  lemma FreshTokenIsNew(c: Contents, category: Category)
    requires Consistent(c)
    ensures TokenText(CategoryPrefix(category), c.Counter(CategoryPrefix(category)) + 1) !in c.reverse
  {
    hide CategoryPrefix, TokenText;
    var prefix := CategoryPrefix(category);
    var id := c.Counter(prefix) + 1;
    var text := TokenText(prefix, id);
    if text in c.reverse {
      var held := c.forward[c.reverse[text]];
      TokenTextInjective(prefix, id, CategoryPrefix(held.category), held.id);
      assert false;
    }
  }

  /** Everything `c` held, `c'` holds unchanged. */
  ghost predicate Grows(c: Contents, c': Contents) {
    && (forall o :: o in c.forward ==> o in c'.forward && c'.forward[o] == c.forward[o])
    && (forall t :: t in c.reverse ==> t in c'.reverse && c'.reverse[t] == c.reverse[t])
  }

  lemma AliasKeeps(c: Contents, original: string, canonical: string)
    requires Consistent(c) && original !in c.forward && canonical in c.forward
    ensures var c' := c.(forward := c.forward[original := c.forward[canonical]]);
            Consistent(c') && Grows(c, c')
  {
    hide CategoryPrefix, TokenText;
  }

  lemma FreshKeepsCounted(c: Contents, original: string, category: Category)
    requires Counted(c) && c.Counter(CategoryPrefix(category)) + 1 < U32_SIZE
    ensures Counted(c.Fresh(original, category).0)
  {
    hide CategoryPrefix, TokenText;
    var c', prefix := c.Fresh(original, category).0, CategoryPrefix(category);
    assert c'.Counter(prefix) == c.Counter(prefix) + 1;
    assert forall p :: p != prefix ==> c'.Counter(p) == c.Counter(p);
    forall o | o in c'.forward ensures WasCounted(c', c'.forward[o]) {
      assert o != original ==> c'.forward[o] == c.forward[o] && WasCounted(c, c.forward[o]);
    }
  }

  lemma StoreKeepsLinks(c: Contents, original: string, token: PseudoToken, counters: map<string, nat>)
    requires LeadsBack(c) && original !in c.forward && token.token !in c.reverse
    ensures var c' := Contents(c.forward[original := token], c.reverse[token.token := original], counters);
            LeadsBack(c') && Grows(c, c') && (Inverse(c) ==> Inverse(c'))
  {
  }

  lemma FreshKeeps(c: Contents, original: string, category: Category)
    requires Consistent(c) && original !in c.forward
    requires c.Counter(CategoryPrefix(category)) + 1 < U32_SIZE
    ensures var c' := c.Fresh(original, category).0;
            Consistent(c') && Grows(c, c') && (Inverse(c) ==> Inverse(c'))
  {
    FreshTokenIsNew(c, category);
    FreshKeepsCounted(c, original, category);
    hide CategoryPrefix, TokenText, Counted, LeadsBack, Grows, Inverse;
    var (c', token) := c.Fresh(original, category);
    StoreKeepsLinks(c, original, token, c'.counters);
  }

  /** One call keeps the vault consistent and forgets nothing; without a
      resolver it keeps `forward` and `reverse` inverse as well. */
  lemma GetOrCreateKeeps(c: Contents, resolver: Option<Resolver>, original: string, category: Category)
    requires Consistent(c) && c.Counter(CategoryPrefix(category)) + 1 < U32_SIZE
    ensures Consistent(c.GetOrCreate(resolver, original, category).0)
    ensures Grows(c, c.GetOrCreate(resolver, original, category).0)
    ensures resolver.None? && Inverse(c) ==> Inverse(c.GetOrCreate(resolver, original, category).0)
  {
    hide CategoryPrefix, Consistent, Inverse;
    if original in c.forward {
    } else if c.Alias(resolver, original, category).Some? {
      AliasKeeps(c, original, resolver.value(original, category, c.Categories()).value);
    } else {
      FreshKeeps(c, original, category);
      hide Contents.Fresh, Grows;
    }
  }

  lemma GetOrCreateFinds(c: Contents, resolver: Option<Resolver>, original: string, category: Category, n: nat)
    ensures original in c.GetOrCreate(resolver, original, category).0.forward
    ensures CountersBelow(c, n) && 0 < n < U32_SIZE ==>
              CountersBelow(c.GetOrCreate(resolver, original, category).0, n + 1)
  {
    hide CategoryPrefix, TokenText;
    if original !in c.forward && c.Alias(resolver, original, category).None? {
      assert c.Fresh(original, category).0.counters.Keys == c.counters.Keys + {CategoryPrefix(category)};
    }
  }

  function Run(resolver: Option<Resolver>, calls: seq<(string, Category)>): Contents {
    if calls == [] then EMPTY
    else
      var last := calls[|calls| - 1];
      Run(resolver, calls[..|calls| - 1]).GetOrCreate(resolver, last.0, last.1).0
  }

  /** After any run of fewer than 2^32 calls from an empty vault, every token is
      counted and leads back; without a resolver all tokens are distinct and
      `lookup` inverts `get_or_create`. Custom categories included. */
  lemma {:induction false} RunConsistent(resolver: Option<Resolver>, calls: seq<(string, Category)>)
    requires |calls| < U32_SIZE
    ensures var c := Run(resolver, calls);
            && Consistent(c) && CountersBelow(c, |calls| + 1)
            && (resolver.None? ==> Inverse(c))
            && (forall i :: 0 <= i < |calls| ==> calls[i].0 in c.forward)
  {
    hide Consistent, CountersBelow, Inverse, Contents.GetOrCreate, CategoryPrefix;
    if calls == [] {
      EmptyConsistent(1);
    } else {
      var last, before := calls[|calls| - 1], calls[..|calls| - 1];
      RunConsistent(resolver, before);
      var c := Run(resolver, before);
      CounterBelow(c, |calls|, CategoryPrefix(last.1));
      GetOrCreateKeeps(c, resolver, last.0, last.1);
      GetOrCreateFinds(c, resolver, last.0, last.1, |calls|);
      forall i | 0 <= i < |calls| ensures calls[i].0 in Run(resolver, calls).forward {
        assert i < |calls| - 1 ==> before[i] == calls[i];
      }
    }
  }

  lemma EmptyConsistent(n: nat)
    ensures Consistent(EMPTY) && Inverse(EMPTY) && CountersBelow(EMPTY, n)
  {
  }

  lemma CounterBelow(c: Contents, n: nat, prefix: string)
    requires CountersBelow(c, n) && 0 < n
    ensures c.Counter(prefix) < n
  {
  }

  // ----- how many tokens a run can give out -----

  /** `original` was asked for. */
  ghost predicate IsSeen(calls: seq<(string, Category)>, original: string) {
    exists i :: 0 <= i < |calls| && calls[i].0 == original
  }

  /** The originals first asked for under a category of this prefix, in order. */
  ghost function News(calls: seq<(string, Category)>, prefix: string): seq<string> {
    if calls == [] then []
    else
      var last, before := calls[|calls| - 1], calls[..|calls| - 1];
      News(before, prefix)
      + (if CategoryPrefix(last.1) == prefix && !IsSeen(before, last.0) then [last.0] else [])
  }

  /** `c` holds the `i`-th original under its prefix with the `i`-th id. */
  ghost predicate Issued(c: Contents, prefix: string, news: seq<string>) {
    && c.Counter(prefix) == |news| % U32_SIZE
    && forall i :: 0 <= i < |news| ==>
         news[i] in c.forward && c.forward[news[i]].token == TokenText(prefix, (i + 1) % U32_SIZE)
  }

  ghost predicate HoldsNews(c: Contents, calls: seq<(string, Category)>) {
    && (forall prefix :: Issued(c, prefix, News(calls, prefix)))
    && (forall o :: o in c.forward ==> IsSeen(calls, o) && o in News(calls, CategoryPrefix(c.forward[o].category)))
    && (forall o :: IsSeen(calls, o) ==> o in c.forward)
  }

  lemma SeenNext(calls: seq<(string, Category)>, o: string)
    requires calls != []
    ensures IsSeen(calls, o) <==> IsSeen(calls[..|calls| - 1], o) || o == calls[|calls| - 1].0
  {
    var n := |calls| - 1;
    if IsSeen(calls[..n], o) {
      var i :| 0 <= i < n && calls[..n][i].0 == o;
      assert calls[i].0 == o;
    }
  }

  lemma {:induction false} NewsSeen(calls: seq<(string, Category)>, prefix: string)
    ensures forall o :: o in News(calls, prefix) ==> IsSeen(calls, o)
    ensures forall i, j :: 0 <= i < j < |News(calls, prefix)| ==> News(calls, prefix)[i] != News(calls, prefix)[j]
  {
    hide CategoryPrefix, IsSeen;
    if calls != [] {
      var before := calls[..|calls| - 1];
      NewsSeen(before, prefix);
      forall o ensures IsSeen(calls, o) <==> IsSeen(before, o) || o == calls[|calls| - 1].0 {
        SeenNext(calls, o);
      }
    }
  }

  /** A new original takes the next id of its prefix; other prefixes are untouched. */
  lemma FreshIssues(c: Contents, original: string, category: Category, prefix: string, news: seq<string>)
    requires Issued(c, prefix, news) && original !in news
    ensures Issued(c.Fresh(original, category).0, prefix,
                   news + (if CategoryPrefix(category) == prefix then [original] else []))
  {
    hide CategoryPrefix, TokenText;
    var c', n := c.Fresh(original, category).0, |news|;
    if CategoryPrefix(category) == prefix {
      assert c'.Counter(prefix) == (n + 1) % U32_SIZE;
      assert c'.forward[original].token == TokenText(prefix, (n + 1) % U32_SIZE);
    }
  }

  lemma FreshLinks(c: Contents, original: string, category: Category)
    requires LeadsBack(c) && original !in c.forward
    ensures LeadsBack(c.Fresh(original, category).0)
  {
    hide CategoryPrefix, TokenText;
  }

  lemma FreshHolds(c: Contents, calls: seq<(string, Category)>)
    requires calls != [] && HoldsNews(c, calls[..|calls| - 1]) && calls[|calls| - 1].0 !in c.forward
    ensures HoldsNews(c.Fresh(calls[|calls| - 1].0, calls[|calls| - 1].1).0, calls)
  {
    hide CategoryPrefix, TokenText, IsSeen, Issued, Contents.Counter;
    var (original, category) := calls[|calls| - 1];
    var before := calls[..|calls| - 1];
    var c' := c.Fresh(original, category).0;
    forall o ensures IsSeen(calls, o) <==> IsSeen(before, o) || o == original {
      SeenNext(calls, o);
    }
    forall prefix ensures Issued(c', prefix, News(calls, prefix)) {
      NewsSeen(before, prefix);
      FreshIssues(c, original, category, prefix, News(before, prefix));
    }
    forall o | o in c'.forward ensures o in News(calls, CategoryPrefix(c'.forward[o].category)) {
      assert o != original ==> c'.forward[o] == c.forward[o];
    }
  }

  lemma RepeatHolds(c: Contents, calls: seq<(string, Category)>)
    requires calls != [] && HoldsNews(c, calls[..|calls| - 1]) && calls[|calls| - 1].0 in c.forward
    ensures HoldsNews(c, calls)
  {
    hide CategoryPrefix, TokenText, IsSeen, Issued;
    var original, before := calls[|calls| - 1].0, calls[..|calls| - 1];
    forall o ensures IsSeen(calls, o) <==> IsSeen(before, o) || o == original {
      SeenNext(calls, o);
    }
    forall prefix ensures News(calls, prefix) == News(before, prefix) {}
  }

  /** Without a resolver, after any run of any length: the ids of a prefix are given
      out in order, wrapping, and every way through the vault leads back. */
  lemma {:induction false} RunIssues(calls: seq<(string, Category)>)
    ensures HoldsNews(Run(None, calls), calls) && LeadsBack(Run(None, calls))
  {
    hide HoldsNews, LeadsBack, CategoryPrefix, Contents.Fresh;
    if calls == [] {
      EmptyHolds();
    } else {
      var before := calls[..|calls| - 1];
      var c := Run(None, before);
      RunIssues(before);
      if calls[|calls| - 1].0 in c.forward {
        RepeatHolds(c, calls);
      } else {
        FreshHolds(c, calls);
        FreshLinks(c, calls[|calls| - 1].0, calls[|calls| - 1].1);
      }
    }
  }

  lemma EmptyHolds()
    ensures HoldsNews(EMPTY, []) && LeadsBack(EMPTY)
  {
  }

  /** From the 2^32-th new original of a prefix on, tokens are given out again: two
      originals share one, whatever was asked in between. */
  lemma WrapReusesToken(calls: seq<(string, Category)>, prefix: string, i: nat)
    requires i + U32_SIZE < |News(calls, prefix)|
    ensures var c, a, b := Run(None, calls), News(calls, prefix)[i], News(calls, prefix)[i + U32_SIZE];
            && a != b && a in c.forward && b in c.forward
            && c.forward[a].token == c.forward[b].token == TokenText(prefix, (i + 1) % U32_SIZE)
  {
    hide Run, News, TokenText, IsSeen;
    RunIssues(calls);
    NewsSeen(calls, prefix);
    assert Issued(Run(None, calls), prefix, News(calls, prefix));
    assert (i + U32_SIZE + 1) % U32_SIZE == (i + 1) % U32_SIZE;
  }

  /** No prefix was asked for more than 2^32 different originals. */
  ghost predicate IdsSuffice(calls: seq<(string, Category)>) {
    forall prefix :: |News(calls, prefix)| <= U32_SIZE
  }

  /** Where an original with a token comes among the new ones of its prefix. */
  lemma IssuedAt(calls: seq<(string, Category)>, o: string) returns (prefix: string, i: nat)
    requires o in Run(None, calls).forward
    ensures i < |News(calls, prefix)| && News(calls, prefix)[i] == o
    ensures Run(None, calls).forward[o].token == TokenText(prefix, (i + 1) % U32_SIZE)
  {
    hide Run, News, TokenText, IsSeen, CategoryPrefix, LeadsBack;
    var c := Run(None, calls);
    RunIssues(calls);
    prefix := CategoryPrefix(c.forward[o].category);
    assert Issued(c, prefix, News(calls, prefix));
    i :| 0 <= i < |News(calls, prefix)| && News(calls, prefix)[i] == o;
  }

  lemma SharedMeansEqual(calls: seq<(string, Category)>, o: string, o': string)
    requires IdsSuffice(calls)
    requires var c := Run(None, calls);
             o in c.forward && o' in c.forward && c.forward[o].token == c.forward[o'].token
    ensures o == o'
  {
    hide Run, News, TokenText, IdsSuffice;
    var p, i := IssuedAt(calls, o);
    var q, j := IssuedAt(calls, o');
    TokenTextInjective(p, (i + 1) % U32_SIZE, q, (j + 1) % U32_SIZE);
    FewNews(calls, p);
    if i != j {
      assert false;
    }
  }

  lemma FewNews(calls: seq<(string, Category)>, prefix: string)
    requires IdsSuffice(calls)
    ensures |News(calls, prefix)| <= U32_SIZE
  {
  }

  lemma TooManyClash(calls: seq<(string, Category)>, prefix: string)
    requires |News(calls, prefix)| > U32_SIZE
    ensures !Inverse(Run(None, calls))
  {
    hide Run, News, TokenText;
    WrapReusesToken(calls, prefix, 0);
  }

  /** Without a resolver `forward` and `reverse` are inverse after a run exactly when
      the ids suffice for every prefix. */
  lemma InverseExactly(calls: seq<(string, Category)>)
    ensures Inverse(Run(None, calls)) <==> IdsSuffice(calls)
  {
    hide Run, News, HoldsNews, TokenText;
    var c := Run(None, calls);
    RunIssues(calls);
    if IdsSuffice(calls) {
      forall o | o in c.forward ensures c.reverse[c.forward[o].token] == o {
        SharedMeansEqual(calls, o, c.reverse[c.forward[o].token]);
      }
    } else {
      var prefix :| |News(calls, prefix)| > U32_SIZE;
      TooManyClash(calls, prefix);
    }
  }

  /** Such a run exists: that many numbered people. */
  function ManyPeople(n: nat): seq<(string, Category)> {
    seq(n, i requires 0 <= i < n => (Decimal(i), Person))
  }

  lemma {:induction false} ManyPeopleNew(n: nat)
    ensures |News(ManyPeople(n), "PERSON")| == n
  {
    if n > 0 {
      ManyPeopleNew(n - 1);
      var calls := ManyPeople(n);
      assert calls[..n - 1] == ManyPeople(n - 1);
      if IsSeen(calls[..n - 1], Decimal(n - 1)) {
        var i :| 0 <= i < n - 1 && calls[i].0 == Decimal(n - 1);
        DecimalInjective(i, n - 1);
        assert false;
      }
    }
  }

  lemma ManyPeopleClash()
    ensures !Inverse(Run(None, ManyPeople(U32_SIZE + 1)))
  {
    hide Run, News, Inverse, ManyPeople;
    ManyPeopleNew(U32_SIZE + 1);
    InverseExactly(ManyPeople(U32_SIZE + 1));
  }

  lemma InverseMeansDistinct(c: Contents, o: string, o': string)
    requires Inverse(c) && o in c.forward && o' in c.forward
    ensures c.forward[o].token == c.forward[o'].token <==> o == o'
  {
  }
}
