/** What hash-linked logs have in common: the seal of a JSON object, and why a
    head hash commits to everything before it. SHA-256 is a parameter. */
module HashLinks {
  import opened Ordering
  import opened Text
  import opened CanonicalJson

  type TextHash = string -> Digest

  /** Two different texts among `texts` have the same hash. */
  ghost predicate TextCollision(h: TextHash, texts: set<string>) {
    exists x, y :: x in texts && y in texts && x != y && h(x) == h(y)
  }

  // ----- sealed JSON objects -----

  /** The object without the members that hold the seal itself. */
  function Covered(v: Json, hashMember: string): Json {
    if v.Obj? then Obj(v.members - {hashMember, "sig"}) else v
  }

  /** What is hashed: a domain line, then the canonical JSON of the rest. */
  function SealedText(domain: string, v: Json, hashMember: string): string {
    domain + ("\n" + Encode(Covered(v, hashMember)))
  }

  predicate IsNotNewline(c: char) {
    c != '\n'
  }

  /** The hashed text determines its domain and everything covered, so a hash of
      one kind of object is never the hash of another without a collision. */
  lemma SealedTextInjective(d: string, v: Json, m: string, d': string, v': Json, m': string)
    requires All(IsNotNewline, d) && All(IsNotNewline, d')
    requires SealedText(d, v, m) == SealedText(d', v', m')
    ensures d == d' && Covered(v, m) == Covered(v', m')
  {
    hide Encode, Covered;
    var x, y := "\n" + Encode(Covered(v, m)), "\n" + Encode(Covered(v', m'));
    SplitUnique(IsNotNewline, d, x, d', y);
    ConcatCancels("\n", Encode(Covered(v, m)), "\n", Encode(Covered(v', m')));
    EncodeInjective(Covered(v, m), Covered(v', m'));
  }

  // ----- objects with a fixed list of members -----

  /** Member `keys[i]` is present exactly when `values[i]` is. */
  function Members(keys: seq<string>, values: seq<Option<Json>>): map<string, Json>
    requires |keys| == |values|
  {
    if keys == [] then map[]
    else
      var rest := Members(keys[1..], values[1..]);
      if values[0].Some? then rest[keys[0] := values[0].value] else rest
  }

  lemma {:induction false} MembersKeys(keys: seq<string>, values: seq<Option<Json>>, k: string)
    requires |keys| == |values| && k in Members(keys, values)
    ensures k in keys
  {
    if k != keys[0] {
      MembersKeys(keys[1..], values[1..], k);
    }
  }

  lemma {:induction false} MemberAt(keys: seq<string>, values: seq<Option<Json>>, i: nat)
    requires |keys| == |values| && i < |keys| && Distinct(keys)
    ensures keys[i] in Members(keys, values) <==> values[i].Some?
    ensures values[i].Some? ==> Members(keys, values)[keys[i]] == values[i].value
  {
    var rest := keys[1..];
    assert Distinct(rest) && forall j :: 0 <= j < |rest| ==> rest[j] == keys[j + 1];
    if i > 0 {
      MemberAt(rest, values[1..], i - 1);
    } else if keys[0] in Members(rest, values[1..]) {
      MembersKeys(rest, values[1..], keys[0]);
      assert false;
    }
  }

  /** Equal objects with the same member list have equal member values. */
  lemma MembersDetermine(keys: seq<string>, a: seq<Option<Json>>, b: seq<Option<Json>>, without: set<string>, i: nat)
    requires |keys| == |a| == |b| && i < |keys| && Distinct(keys) && keys[i] !in without
    requires Members(keys, a) - without == Members(keys, b) - without
    ensures a[i] == b[i]
  {
    MemberAt(keys, a, i);
    MemberAt(keys, b, i);
    var x, y := Members(keys, a) - without, Members(keys, b) - without;
    assert (keys[i] in x) == (keys[i] in y) && (keys[i] in x ==> x[keys[i]] == y[keys[i]]);
  }

  // ----- chains -----

  ghost predicate LinkedAt<T(!new), D(!new)>(hash: T -> D, prev: T -> D, number: T -> int,
                                             genesis: D, items: seq<T>, i: nat)
    requires i < |items|
  {
    number(items[i]) == i && prev(items[i]) == (if i == 0 then genesis else hash(items[i - 1]))
  }

  /** Items numbered from 0, each naming the hash of the one before it. */
  ghost predicate Linked<T(!new), D(!new)>(hash: T -> D, prev: T -> D, number: T -> int, genesis: D, items: seq<T>) {
    forall i :: 0 <= i < |items| ==> LinkedAt(hash, prev, number, genesis, items, i)
  }

  lemma LinkedPrefix<T(!new), D(!new)>(hash: T -> D, prev: T -> D, number: T -> int, genesis: D, items: seq<T>, n: nat)
    requires Linked(hash, prev, number, genesis, items) && n <= |items|
    ensures Linked(hash, prev, number, genesis, items[..n])
  {
    forall i | 0 <= i < n ensures LinkedAt(hash, prev, number, genesis, items[..n], i) {
      assert LinkedAt(hash, prev, number, genesis, items, i);
    }
  }

  /** The tip commits to the whole chain: two chains with the same tip hash have
      the same length and the same items throughout, as long as equal hashes of
      their items mean equal (`same`) items. */
  lemma {:induction false} TipCommits<T(!new), D(!new)>(hash: T -> D, prev: T -> D, number: T -> int,
                                                       same: (T, T) -> bool, genesis: D, a: seq<T>, b: seq<T>)
    requires Linked(hash, prev, number, genesis, a) && Linked(hash, prev, number, genesis, b)
    requires a != [] && b != [] && hash(a[|a| - 1]) == hash(b[|b| - 1])
    requires forall x, y :: x in a && y in b && hash(x) == hash(y) ==> same(x, y)
    requires forall x, y :: same(x, y) ==> prev(x) == prev(y) && number(x) == number(y)
    ensures |a| == |b| && forall i :: 0 <= i < |a| ==> same(a[i], b[i])
  {
    var n := |a| - 1;
    assert a[n] in a && b[|b| - 1] in b;
    assert same(a[n], b[|b| - 1]);
    assert LinkedAt(hash, prev, number, genesis, a, n) && LinkedAt(hash, prev, number, genesis, b, |b| - 1);
    if n > 0 {
      LinkedPrefix(hash, prev, number, genesis, a, n);
      LinkedPrefix(hash, prev, number, genesis, b, n);
      TipCommits(hash, prev, number, same, genesis, a[..n], b[..n]);
      forall i | 0 <= i < n ensures same(a[i], b[i]) {
        assert a[i] == a[..n][i] && b[i] == b[..n][i];
      }
    }
  }
}
