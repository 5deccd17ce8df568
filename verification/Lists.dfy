/** `map`, `filter` and `flat_map` over lists, and how they treat the order of
    their input. */
module Lists {
  function Map<T, U>(f: T -> U, s: seq<T>): (r: seq<U>)
    ensures |r| == |s| && forall i :: 0 <= i < |s| ==> r[i] == f(s[i])
  {
    if s == [] then [] else [f(s[0])] + Map(f, s[1..])
  }

  function Filter<T>(p: T -> bool, s: seq<T>): (r: seq<T>)
    ensures (forall x :: x in r ==> x in s && p(x)) && (forall x :: x in s && p(x) ==> x in r)
  {
    if s == [] then [] else (if p(s[0]) then [s[0]] else []) + Filter(p, s[1..])
  }

  function FlatMap<T, U>(f: T -> seq<U>, s: seq<T>): seq<U> {
    if s == [] then [] else f(s[0]) + FlatMap(f, s[1..])
  }

  function Count<T>(p: T -> bool, s: seq<T>): nat {
    |Filter(p, s)|
  }

  /** The first item of `s` that satisfies `p`. */
  function Find<T>(p: T -> bool, s: seq<T>): (r: seq<T>)
    ensures |r| <= 1 && (r == [] <==> forall x :: x in s ==> !p(x))
    ensures r != [] ==> r[0] in s && p(r[0])
  {
    if s == [] then [] else if p(s[0]) then [s[0]] else Find(p, s[1..])
  }

  lemma ConcatAssociates<T>(a: seq<T>, b: seq<T>, c: seq<T>)
    ensures (a + b) + c == a + (b + c)
  {
  }

  lemma ConcatRegroups<T>(a: seq<T>, b: seq<T>, c: seq<T>, d: seq<T>)
    ensures (a + (b + c)) + d == a + (b + (c + d))
  {
  }

  // ----- one more item -----

  lemma MapConcat<T, U>(f: T -> U, s: seq<T>, t: seq<T>)
    ensures Map(f, s + t) == Map(f, s) + Map(f, t)
  {
  }

  lemma MapNext<T, U>(f: T -> U, s: seq<T>, i: nat)
    requires i < |s|
    ensures Map(f, s[..i + 1]) == Map(f, s[..i]) + [f(s[i])]
  {
    assert s[..i + 1] == s[..i] + [s[i]];
    MapConcat(f, s[..i], [s[i]]);
  }

  lemma {:induction false} FlatMapConcat<T, U>(f: T -> seq<U>, s: seq<T>, t: seq<T>)
    ensures FlatMap(f, s + t) == FlatMap(f, s) + FlatMap(f, t)
  {
    if s == [] {
      assert s + t == t;
    } else {
      FlatMapHead(f, s);
      FlatMapHead(f, s + t);
      hide FlatMap;
      assert (s + t)[1..] == s[1..] + t;
      FlatMapConcat(f, s[1..], t);
      ConcatAssociates(f(s[0]), FlatMap(f, s[1..]), FlatMap(f, t));
    }
  }

  lemma FlatMapHead<T, U>(f: T -> seq<U>, s: seq<T>)
    requires s != []
    ensures FlatMap(f, s) == f(s[0]) + FlatMap(f, s[1..])
  {
  }

  function Kept<T>(p: T -> bool): T -> seq<T> {
    x => if p(x) then [x] else []
  }

  lemma {:induction false} FilterIsFlatMap<T>(p: T -> bool, s: seq<T>)
    ensures Filter(p, s) == FlatMap(Kept(p), s)
  {
    if s != [] {
      FilterIsFlatMap(p, s[1..]);
    }
  }

  lemma FilterConcat<T>(p: T -> bool, s: seq<T>, t: seq<T>)
    ensures Filter(p, s + t) == Filter(p, s) + Filter(p, t)
  {
    FilterIsFlatMap(p, s);
    FilterIsFlatMap(p, t);
    FilterIsFlatMap(p, s + t);
    FlatMapConcat(Kept(p), s, t);
  }

  lemma FlatMapOne<T, U>(f: T -> seq<U>, x: T)
    ensures FlatMap(f, [x]) == f(x)
  {
    assert FlatMap(f, []) == [];
  }

  lemma FlatMapNext<T, U>(f: T -> seq<U>, s: seq<T>, i: nat)
    requires i < |s|
    ensures FlatMap(f, s[..i + 1]) == FlatMap(f, s[..i]) + f(s[i])
  {
    assert s[..i + 1] == s[..i] + [s[i]];
    FlatMapConcat(f, s[..i], [s[i]]);
    FlatMapOne(f, s[i]);
  }

  lemma FilterNext<T>(p: T -> bool, s: seq<T>, i: nat)
    requires i < |s|
    ensures Filter(p, s[..i + 1]) == Filter(p, s[..i]) + (if p(s[i]) then [s[i]] else [])
  {
    assert s[..i + 1] == s[..i] + [s[i]];
    FilterConcat(p, s[..i], [s[i]]);
    assert Filter(p, []) == [];
  }

  // ----- members -----

  lemma {:induction false} FlatMapMember<T, U>(f: T -> seq<U>, s: seq<T>, y: U)
    ensures y in FlatMap(f, s) <==> exists x :: x in s && y in f(x)
  {
    if s != [] {
      FlatMapMember(f, s[1..], y);
      assert s == [s[0]] + s[1..];
    }
  }

  lemma {:induction false} FlatMapEmpty<T, U>(f: T -> seq<U>, s: seq<T>)
    ensures FlatMap(f, s) == [] <==> forall x :: x in s ==> f(x) == []
  {
    if s != [] {
      FlatMapEmpty(f, s[1..]);
      assert s == [s[0]] + s[1..];
    }
  }

  lemma {:induction false} FilterAll<T>(p: T -> bool, s: seq<T>)
    requires forall x :: x in s ==> p(x)
    ensures Filter(p, s) == s
  {
    if s != [] {
      FilterAll(p, s[1..]);
      assert s == [s[0]] + s[1..];
    }
  }

  // ----- the order of the input -----

  lemma Remove<T>(t: seq<T>, i: nat)
    requires i < |t|
    ensures multiset(t) == multiset{t[i]} + multiset(t[..i] + t[i + 1..])
    ensures t == t[..i] + ([t[i]] + t[i + 1..])
  {
    assert t == t[..i] + ([t[i]] + t[i + 1..]);
    assert multiset(t) == multiset(t[..i]) + (multiset{t[i]} + multiset(t[i + 1..]));
  }

  lemma RemoveBoth<T>(s: seq<T>, t: seq<T>, i: nat)
    requires s != [] && i < |t| && t[i] == s[0] && multiset(s) <= multiset(t)
    ensures multiset(s[1..]) <= multiset(t[..i] + t[i + 1..])
  {
    Remove(t, i);
    var m, rest := multiset(s[1..]), multiset(t[..i] + t[i + 1..]);
    assert multiset(s) == multiset{s[0]} + m by {
      assert s == [s[0]] + s[1..];
    }
    assert multiset{s[0]} + m <= multiset{s[0]} + rest;
    forall x | x in m ensures m[x] <= rest[x] {
      assert (multiset{s[0]} + m)[x] <= (multiset{s[0]} + rest)[x];
    }
  }

  lemma FlatMapRemove<T, U>(f: T -> seq<U>, t: seq<T>, i: nat)
    requires i < |t|
    ensures multiset(FlatMap(f, t)) == multiset(f(t[i])) + multiset(FlatMap(f, t[..i] + t[i + 1..]))
  {
    Remove(t, i);
    FlatMapConcat(f, t[..i], t[i + 1..]);
    FlatMapConcat(f, t[..i], [t[i]] + t[i + 1..]);
    FlatMapConcat(f, [t[i]], t[i + 1..]);
    FlatMapOne(f, t[i]);
  }

  /** More input gives more output, item by item, whatever the order. */
  lemma {:induction false} FlatMapMonotone<T, U>(f: T -> seq<U>, s: seq<T>, t: seq<T>)
    requires multiset(s) <= multiset(t)
    ensures multiset(FlatMap(f, s)) <= multiset(FlatMap(f, t))
  {
    if s != [] {
      assert s[0] in multiset(s) && s[0] in t;
      var i :| 0 <= i < |t| && t[i] == s[0];
      RemoveBoth(s, t, i);
      FlatMapMonotone(f, s[1..], t[..i] + t[i + 1..]);
      FlatMapRemove(f, t, i);
    }
  }

  function Single<T, U>(f: T -> U): T -> seq<U> {
    x => [f(x)]
  }

  lemma {:induction false} MapIsFlatMap<T, U>(f: T -> U, s: seq<T>)
    ensures Map(f, s) == FlatMap(Single(f), s)
  {
    if s != [] {
      MapIsFlatMap(f, s[1..]);
    }
  }

  lemma MapMonotone<T, U>(f: T -> U, s: seq<T>, t: seq<T>)
    requires multiset(s) <= multiset(t)
    ensures multiset(Map(f, s)) <= multiset(Map(f, t))
  {
    MapIsFlatMap(f, s);
    MapIsFlatMap(f, t);
    FlatMapMonotone(Single(f), s, t);
  }

  lemma FilterMonotone<T>(p: T -> bool, s: seq<T>, t: seq<T>)
    requires multiset(s) <= multiset(t)
    ensures multiset(Filter(p, s)) <= multiset(Filter(p, t))
  {
    FilterIsFlatMap(p, s);
    FilterIsFlatMap(p, t);
    FlatMapMonotone(Kept(p), s, t);
  }

  // ----- counts -----

  lemma CountNext<T>(p: T -> bool, s: seq<T>)
    requires s != []
    ensures Count(p, s) == (if p(s[0]) then 1 else 0) + Count(p, s[1..])
  {
  }

  lemma SizeMonotone<T>(a: seq<T>, b: seq<T>)
    requires multiset(a) <= multiset(b)
    ensures |a| <= |b|
  {
    assert multiset(b) == multiset(a) + (multiset(b) - multiset(a));
    assert |multiset(a)| == |a| && |multiset(b)| == |b|;
  }

  lemma CountSplit<T>(p: T -> bool, s: seq<T>, k: nat)
    requires k <= |s|
    ensures Count(p, s) == Count(p, s[..k]) + Count(p, s[k..])
  {
    assert s == s[..k] + s[k..];
    FilterConcat(p, s[..k], s[k..]);
  }

  lemma CountAtLeast<T>(p: T -> bool, s: seq<T>, k: nat)
    requires k <= |s| && forall i :: 0 <= i < k ==> p(s[i])
    ensures Count(p, s) >= k
  {
    CountSplit(p, s, k);
    FilterAll(p, s[..k]);
  }

  lemma {:induction false} CountAtMost<T>(p: T -> bool, s: seq<T>)
    ensures Count(p, s) <= |s|
  {
    if s != [] {
      CountAtMost(p, s[1..]);
      CountNext(p, s);
    }
  }

  lemma CountBelow<T>(p: T -> bool, s: seq<T>, k: nat)
    requires k <= |s| && forall i :: k <= i < |s| ==> !p(s[i])
    ensures Count(p, s) <= k
  {
    CountSplit(p, s, k);
    CountAtMost(p, s[..k]);
    NoneKept(p, s[k..]);
  }

  lemma {:induction false} NoneKept<T>(p: T -> bool, s: seq<T>)
    requires forall i :: 0 <= i < |s| ==> !p(s[i])
    ensures Filter(p, s) == []
  {
    if s != [] {
      NoneKept(p, s[1..]);
    }
  }

  lemma CountNone<T>(p: T -> bool)
    ensures Count(p, []) == 0
  {
  }

  /** Counts depend only on what the predicate says of the items. */
  lemma {:induction false} CountSame<T>(p: T -> bool, q: T -> bool, s: seq<T>)
    requires forall x :: x in s ==> p(x) == q(x)
    ensures Count(p, s) == Count(q, s)
  {
    CountNone(p);
    CountNone(q);
    if s != [] {
      CountNext(p, s);
      CountNext(q, s);
      assert s[0] in s && forall x :: x in s[1..] ==> x in s;
      CountSame(p, q, s[1..]);
    }
  }

  lemma {:induction false} FilterSame<T>(p: T -> bool, q: T -> bool, s: seq<T>)
    requires forall x :: x in s ==> p(x) == q(x)
    ensures Filter(p, s) == Filter(q, s)
  {
    if s != [] {
      assert s[0] in s && forall x :: x in s[1..] ==> x in s;
      FilterSame(p, q, s[1..]);
    }
  }

  lemma CountPermutes<T>(p: T -> bool, s: seq<T>, t: seq<T>)
    requires multiset(s) == multiset(t)
    ensures Count(p, s) == Count(p, t)
  {
    FilterMonotone(p, s, t);
    FilterMonotone(p, t, s);
    SizeMonotone(Filter(p, s), Filter(p, t));
    SizeMonotone(Filter(p, t), Filter(p, s));
  }

  /** Counting the images is counting the items whose images count. */
  lemma {:induction false} CountMap<T, U>(f: T -> U, p: U -> bool, q: T -> bool, s: seq<T>)
    requires forall x :: x in s ==> p(f(x)) == q(x)
    ensures Count(p, Map(f, s)) == Count(q, s)
  {
    CountNone(p);
    CountNone(q);
    if s != [] {
      CountNext(p, Map(f, s));
      CountNext(q, s);
      assert Map(f, s)[1..] == Map(f, s[1..]);
      assert s[0] in s && forall x :: x in s[1..] ==> x in s;
      CountMap(f, p, q, s[1..]);
    }
  }
}
