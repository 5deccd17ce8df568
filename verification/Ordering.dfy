/** Comparators in the style of Rust's `Ord`: three-way results chained with
    `then_with`, and the stable sort that takes one. The laws are stated on
    single triples (`Chains`, `Flips`), so that a lexicographic comparator
    inherits them from its components by case analysis alone. */
module Ordering {
  datatype Ordering = Less | Equal | Greater {
    function Then(next: Ordering): Ordering {
      if this == Equal then next else this
    }

    function Reverse(): Ordering {
      match this
      case Less => Greater
      case Equal => Equal
      case Greater => Less
    }
  }

  /** Transitivity of one triple, given the results for (a,b), (b,c), (a,c). */
  predicate Chains(ab: Ordering, bc: Ordering, ac: Ordering) {
    ab != Greater && bc != Greater ==>
      ac != Greater && (ac == Equal <==> ab == Equal && bc == Equal)
  }

  /** A total preorder: ties may be distinct items. */
  ghost predicate IsPreorder<T(!new)>(cmp: (T, T) -> Ordering) {
    && (forall a, b :: cmp(b, a) == cmp(a, b).Reverse())
    && (forall a, b, c :: Chains(cmp(a, b), cmp(b, c), cmp(a, c)))
  }

  /** A total order: ties are equal items. */
  ghost predicate IsTotalOrder<T(!new)>(cmp: (T, T) -> Ordering) {
    IsPreorder(cmp) && forall a, b :: cmp(a, b) == Equal <==> a == b
  }

  ghost predicate Sorted<T>(cmp: (T, T) -> Ordering, s: seq<T>) {
    forall i, j :: 0 <= i < j < |s| ==> cmp(s[i], s[j]) != Greater
  }

  // ----- basic comparators -----

  function CompareInt(a: int, b: int): Ordering {
    if a < b then Less else if a == b then Equal else Greater
  }

  function CompareBool(a: bool, b: bool): Ordering {
    if a == b then Equal else if a then Greater else Less
  }

  /** Lexicographic order of strings by scalar value, which is the byte order
      of their UTF-8 encodings. */
  function CompareString(a: string, b: string): Ordering {
    if a == "" then (if b == "" then Equal else Less)
    else if b == "" then Greater
    else CompareInt(a[0] as int, b[0] as int).Then(CompareString(a[1..], b[1..]))
  }

  lemma {:induction false} CompareStringFlips(a: string, b: string)
    ensures CompareString(b, a) == CompareString(a, b).Reverse()
  {
    if a != "" && b != "" {
      CompareStringFlips(a[1..], b[1..]);
    }
  }

  lemma {:induction false} CompareStringChains(a: string, b: string, c: string)
    ensures Chains(CompareString(a, b), CompareString(b, c), CompareString(a, c))
  {
    if a != "" && b != "" && c != "" {
      CompareStringChains(a[1..], b[1..], c[1..]);
    }
  }

  lemma {:induction false} CompareStringTies(a: string, b: string)
    ensures CompareString(a, b) == Equal <==> a == b
  {
    if a != "" && b != "" {
      CompareStringTies(a[1..], b[1..]);
      assert a == [a[0]] + a[1..] && b == [b[0]] + b[1..];
    }
  }

  /** `a` comes first in a dictionary: at the first difference it ends or has the
      smaller character. */
  ghost predicate IsBefore(a: string, b: string) {
    exists k :: DiffersAt(a, b, k)
  }

  predicate DiffersAt(a: string, b: string, k: int) {
    && 0 <= k <= |a| && k < |b| && a[..k] == b[..k]
    && (k == |a| || a[k] < b[k])
  }

  lemma DiffersLater(a: string, b: string, k: int)
    requires a != "" && b != "" && a[0] == b[0]
    ensures DiffersAt(a[1..], b[1..], k) ==> DiffersAt(a, b, k + 1)
    ensures k > 0 && DiffersAt(a, b, k) ==> DiffersAt(a[1..], b[1..], k - 1)
  {
    if DiffersAt(a[1..], b[1..], k) {
      assert a[..k + 1] == [a[0]] + a[1..][..k] && b[..k + 1] == [b[0]] + b[1..][..k];
    }
    if k > 0 && DiffersAt(a, b, k) {
      assert a[1..][..k - 1] == a[..k][1..] && b[1..][..k - 1] == b[..k][1..];
    }
  }

  /** The three results of comparing strings. */
  lemma {:induction false} CompareStringMeans(a: string, b: string)
    ensures CompareString(a, b) == Less <==> IsBefore(a, b)
    ensures CompareString(a, b) == Greater <==> IsBefore(b, a)
    ensures CompareString(a, b) == Equal <==> a == b
    decreases |a| + |b|
  {
    CompareStringTies(a, b);
    CompareStringFlips(a, b);
    LessMeans(a, b);
    LessMeans(b, a);
  }

  lemma {:induction false} LessMeans(a: string, b: string)
    ensures CompareString(a, b) == Less <==> IsBefore(a, b)
  {
    if a == "" || b == "" {
      assert b != "" ==> DiffersAt(a, b, 0) || a != "";
    } else if a[0] != b[0] {
      if a[0] < b[0] {
        assert DiffersAt(a, b, 0);
      }
      forall k | DiffersAt(a, b, k) ensures a[0] < b[0] {
        if k > 0 {
          assert a[..k][0] == b[..k][0];
        }
      }
    } else {
      LessMeans(a[1..], b[1..]);
      if k :| DiffersAt(a[1..], b[1..], k) {
        DiffersLater(a, b, k);
      }
      if k :| DiffersAt(a, b, k) {
        DiffersLater(a, b, k);
      }
    }
  }

  lemma StringsTotallyOrdered()
    ensures IsTotalOrder(CompareString)
  {
    forall a, b ensures CompareString(b, a) == CompareString(a, b).Reverse() {
      CompareStringFlips(a, b);
    }
    forall a, b, c ensures Chains(CompareString(a, b), CompareString(b, c), CompareString(a, c)) {
      CompareStringChains(a, b, c);
    }
    forall a, b ensures CompareString(a, b) == Equal <==> a == b {
      CompareStringTies(a, b);
    }
  }

  // ----- building comparators -----

  function CompareReal(a: real, b: real): Ordering {
    if a < b then Less else if a == b then Equal else Greater
  }

  lemma BasicOrders()
    ensures IsTotalOrder(CompareInt) && IsTotalOrder(CompareReal) && IsTotalOrder(CompareBool)
  {
  }

  /** Compare by a key. */
  function By<T, K>(key: T -> K, cmp: (K, K) -> Ordering): (T, T) -> Ordering {
    (a, b) => cmp(key(a), key(b))
  }

  lemma ByKeepsPreorder<T(!new), K(!new)>(key: T -> K, cmp: (K, K) -> Ordering)
    requires IsPreorder(cmp)
    ensures IsPreorder(By(key, cmp))
  {
  }

  /** `then_with`: `second` decides the ties of `first`. */
  function ThenBy<T>(first: (T, T) -> Ordering, second: (T, T) -> Ordering): (T, T) -> Ordering {
    (a, b) => first(a, b).Then(second(a, b))
  }

  lemma ThenChains(ab: Ordering, bc: Ordering, ac: Ordering, ab': Ordering, bc': Ordering, ac': Ordering)
    requires Chains(ab, bc, ac) && Chains(ab', bc', ac')
    ensures Chains(ab.Then(ab'), bc.Then(bc'), ac.Then(ac'))
  {
  }

  lemma ThenByKeepsPreorder<T(!new)>(first: (T, T) -> Ordering, second: (T, T) -> Ordering)
    requires IsPreorder(first) && IsPreorder(second)
    ensures IsPreorder(ThenBy(first, second))
  {
    var cmp := ThenBy(first, second);
    forall a, b, c ensures Chains(cmp(a, b), cmp(b, c), cmp(a, c)) {
      ThenChains(first(a, b), first(b, c), first(a, c), second(a, b), second(b, c), second(a, c));
    }
    forall a, b ensures cmp(b, a) == cmp(a, b).Reverse() {
      assert first(b, a) == first(a, b).Reverse() && second(b, a) == second(a, b).Reverse();
    }
  }

  /** `Vec` and iterator order: element by element, a prefix first. */
  function CompareSeq<T>(cmp: (T, T) -> Ordering, a: seq<T>, b: seq<T>): Ordering {
    if a == [] then (if b == [] then Equal else Less)
    else if b == [] then Greater
    else cmp(a[0], b[0]).Then(CompareSeq(cmp, a[1..], b[1..]))
  }

  function SeqOrder<T>(cmp: (T, T) -> Ordering): (seq<T>, seq<T>) -> Ordering {
    (a, b) => CompareSeq(cmp, a, b)
  }

  lemma {:induction false} CompareSeqFlips<T(!new)>(cmp: (T, T) -> Ordering, a: seq<T>, b: seq<T>)
    requires IsPreorder(cmp)
    ensures CompareSeq(cmp, b, a) == CompareSeq(cmp, a, b).Reverse()
  {
    if a != [] && b != [] {
      CompareSeqFlips(cmp, a[1..], b[1..]);
      assert cmp(b[0], a[0]) == cmp(a[0], b[0]).Reverse();
    }
  }

  lemma {:induction false} CompareSeqChains<T(!new)>(cmp: (T, T) -> Ordering, a: seq<T>, b: seq<T>, c: seq<T>)
    requires IsPreorder(cmp)
    ensures Chains(CompareSeq(cmp, a, b), CompareSeq(cmp, b, c), CompareSeq(cmp, a, c))
  {
    if a != [] && b != [] && c != [] {
      CompareSeqChains(cmp, a[1..], b[1..], c[1..]);
      ThenChains(cmp(a[0], b[0]), cmp(b[0], c[0]), cmp(a[0], c[0]), CompareSeq(cmp, a[1..], b[1..]),
                 CompareSeq(cmp, b[1..], c[1..]), CompareSeq(cmp, a[1..], c[1..]));
    }
  }

  lemma {:induction false} CompareSeqTies<T(!new)>(cmp: (T, T) -> Ordering, a: seq<T>, b: seq<T>)
    requires IsTotalOrder(cmp)
    ensures CompareSeq(cmp, a, b) == Equal <==> a == b
  {
    if a != [] && b != [] {
      CompareSeqTies(cmp, a[1..], b[1..]);
      assert a == [a[0]] + a[1..] && b == [b[0]] + b[1..];
      assert cmp(a[0], b[0]) == Equal <==> a[0] == b[0];
    }
  }

  lemma SeqOrderTotal<T(!new)>(cmp: (T, T) -> Ordering)
    requires IsTotalOrder(cmp)
    ensures IsTotalOrder(SeqOrder(cmp))
  {
    var order := SeqOrder(cmp);
    forall a, b ensures order(b, a) == order(a, b).Reverse() && (order(a, b) == Equal <==> a == b) {
      CompareSeqFlips(cmp, a, b);
      CompareSeqTies(cmp, a, b);
    }
    forall a, b, c ensures Chains(order(a, b), order(b, c), order(a, c)) {
      CompareSeqChains(cmp, a, b, c);
    }
  }

  // ----- the library's stable sort -----

  function Insert<T>(cmp: (T, T) -> Ordering, x: T, s: seq<T>): seq<T> {
    if s == [] || cmp(x, s[0]) != Greater then [x] + s
    else [s[0]] + Insert(cmp, x, s[1..])
  }

  /** `sort_by`: stable, so the result is determined by the input order of ties. */
  function SortBy<T>(cmp: (T, T) -> Ordering, s: seq<T>): seq<T> {
    if s == [] then [] else Insert(cmp, s[0], SortBy(cmp, s[1..]))
  }

  lemma {:induction false} InsertPermutes<T>(cmp: (T, T) -> Ordering, x: T, s: seq<T>)
    ensures multiset(Insert(cmp, x, s)) == multiset{x} + multiset(s)
  {
    if s != [] && cmp(x, s[0]) == Greater {
      InsertPermutes(cmp, x, s[1..]);
      assert s == [s[0]] + s[1..];
    }
  }

  lemma {:induction false} SortPermutes<T>(cmp: (T, T) -> Ordering, s: seq<T>)
    ensures multiset(SortBy(cmp, s)) == multiset(s)
    ensures |SortBy(cmp, s)| == |s|
  {
    if s != [] {
      SortPermutes(cmp, s[1..]);
      InsertPermutes(cmp, s[0], SortBy(cmp, s[1..]));
      assert s == [s[0]] + s[1..];
    }
    assert |multiset(SortBy(cmp, s))| == |SortBy(cmp, s)|;
  }

  lemma {:induction false} InsertSorts<T(!new)>(cmp: (T, T) -> Ordering, x: T, s: seq<T>)
    requires IsPreorder(cmp) && Sorted(cmp, s)
    ensures Sorted(cmp, Insert(cmp, x, s))
  {
    if s == [] {
    } else if cmp(x, s[0]) != Greater {
      forall j | 0 <= j < |s| ensures cmp(x, s[j]) != Greater {
        assert Chains(cmp(x, s[0]), cmp(s[0], s[j]), cmp(x, s[j]));
      }
    } else {
      var rest := Insert(cmp, x, s[1..]);
      InsertSorts(cmp, x, s[1..]);
      InsertPermutes(cmp, x, s[1..]);
      forall j | 0 <= j < |rest| ensures cmp(s[0], rest[j]) != Greater {
        assert rest[j] in multiset(rest);
        assert rest[j] == x || rest[j] in s[1..];
        assert cmp(s[0], x) == cmp(x, s[0]).Reverse();
      }
      hide Insert, IsPreorder;
    }
  }

  lemma {:induction false} SortSorts<T(!new)>(cmp: (T, T) -> Ordering, s: seq<T>)
    requires IsPreorder(cmp)
    ensures Sorted(cmp, SortBy(cmp, s))
  {
    if s != [] {
      SortSorts(cmp, s[1..]);
      InsertSorts(cmp, s[0], SortBy(cmp, s[1..]));
    }
  }

  /** Ties of `cmp` among the items of `s` are equal items. */
  ghost predicate TiesEqual<T>(cmp: (T, T) -> Ordering, s: seq<T>) {
    forall i, j :: 0 <= i < |s| && 0 <= j < |s| && cmp(s[i], s[j]) == Equal ==> s[i] == s[j]
  }

  lemma SortedHeadsTie<T(!new)>(cmp: (T, T) -> Ordering, s: seq<T>, t: seq<T>)
    requires IsPreorder(cmp) && Sorted(cmp, s) && Sorted(cmp, t)
    requires s != [] && t != [] && multiset(s) == multiset(t)
    ensures cmp(s[0], t[0]) == Equal && t[0] in s
  {
    assert s[0] in multiset(t) && t[0] in multiset(s);
    var i :| 0 <= i < |t| && t[i] == s[0];
    var j :| 0 <= j < |s| && s[j] == t[0];
    assert cmp(s[0], s[0]) == cmp(s[0], s[0]).Reverse();
    assert cmp(s[0], s[j]) != Greater && cmp(t[0], t[i]) != Greater;
    assert cmp(t[0], s[0]) == cmp(s[0], t[0]).Reverse();
  }

  lemma SortedTail<T>(cmp: (T, T) -> Ordering, s: seq<T>)
    requires s != [] && Sorted(cmp, s)
    ensures Sorted(cmp, s[1..]) && (TiesEqual(cmp, s) ==> TiesEqual(cmp, s[1..]))
    ensures multiset(s[1..]) == multiset(s) - multiset{s[0]}
  {
    var s' := s[1..];
    assert s == [s[0]] + s';
    forall i | 0 <= i < |s'| ensures s'[i] == s[i + 1] {}
  }

  /** A sorted arrangement of a multiset is unique when ties are equal items. */
  lemma {:induction false} SortedUnique<T(!new)>(cmp: (T, T) -> Ordering, s: seq<T>, t: seq<T>)
    requires IsPreorder(cmp) && Sorted(cmp, s) && Sorted(cmp, t)
    requires multiset(s) == multiset(t) && TiesEqual(cmp, s)
    ensures s == t
  {
    hide *;
    assert |multiset(s)| == |s| && |multiset(t)| == |t|;
    if s != [] {
      SortedHeadsEqual(cmp, s, t);
      SortedTail(cmp, s);
      SortedTail(cmp, t);
      SortedUnique(cmp, s[1..], t[1..]);
      assert s == [s[0]] + s[1..] && t == [t[0]] + t[1..];
    }
  }

  lemma SortedHeadsEqual<T(!new)>(cmp: (T, T) -> Ordering, s: seq<T>, t: seq<T>)
    requires IsPreorder(cmp) && Sorted(cmp, s) && Sorted(cmp, t)
    requires s != [] && t != [] && multiset(s) == multiset(t) && TiesEqual(cmp, s)
    ensures s[0] == t[0]
  {
    hide IsPreorder, Sorted;
    SortedHeadsTie(cmp, s, t);
    var j :| 0 <= j < |s| && s[j] == t[0];
    assert s[0] == s[j];
  }

  /** Sorting forgets the input order, up to ties between distinct items. */
  lemma SortForgetsOrder<T(!new)>(cmp: (T, T) -> Ordering, s: seq<T>, t: seq<T>)
    requires IsPreorder(cmp) && multiset(s) == multiset(t) && TiesEqual(cmp, s)
    ensures SortBy(cmp, s) == SortBy(cmp, t)
  {
    hide *;
    SortPermutes(cmp, s);
    SortPermutes(cmp, t);
    SortSorts(cmp, s);
    SortSorts(cmp, t);
    TiesOfMultiset(cmp, s, SortBy(cmp, s));
    SortedUnique(cmp, SortBy(cmp, s), SortBy(cmp, t));
  }

  lemma TiesOfMultiset<T>(cmp: (T, T) -> Ordering, s: seq<T>, a: seq<T>)
    requires multiset(a) == multiset(s) && TiesEqual(cmp, s)
    ensures TiesEqual(cmp, a)
  {
    forall i, j | 0 <= i < |a| && 0 <= j < |a| && cmp(a[i], a[j]) == Equal ensures a[i] == a[j] {
      assert a[i] in multiset(s) && a[j] in multiset(s);
    }
  }
}
