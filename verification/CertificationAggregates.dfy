/** What the aggregates of a metric mean for its values. */
module CertificationAggregates {
  import opened Ordering
  import opened Text
  import opened Lists
  import opened CertificationModel
  import opened Certification
  import opened CertificationTerms

  // ----- percentiles and the mean of sorted values -----

  function AtOrBelow(v: Float): Float -> bool {
    x => TotalCompare(x, v) != Greater
  }

  function StrictlyBelow(v: Float): Float -> bool {
    x => TotalCompare(x, v) == Less
  }

  /** At least pct% of the values are at or below the nearest-rank percentile, and
      fewer than pct% strictly below it. */
  lemma NearestRankIs(sorted: seq<Float>, pct: nat)
    requires sorted != [] && Sorted(TotalCompare, sorted) && 1 <= pct <= 100
    ensures NearestRank(sorted, pct).Some? && NearestRank(sorted, pct).value in sorted
    ensures 100 * Count(AtOrBelow(NearestRank(sorted, pct).value), sorted) >= pct * |sorted|
    ensures 100 * Count(StrictlyBelow(NearestRank(sorted, pct).value), sorted) < pct * |sorted|
  {
    hide *;
    ShareBounds(pct, |sorted|);
    var rank := (pct * |sorted| + 99) / 100;
    RankBounds(pct * |sorted|, rank, |sorted|);
    NearestRankAt(sorted, pct, rank);
    RankValue(sorted, rank, sorted[rank - 1]);
  }

  lemma RankBounds(share: nat, rank: nat, n: nat)
    requires 0 < share <= 100 * n && rank == (share + 99) / 100
    ensures 1 <= rank <= n && 100 * rank >= share && 100 * (rank - 1) < share
  {
  }

  lemma NearestRankAt(sorted: seq<Float>, pct: nat, rank: nat)
    requires rank == (pct * |sorted| + 99) / 100 && 1 <= rank <= |sorted|
    ensures NearestRank(sorted, pct) == Some(sorted[rank - 1])
  {
  }

  lemma ShareBounds(pct: nat, n: nat)
    requires 1 <= pct <= 100 && n > 0
    ensures 0 < pct * n <= 100 * n
  {
  }

  lemma RankValue(sorted: seq<Float>, rank: nat, v: Float)
    requires Sorted(TotalCompare, sorted) && 1 <= rank <= |sorted| && v == sorted[rank - 1]
    ensures Count(AtOrBelow(v), sorted) >= rank && Count(StrictlyBelow(v), sorted) <= rank - 1
  {
    hide TotalCompare;
    var n := |sorted|;
    hide Count;
    FloatOrders();
    forall i | 0 <= i < rank ensures AtOrBelow(v)(sorted[i]) {
      if i == rank - 1 {
        assert TotalCompare(v, v) == Equal;
      }
    }
    CountAtLeast(AtOrBelow(v), sorted, rank);
    forall i | rank - 1 <= i < n ensures !StrictlyBelow(v)(sorted[i]) {
      if i > rank - 1 {
        assert TotalCompare(v, sorted[i]) != Greater;
        assert TotalCompare(sorted[i], v) == TotalCompare(v, sorted[i]).Reverse();
      }
    }
    CountBelow(StrictlyBelow(v), sorted, rank - 1);
  }

  function RealSum(values: seq<Float>): real {
    if values == [] then 0.0 else RealSum(values[..|values| - 1]) + Magnitude(values[|values| - 1])
  }

  lemma {:induction false} SumBounds(values: seq<Float>, lo: real, hi: real)
    requires forall i :: 0 <= i < |values| ==> values[i].Finite? && lo <= values[i].x <= hi
    ensures Sum(values) == Finite(RealSum(values))
    ensures lo * |values| as real <= RealSum(values) <= hi * |values| as real
  {
    hide Sum, RealSum;
    if values == [] {
      NoSum(values);
      assert lo * 0.0 == 0.0 == hi * 0.0;
    } else {
      var n: nat := |values| - 1;
      SumBounds(values[..n], lo, hi);
      SumNext(values);
      Within(RealSum(values[..n]), values[n].x, lo, hi, n);
    }
  }

  lemma NoSum(values: seq<Float>)
    requires values == []
    ensures Sum(values) == Finite(RealSum(values)) && RealSum(values) == 0.0
  {
  }

  lemma Within(sum: real, x: real, lo: real, hi: real, n: nat)
    requires lo * n as real <= sum <= hi * n as real && lo <= x <= hi
    ensures lo * (n + 1) as real <= sum + x <= hi * (n + 1) as real
  {
    OneMore(lo, n);
    OneMore(hi, n);
  }

  lemma OneMore(x: real, n: nat)
    ensures x * (n + 1) as real == x * n as real + x
  {
    assert (n + 1) as real == n as real + 1.0;
  }

  lemma SumNext(values: seq<Float>)
    requires values != []
    ensures var n := |values| - 1;
            Sum(values) == Add(Sum(values[..n]), values[n])
              && RealSum(values) == RealSum(values[..n]) + Magnitude(values[n])
  {
  }

  /** The mean of finite values is their sum over their number, and the clamp to
      their range never changes it. */
  lemma MeanIs(sorted: seq<Float>)
    requires sorted != [] && Sorted(TotalCompare, sorted) && forall i :: 0 <= i < |sorted| ==> sorted[i].Finite?
    ensures MeanOf(sorted) == Some(Finite(RealSum(sorted) / |sorted| as real))
  {
    var n := |sorted|;
    var lo, hi := sorted[0].x, sorted[n - 1].x;
    forall i | 0 <= i < n ensures lo <= sorted[i].x <= hi {
      if i > 0 {
        assert TotalCompare(sorted[0], sorted[i]) != Greater;
      }
      if i < n - 1 {
        assert TotalCompare(sorted[i], sorted[n - 1]) != Greater;
      }
    }
    SumBounds(sorted, lo, hi);
    QuotientBounds(RealSum(sorted), n as real, lo, hi);
  }

  lemma QuotientBounds(sum: real, n: real, lo: real, hi: real)
    requires n > 0.0 && lo * n <= sum <= hi * n
    ensures lo <= sum / n <= hi
  {
    Scaled(lo, sum / n, n);
    Scaled(sum / n, hi, n);
  }

  lemma Scaled(a: real, b: real, n: real)
    requires n > 0.0 && a * n <= b * n
    ensures a <= b
  {
    assert (b - a) * n >= 0.0;
  }

  // ----- aggregates of the values themselves -----

  function AsFloat(x: real): Float {
    Finite(x)
  }

  lemma {:induction false} RealSumIs(values: seq<real>)
    ensures RealSum(Map(AsFloat, values)) == Total(values)
  {
    if values != [] {
      RealSumIs(values[1..]);
      var fs := Map(AsFloat, values);
      assert fs == [Finite(values[0])] + Map(AsFloat, values[1..]);
      RealSumFirst(fs);
    }
  }

  lemma {:induction false} RealSumFirst(values: seq<Float>)
    requires values != []
    ensures RealSum(values) == Magnitude(values[0]) + RealSum(values[1..])
  {
    var n := |values| - 1;
    if n > 0 {
      RealSumFirst(values[..n]);
      assert values[1..][..n - 1] == values[..n][1..];
    } else {
      assert values[..0] == [] && values[1..] == [];
    }
  }

  lemma {:induction false} RealSumRemove(values: seq<Float>, i: nat)
    requires i < |values|
    ensures RealSum(values) == Magnitude(values[i]) + RealSum(values[..i] + values[i + 1..])
  {
    RealSumFirst(values);
    if i > 0 {
      RealSumRemove(values[1..], i - 1);
      var rest := values[..i] + values[i + 1..];
      RealSumFirst(rest);
      assert rest[1..] == values[1..][..i - 1] + values[1..][i..];
    } else {
      assert values[..0] + values[1..] == values[1..];
    }
  }

  lemma RemoveSame<T>(s: seq<T>, t: seq<T>, i: nat)
    requires s != [] && i < |t| && t[i] == s[0] && multiset(s) == multiset(t)
    ensures multiset(s[1..]) == multiset(t[..i] + t[i + 1..])
  {
    Remove(t, i);
    var m, rest := multiset(s[1..]), multiset(t[..i] + t[i + 1..]);
    assert multiset(s) == multiset{s[0]} + m by {
      assert s == [s[0]] + s[1..];
    }
    assert m == multiset{s[0]} + m - multiset{s[0]};
    assert rest == multiset{s[0]} + rest - multiset{s[0]};
  }

  lemma {:induction false} RealSumPermutes(s: seq<Float>, t: seq<Float>)
    requires multiset(s) == multiset(t)
    ensures RealSum(s) == RealSum(t)
  {
    assert |s| == |multiset(s)| == |multiset(t)| == |t|;
    if s != [] {
      assert s[0] in multiset(t);
      var i :| 0 <= i < |t| && t[i] == s[0];
      RealSumFirst(s);
      RealSumRemove(t, i);
      hide RealSum;
      RemoveSame(s, t, i);
      RealSumPermutes(s[1..], t[..i] + t[i + 1..]);
    }
  }

  lemma MemberSorted(values: seq<real>, sorted: seq<Float>, f: Float)
    requires multiset(sorted) == multiset(Map(AsFloat, values)) && f in sorted
    ensures f.Finite? && f.x in values
  {
    assert f in multiset(sorted) && f in Map(AsFloat, values);
    var i :| 0 <= i < |values| && Map(AsFloat, values)[i] == f;
  }

  lemma SortedMember(values: seq<real>, sorted: seq<Float>, x: real)
    requires multiset(sorted) == multiset(Map(AsFloat, values)) && x in values
    ensures Finite(x) in sorted
  {
    var i :| 0 <= i < |values| && values[i] == x;
    assert Map(AsFloat, values)[i] in Map(AsFloat, values);
    assert Finite(x) in multiset(sorted);
  }

  lemma CountsAgree(values: seq<real>, sorted: seq<Float>, x: real)
    requires multiset(sorted) == multiset(Map(AsFloat, values))
    ensures Count(AtOrBelow(Finite(x)), sorted) == Count(UpTo(x), values)
    ensures Count(StrictlyBelow(Finite(x)), sorted) == Count(Under(x), values)
  {
    hide Count, Map;
    CountPermutes(AtOrBelow(Finite(x)), sorted, Map(AsFloat, values));
    CountPermutes(StrictlyBelow(Finite(x)), sorted, Map(AsFloat, values));
    CountMap(AsFloat, AtOrBelow(Finite(x)), UpTo(x), values);
    CountMap(AsFloat, StrictlyBelow(Finite(x)), Under(x), values);
  }

  lemma PercentileIs(values: seq<real>, sorted: seq<Float>, pct: nat)
    requires values != [] && multiset(sorted) == multiset(Map(AsFloat, values)) && Sorted(TotalCompare, sorted)
    requires 1 <= pct <= 100
    ensures var f := NearestRank(sorted, pct); f.Some? && f.value.Finite? && IsPercentile(pct, values, f.value.x)
  {
    hide NearestRank, Count, Map, TotalCompare, Sorted;
    SameSize(values, sorted);
    NearestRankIs(sorted, pct);
    var f := NearestRank(sorted, pct).value;
    MemberSorted(values, sorted, f);
    CountsAgree(values, sorted, f.x);
  }

  lemma SameSize(values: seq<real>, sorted: seq<Float>)
    requires multiset(sorted) == multiset(Map(AsFloat, values))
    ensures |sorted| == |values|
  {
    assert |sorted| == |multiset(sorted)| == |Map(AsFloat, values)|;
  }

  lemma EndsAre(values: seq<real>, sorted: seq<Float>)
    requires values != [] && multiset(sorted) == multiset(Map(AsFloat, values)) && Sorted(TotalCompare, sorted)
    ensures |sorted| == |values|
    ensures sorted[0].Finite? && IsAggregate(Min, values, sorted[0].x)
    ensures sorted[|sorted| - 1].Finite? && IsAggregate(Max, values, sorted[|sorted| - 1].x)
  {
    hide *;
    SameSize(values, sorted);
    var n := |sorted|;
    MemberSorted(values, sorted, sorted[0]);
    MemberSorted(values, sorted, sorted[n - 1]);
    forall x | x in values ensures sorted[0].x <= x <= sorted[n - 1].x {
      SortedMember(values, sorted, x);
      var i :| 0 <= i < n && sorted[i] == Finite(x);
      BetweenEnds(sorted, i);
    }
    EndsMean(values, sorted[0].x, sorted[n - 1].x);
  }

  lemma EndsMean(values: seq<real>, low: real, high: real)
    requires low in values && high in values && forall x :: x in values ==> low <= x <= high
    ensures IsAggregate(Min, values, low) && IsAggregate(Max, values, high)
  {
  }

  lemma BetweenEnds(sorted: seq<Float>, i: nat)
    requires Sorted(TotalCompare, sorted) && i < |sorted|
    requires sorted[0].Finite? && sorted[i].Finite? && sorted[|sorted| - 1].Finite?
    ensures sorted[0].x <= sorted[i].x <= sorted[|sorted| - 1].x
  {
    assert i > 0 ==> TotalCompare(sorted[0], sorted[i]) != Greater;
    assert i < |sorted| - 1 ==> TotalCompare(sorted[i], sorted[|sorted| - 1]) != Greater;
  }

  lemma MeanAggregates(values: seq<real>, sorted: seq<Float>)
    requires values != [] && multiset(sorted) == multiset(Map(AsFloat, values)) && Sorted(TotalCompare, sorted)
    ensures var f := MeanOf(sorted); f.Some? && f.value.Finite? && IsAggregate(Mean, values, f.value.x)
  {
    hide MeanOf, Map, TotalCompare, Sorted;
    SameSize(values, sorted);
    forall i | 0 <= i < |sorted| ensures sorted[i].Finite? {
      MemberSorted(values, sorted, sorted[i]);
    }
    MeanIs(sorted);
    RealSumPermutes(sorted, Map(AsFloat, values));
    RealSumIs(values);
    Divides(Total(values), |values| as real);
  }

  lemma Divides(sum: real, n: real)
    requires n != 0.0
    ensures sum / n * n == sum
  {
  }

  /** Aggregating the sorted values gives an aggregate of the values. */
  lemma AggregateIs(values: seq<real>, a: Aggregate)
    ensures var f := Aggregated(SortBy(TotalCompare, Map(AsFloat, values)), a);
            if values == [] then f.None? else f.Some? && f.value.Finite? && IsAggregate(a, values, f.value.x)
  {
    hide Aggregated, IsAggregate, SortBy, TotalCompare, Map, Sorted;
    var sorted := SortBy(TotalCompare, Map(AsFloat, values));
    FloatOrders();
    SortSorts(TotalCompare, Map(AsFloat, values));
    SortPermutes(TotalCompare, Map(AsFloat, values));
    SameSize(values, sorted);
    if values == [] {
      NothingAggregated(sorted);
    } else {
      SortedAggregateIs(values, sorted, a);
    }
  }

  lemma SortedAggregateIs(values: seq<real>, sorted: seq<Float>, a: Aggregate)
    requires values != [] && multiset(sorted) == multiset(Map(AsFloat, values)) && Sorted(TotalCompare, sorted)
    ensures var f := Aggregated(sorted, a); f.Some? && f.value.Finite? && IsAggregate(a, values, f.value.x)
  {
    hide MeanOf, NearestRank, TotalCompare, Map, Sorted, IsPercentile, Total;
    match a
    case Mean => MeanAggregates(values, sorted);
    case P50 => PercentileIs(values, sorted, 50);
    case P95 => PercentileIs(values, sorted, 95);
    case Min => EndsAre(values, sorted);
    case Max => EndsAre(values, sorted);
  }

  lemma NothingAggregated(sorted: seq<Float>)
    requires sorted == []
    ensures forall a :: Aggregated(sorted, a).None?
  {
  }

  // ----- there is only one aggregate -----

  lemma {:induction false} CountWeaker<T>(p: T -> bool, q: T -> bool, s: seq<T>)
    requires forall x :: x in s && p(x) ==> q(x)
    ensures Count(p, s) <= Count(q, s)
  {
    CountNone(p);
    CountNone(q);
    if s != [] {
      CountNext(p, s);
      CountNext(q, s);
      assert s[0] in s && forall x :: x in s[1..] ==> x in s;
      CountWeaker(p, q, s[1..]);
    }
  }

  lemma PercentileUnique(pct: nat, values: seq<real>, x: real, y: real)
    requires IsPercentile(pct, values, x) && IsPercentile(pct, values, y)
    ensures x == y
  {
    hide Count;
    if x < y {
      CountWeaker(UpTo(x), Under(y), values);
    } else if y < x {
      CountWeaker(UpTo(y), Under(x), values);
    }
  }

  lemma AggregateUnique(a: Aggregate, values: seq<real>, x: real, y: real)
    requires IsAggregate(a, values, x) && IsAggregate(a, values, y)
    ensures x == y
  {
    hide Count, Total, IsPercentile;
    match a
    case Mean =>
      SameQuotient(x, y, |values|, Total(values));
    case P50 => PercentileUnique(50, values, x, y);
    case P95 => PercentileUnique(95, values, x, y);
    case Min =>
    case Max =>
  }

  lemma SameQuotient(x: real, y: real, n: nat, total: real)
    requires n > 0 && x * n as real == total && y * n as real == total
    ensures x == y
  {
    assert (x - y) * n as real == 0.0;
  }

  // ----- the values of a rule -----

  ghost predicate MetricsFinite(r: Run) {
    forall c, k :: c in r.cases && k in c.metrics ==> c.metrics[k].Finite?
  }

  lemma {:induction false} FlatMapMapped<T, U, V>(f: T -> seq<U>, g: T -> seq<V>, m: V -> U, s: seq<T>)
    requires forall x :: x in s ==> f(x) == Map(m, g(x))
    ensures FlatMap(f, s) == Map(m, FlatMap(g, s))
  {
    if s != [] {
      assert s[0] in s && forall x :: x in s[1..] ==> x in s;
      FlatMapMapped(f, g, m, s[1..]);
      MapConcat(m, g(s[0]), FlatMap(g, s[1..]));
    }
  }

  lemma RunValuesAre(rule: MetricRule, r: Run)
    requires MetricsFinite(r)
    ensures RunValues(rule)(r) == Map(AsFloat, RunNumbers(rule)(r))
  {
    hide FlatMap;
    forall c | c in r.cases ensures CaseValue(rule.metric)(c) == Map(AsFloat, CaseNumber(rule.metric)(c)) {}
    if InScope(rule, r) {
      FlatMapMapped(CaseValue(rule.metric), CaseNumber(rule.metric), AsFloat, r.cases);
    }
  }

  /** The values a rule looks at, sorted, are its numbers. */
  lemma MetricValuesAre(rule: MetricRule, runs: seq<Run>)
    requires forall r :: r in runs ==> MetricsFinite(r)
    ensures MetricValues(rule, runs) == SortBy(TotalCompare, Map(AsFloat, Numbers(rule, runs)))
  {
    hide FlatMap, RunValues, RunNumbers, SortBy, MetricsFinite;
    forall r | r in runs ensures RunValues(rule)(r) == Map(AsFloat, RunNumbers(rule)(r)) {
      RunValuesAre(rule, r);
    }
    FlatMapMapped(RunValues(rule), RunNumbers(rule), AsFloat, runs);
  }

  /** `Holds` is the comparison the rule names. */
  lemma HoldsIs(rule: MetricRule, x: real)
    ensures Holds(rule.op, Finite(x), rule.value) <==> !Violates(rule, x)
  {
  }
}
