/** What the functions the decision is made with compute, in the words of the
    contract. */
module CertificationMeaning {
  import opened Text
  import opened Lists
  import opened CertificationModel
  import opened Certification
  import opened CertificationTerms
  import opened CertificationAggregates

  // ----- summaries -----

  lemma {:induction false} SkippedOrRan(cases: seq<CaseResult>)
    ensures Count(NotSkipped(), cases) + Count(With(Skipped), cases) == |cases|
  {
    CountNone(NotSkipped());
    CountNone(With(Skipped));
    if cases != [] {
      SkippedOrRan(cases[1..]);
      hide Count;
      CountNext(NotSkipped(), cases);
      CountNext(With(Skipped), cases);
    }
  }

  /** A run's summary counts its cases under their own statuses; its rates are those of
      the contract. */
  lemma SummaryIs(r: Run)
    ensures var s := Summarize(r);
            && s.cases == |r.cases| && s.executed == Ran(r)
            && s.passed == Count(With(Pass), r.cases) && s.failed == Count(With(Fail), r.cases)
            && s.errored == Count(With(Errored), r.cases) && s.skipped == Count(With(Skipped), r.cases)
            && s.passRate == PassRate(r) && s.coverage == Coverage(r)
  {
    hide Count;
    SkippedOrRan(r.cases);
    CountSame(HasStatus(Pass), With(Pass), r.cases);
    CountSame(HasStatus(Fail), With(Fail), r.cases);
    CountSame(HasStatus(Errored), With(Errored), r.cases);
    CountSame(HasStatus(Skipped), With(Skipped), r.cases);
  }

  function Capped(n: nat): nat {
    if n < 0x1_0000_0000 then n else 0xffff_ffff
  }

  /** The published summary of a run, its counts capped to 32 bits. */
  lemma PublishedIs(r: Run)
    ensures SummaryOf(r) == SuiteSummary(
              r.suite.name, Capped(|r.cases|), Capped(Count(With(Pass), r.cases)), Capped(Count(With(Fail), r.cases)),
              Capped(Count(With(Errored), r.cases)), Capped(Count(With(Skipped), r.cases)), PassRate(r), Coverage(r))
  {
    hide Summarize, Count;
    SummaryIs(r);
  }

  lemma RatioBounds(n: nat, d: nat)
    requires 0 < d && n <= d
    ensures 0.0 <= n as real / d as real <= 1.0
  {
  }

  lemma PassedRan(r: Run)
    ensures Count(With(Pass), r.cases) <= Ran(r) <= |r.cases|
  {
    hide Count;
    SkippedOrRan(r.cases);
    CountWeaker(With(Pass), NotSkipped(), r.cases);
  }

  /** Every case is counted under exactly one status; rates are in 0..=1. */
  lemma SummaryConserves(r: Run)
    ensures var s := Summarize(r);
            s.passed + s.failed + s.errored + s.skipped == s.cases == |r.cases|
            && s.executed == s.passed + s.failed + s.errored
            && 0.0 <= s.passRate <= 1.0 && 0.0 <= s.coverage <= 1.0
            && (|r.cases| <= U32_MAX ==> var u := SummaryOf(r); u.passed + u.failed + u.errored + u.skipped == u.cases)
  {
    hide Count, Summarize;
    SummaryIs(r);
    StatusesPartition(r.cases);
    SkippedOrRan(r.cases);
    PassedRan(r);
    if Ran(r) > 0 {
      RatioBounds(Count(With(Pass), r.cases), Ran(r));
    }
    if r.cases != [] {
      RatioBounds(Ran(r), |r.cases|);
    }
  }

  lemma {:induction false} StatusesPartition(cases: seq<CaseResult>)
    ensures Count(With(Pass), cases) + Count(With(Fail), cases) + Count(With(Errored), cases)
            + Count(With(Skipped), cases) == |cases|
  {
    CountNone(With(Pass));
    CountNone(With(Fail));
    CountNone(With(Errored));
    CountNone(With(Skipped));
    if cases != [] {
      StatusesPartition(cases[1..]);
      hide Count;
      CountNext(With(Pass), cases);
      CountNext(With(Fail), cases);
      CountNext(With(Errored), cases);
      CountNext(With(Skipped), cases);
    }
  }

  // ----- baselines -----

  lemma {:induction false} FirstFound(baselines: seq<Run>, suite: string)
    ensures var found := Find(HasSuite(suite), baselines);
            if found == [] then forall b :: b in baselines ==> b.suite.name != suite
            else IsBaseline(baselines, suite, found[0])
  {
    if baselines != [] && baselines[0].suite.name != suite {
      FirstFound(baselines[1..], suite);
      var found := Find(HasSuite(suite), baselines);
      if found != [] {
        var i :| 0 <= i < |baselines| - 1 && baselines[1..][i] == found[0] && found[0].suite.name == suite
          && forall j :: 0 <= j < i ==> baselines[1..][j].suite.name != suite;
        assert baselines[i + 1] == found[0];
        forall j | 0 <= j < i + 1 ensures baselines[j].suite.name != suite {
          assert j > 0 ==> baselines[j] == baselines[1..][j - 1];
        }
      }
    } else if baselines != [] {
      assert baselines[0] == Find(HasSuite(suite), baselines)[0];
    }
  }

  lemma BaselineListed(baselines: seq<Run>, suite: string, b: Run)
    requires IsBaseline(baselines, suite, b)
    ensures b in baselines && b.suite.name == suite
  {
  }

  lemma OneBaseline(baselines: seq<Run>, suite: string, a: Run, b: Run)
    requires IsBaseline(baselines, suite, a) && IsBaseline(baselines, suite, b)
    ensures a == b
  {
  }

  /** The baseline a run is compared with is the first of its suite. */
  lemma BaselineIs(baselines: seq<Run>, suite: string, b: Run)
    ensures BaselineFor(baselines, suite) == Some(b) <==> IsBaseline(baselines, suite, b)
  {
    hide Find;
    FirstFound(baselines, suite);
    var found := Find(HasSuite(suite), baselines);
    if found == [] {
      if IsBaseline(baselines, suite, b) {
        BaselineListed(baselines, suite, b);
      }
    } else if IsBaseline(baselines, suite, b) {
      OneBaseline(baselines, suite, b, found[0]);
    }
  }

  lemma FailedBeforeIs(baselines: seq<Run>, r: Run, id: string)
    ensures Persists(BaselineFor(baselines, r.suite.name), id) <==> FailedBefore(baselines, r, id)
  {
    hide BaselineFor, IsBaseline;
    var baseline := BaselineFor(baselines, r.suite.name);
    if Persists(baseline, id) {
      BaselineIs(baselines, r.suite.name, baseline.value);
      var d :| d in baseline.value.cases && d.id == id && IsFailure(d);
      assert Fails(d);
    }
    if FailedBefore(baselines, r, id) {
      var b, d :| IsBaseline(baselines, r.suite.name, b) && d in b.cases && d.id == id && Fails(d);
      BaselineIs(baselines, r.suite.name, b);
      assert IsFailure(d);
    }
  }

  // ----- critical failures -----

  lemma NewFailureIs(baselines: seq<Run>, r: Run, c: CaseResult)
    ensures NewFailureOf(BaselineFor(baselines, r.suite.name), r)(c) ==
            if IsNew(baselines, r, c) then [Failure(r.suite.name, r.runId, c.id)] else []
  {
    hide BaselineFor, Persists, FailedBefore;
    FailedBeforeIs(baselines, r, c.id);
  }

  lemma {:induction false} FlatMapCount<T, U>(f: T -> seq<U>, p: T -> bool, s: seq<T>)
    requires forall x :: x in s ==> |f(x)| == if p(x) then 1 else 0
    ensures |FlatMap(f, s)| == Count(p, s)
  {
    CountNone(p);
    if s != [] {
      CountNext(p, s);
      assert s[0] in s && forall x :: x in s[1..] ==> x in s;
      FlatMapCount(f, p, s[1..]);
    }
  }

  lemma RunNewFailures(baselines: seq<Run>, r: Run)
    ensures |NewFailuresOf(baselines)(r)| == Count(NewIn(baselines, r), r.cases)
  {
    hide FlatMap, NewFailureOf, IsNew, BaselineFor, Count;
    var f := NewFailureOf(BaselineFor(baselines, r.suite.name), r);
    forall c | c in r.cases ensures |f(c)| == if NewIn(baselines, r)(c) then 1 else 0 {
      NewFailureIs(baselines, r, c);
    }
    FlatMapCount(f, NewIn(baselines, r), r.cases);
  }

  /** As many new critical failures are found as there are. */
  lemma {:induction false} NewFailuresAre(baselines: seq<Run>, runs: seq<Run>)
    ensures |FlatMap(NewFailuresOf(baselines), runs)| == NewFailures(baselines, runs)
  {
    if runs != [] {
      RunNewFailures(baselines, runs[0]);
      hide NewFailuresOf, Count;
      NewFailuresAre(baselines, runs[1..]);
    }
  }

  // ----- thresholds -----

  lemma ThresholdsAre(x: real, limit: Float)
    ensures AtLeast(Finite(x), limit) <==> !TooLow(x, limit)
    ensures AtMost(Finite(x), limit) <==> !TooHigh(x, limit)
  {
  }

  // ----- metrics -----

  /** A metric rule is judged by the aggregate of its numbers. */
  lemma MetricJudged(env: Env, runs: seq<Run>, rule: MetricRule)
    requires forall r :: r in runs ==> MetricsFinite(r)
    ensures var reasons := MetricReasonOf(env, runs)(rule);
            if exists x :: IsAggregate(rule.aggregate, Numbers(rule, runs), x) && Violates(rule, x)
            then
              exists x :: IsAggregate(rule.aggregate, Numbers(rule, runs), x) && Violates(rule, x)
                && reasons == [Measured(Because(env, MetricThreshold, rule.suite, MetricMissed(rule, Finite(x))),
                                        Finite(x),
                                        rule.value)]
            else reasons == []
  {
    hide Aggregated, MetricValues, Numbers, IsAggregate, Violates, Holds, MetricsFinite;
    var values := Numbers(rule, runs);
    MetricValuesAre(rule, runs);
    AggregateIs(values, rule.aggregate);
    var f := Aggregated(MetricValues(rule, runs), rule.aggregate);
    if values == [] {
      NoAggregate(rule.aggregate);
    } else {
      var x := f.value.x;
      HoldsIs(rule, x);
      forall y | IsAggregate(rule.aggregate, values, y) ensures y == x {
        AggregateUnique(rule.aggregate, values, x, y);
      }
    }
  }

  lemma NoAggregate(a: Aggregate)
    ensures forall x :: !IsAggregate(a, [], x)
  {
  }

  // ----- labelled cases -----

  lemma LabelsAre(r: Run, e: Expect)
    ensures Count(Labelled(e), r.cases) == Count(Expecting(e), r.cases)
    ensures Count(PassedLabelled(e), r.cases) == Count(Meeting(e), r.cases)
    ensures Count(Meeting(e), r.cases) <= Count(Expecting(e), r.cases)
  {
    hide Count;
    CountSame(Labelled(e), Expecting(e), r.cases);
    CountSame(PassedLabelled(e), Meeting(e), r.cases);
    CountWeaker(Meeting(e), Expecting(e), r.cases);
  }
}
