/** Which reasons a decision reports: every one that the contract gives cause for, under
    its own code, suite, case and measured values, and no others. */
module CertificationReports {
  import opened Ordering
  import opened Text
  import opened Lists
  import opened CertificationModel
  import opened Certification
  import opened CertificationTerms
  import opened CertificationAggregates
  import opened CertificationMeaning

  /** A reason without its message. */
  datatype Finding = Finding(
    code: ReasonCode, suite: Option<string>, caseId: Option<string>, observed: Option<Float>, required: Option<Float>)

  function FindingOf(r: Reason): Finding {
    Finding(r.code, r.suite, r.caseId, r.observed, r.required)
  }

  predicate IsPlain(f: Finding, suite: Option<string>) {
    f == Finding(f.code, suite, None, None, None)
  }

  predicate IsAbout(f: Finding, r: Run, c: CaseResult) {
    f == Finding(f.code, Some(r.suite.name), Some(c.id), None, None)
  }

  predicate IsMeasured(f: Finding, suite: Option<string>, observed: real, limit: Float) {
    f == Finding(f.code, suite, None, Some(Finite(observed)), Some(limit))
  }

  // ----- causes -----

  ghost predicate IsCandidate(input: Input, runs: seq<Run>, r: Run) {
    r in runs && IsUsable(r) && r.release == input.release
  }

  /** The usable baseline runs, in order. */
  ghost function UsableRuns(runs: seq<Run>): seq<Run> {
    if runs == [] then [] else (if IsUsable(runs[0]) then [runs[0]] else []) + UsableRuns(runs[1..])
  }

  ghost predicate LowRate(r: Run, suite: string, e: Expect, min: Float, f: Finding) {
    var total := Count(Expecting(e), r.cases);
    suite in r.covers && total > 0
    && var rate := Count(Meeting(e), r.cases) as real / total as real;
    TooLow(rate, min) && IsMeasured(f, Some(suite), rate, min)
  }

  /** The run lacks cases labelled on one side. */
  predicate OneSided(r: Run) {
    Count(Expecting(Deny), r.cases) == 0 || Count(Expecting(Allow), r.cases) == 0
  }

  /** `f` has cause, for candidate runs `cs`, baselines `bs`. */
  ghost predicate EvidenceGives(input: Input, cs: seq<Run>, bs: seq<Run>, f: Finding) {
    var rules := input.policy.rules;
    match f.code
    case InvalidInput => false
    case ReleaseMismatch => false
    case NoEvidence => cs == [] && IsPlain(f, None)
    case MissingSuite =>
      exists s :: s in input.requiredSuites && (forall r :: r in cs ==> s !in r.covers) && IsPlain(f, Some(s))
    case NoCases => exists r :: r in cs && Ran(r) == 0 && IsPlain(f, Some(r.suite.name))
    case CoverageBelowMinimum =>
      exists r :: r in cs && TooLow(Coverage(r), rules.minCoverage)
                  && IsMeasured(f, Some(r.suite.name), Coverage(r), rules.minCoverage)
    case PassRateBelowMinimum =>
      rules.minPassRate.Some? &&
      exists r :: r in cs && TooLow(PassRate(r), rules.minPassRate.value)
                  && IsMeasured(f, Some(r.suite.name), PassRate(r), rules.minPassRate.value)
    case PassRateRegression =>
      rules.maxPassRateRegression.Some? &&
      exists r, b :: r in cs && IsBaseline(bs, r.suite.name, b)
                     && TooHigh(PassRate(b) - PassRate(r), rules.maxPassRateRegression.value)
                     && IsMeasured(f, Some(r.suite.name), PassRate(b) - PassRate(r), rules.maxPassRateRegression.value)
    case NewCriticalFailure =>
      NewFailures(bs, cs) > rules.maxNewCriticalFailures &&
      exists r, c :: r in cs && c in r.cases && IsNew(bs, r, c) && IsAbout(f, r, c)
    case PersistingCriticalFailure =>
      rules.blockPersistingCriticalFailures &&
      exists r, c :: r in cs && c in r.cases && IsPersisting(bs, r, c) && IsAbout(f, r, c)
    case MetricThreshold =>
      exists m, x :: m in rules.metrics && IsAggregate(m.aggregate, Numbers(m, cs), x) && Violates(m, x)
                     && IsMeasured(f, m.suite, x, m.value)
    case UnderBlocking =>
      rules.boundary.Some? &&
      exists s, r :: s in rules.boundary.value.suites && r in cs
        && LowRate(r, s, Deny, rules.boundary.value.minDenyRate, f)
    case OverRefusal =>
      rules.boundary.Some? &&
      exists s, r :: s in rules.boundary.value.suites && r in cs
        && LowRate(r, s, Allow, rules.boundary.value.minAllowRate, f)
    case BoundaryIncomplete =>
      rules.boundary.Some? &&
      exists s :: s in rules.boundary.value.suites && IsPlain(f, Some(s))
                  && (if forall r :: r in cs ==> s !in r.covers then s !in input.requiredSuites
                      else exists r :: r in cs && s in r.covers && OneSided(r))
  }

  ghost predicate InputGives(input: Input, runs: seq<Run>, baselines: seq<Run>, f: Finding) {
    match f.code
    case InvalidInput =>
      (!IsUsablePolicy(input.policy) && IsPlain(f, None))
      || exists r :: (r in runs || r in baselines) && !IsUsable(r) && IsPlain(f, Some(r.suite.name))
    case ReleaseMismatch =>
      exists r :: r in runs && IsUsable(r) && r.release != input.release && IsPlain(f, Some(r.suite.name))
    case _ => false
  }

  // ----- causes by group -----

  predicate GivesNoCases(r: Run, f: Finding) {
    f.code == NoCases && Ran(r) == 0 && IsPlain(f, Some(r.suite.name))
  }

  predicate GivesCoverage(rules: Rules, r: Run, f: Finding) {
    f.code == CoverageBelowMinimum && TooLow(Coverage(r), rules.minCoverage)
    && IsMeasured(f, Some(r.suite.name), Coverage(r), rules.minCoverage)
  }

  predicate GivesPassRate(rules: Rules, r: Run, f: Finding) {
    f.code == PassRateBelowMinimum && rules.minPassRate.Some? && TooLow(PassRate(r), rules.minPassRate.value)
    && IsMeasured(f, Some(r.suite.name), PassRate(r), rules.minPassRate.value)
  }

  /** The pass rate fell too far from that of `b`. */
  predicate Regressed(rules: Rules, b: Run, r: Run, f: Finding) {
    f.code == PassRateRegression && rules.maxPassRateRegression.Some?
    && TooHigh(PassRate(b) - PassRate(r), rules.maxPassRateRegression.value)
    && IsMeasured(f, Some(r.suite.name), PassRate(b) - PassRate(r), rules.maxPassRateRegression.value)
  }

  ghost predicate GivesRegression(rules: Rules, bs: seq<Run>, r: Run, f: Finding) {
    exists b :: IsBaseline(bs, r.suite.name, b) && Regressed(rules, b, r, f)
  }

  ghost predicate GivesPersisting(rules: Rules, bs: seq<Run>, r: Run, f: Finding) {
    f.code == PersistingCriticalFailure && rules.blockPersistingCriticalFailures
    && exists c :: c in r.cases && IsPersisting(bs, r, c) && IsAbout(f, r, c)
  }

  /** What is found on run `r` alone. */
  ghost predicate RunGives(rules: Rules, bs: seq<Run>, r: Run, f: Finding) {
    GivesNoCases(r, f) || GivesCoverage(rules, r, f) || GivesPassRate(rules, r, f) || GivesRegression(rules, bs, r, f)
    || GivesPersisting(rules, bs, r, f)
  }

  predicate GivesNoEvidence(cs: seq<Run>, f: Finding) {
    f.code == NoEvidence && cs == [] && IsPlain(f, None)
  }

  ghost predicate GivesMissing(cs: seq<Run>, required: set<string>, f: Finding) {
    f.code == MissingSuite &&
    exists s :: s in required && (forall r :: r in cs ==> s !in r.covers) && IsPlain(f, Some(s))
  }

  ghost predicate GivesNewCritical(rules: Rules, bs: seq<Run>, cs: seq<Run>, f: Finding) {
    f.code == NewCriticalFailure && NewFailures(bs, cs) > rules.maxNewCriticalFailures
    && exists r, c :: r in cs && c in r.cases && IsNew(bs, r, c) && IsAbout(f, r, c)
  }

  ghost predicate GivesMetric(rules: seq<MetricRule>, cs: seq<Run>, f: Finding) {
    f.code == MetricThreshold &&
    exists m, x :: m in rules && IsAggregate(m.aggregate, Numbers(m, cs), x) && Violates(m, x)
                   && IsMeasured(f, m.suite, x, m.value)
  }

  ghost predicate GivesBoundary(rule: BoundaryRule, cs: seq<Run>, required: set<string>, f: Finding) {
    exists s :: s in rule.suites && SuiteGives(rule, cs, required, s, f)
  }

  // ----- findings among reasons -----

  ghost predicate Found(f: Finding, reasons: seq<Reason>) {
    exists y :: y in reasons && FindingOf(y) == f
  }

  lemma FoundInConcat(f: Finding, a: seq<Reason>, b: seq<Reason>)
    ensures Found(f, a + b) <==> Found(f, a) || Found(f, b)
  {
  }

  lemma FoundInNone(f: Finding)
    ensures !Found(f, [])
  {
  }

  lemma FoundInOne(f: Finding, y: Reason)
    ensures Found(f, [y]) <==> f == FindingOf(y)
  {
    assert y in [y];
  }

  lemma FoundInFlatMap<T>(f: Finding, g: T -> seq<Reason>, s: seq<T>)
    ensures Found(f, FlatMap(g, s)) <==> exists x :: x in s && Found(f, g(x))
  {
    hide FlatMap;
    if Found(f, FlatMap(g, s)) {
      var y :| y in FlatMap(g, s) && FindingOf(y) == f;
      FlatMapMember(g, s, y);
      var x :| x in s && y in g(x);
      assert Found(f, g(x));
    }
    if x :| x in s && Found(f, g(x)) {
      var y :| y in g(x) && FindingOf(y) == f;
      FlatMapMember(g, s, y);
    }
  }

  lemma FoundInMap<T>(f: Finding, g: T -> Reason, s: seq<T>)
    ensures Found(f, Map(g, s)) <==> exists x :: x in s && f == FindingOf(g(x))
  {
    if Found(f, Map(g, s)) {
      var y :| y in Map(g, s) && FindingOf(y) == f;
      var i :| 0 <= i < |s| && Map(g, s)[i] == y;
      assert s[i] in s;
    }
    if x :| x in s && f == FindingOf(g(x)) {
      var i :| 0 <= i < |s| && s[i] == x;
      assert Map(g, s)[i] in Map(g, s);
    }
  }

  // ----- one run -----

  lemma NoCasesFound(env: Env, r: Run, f: Finding)
    ensures Found(f, NoCasesReasons(env, r)) <==> GivesNoCases(r, f)
  {
    hide Summarize, Ran;
    SummaryIs(r);
    FoundInNone(f);
    FoundInOne(f, Because(env, NoCases, Some(r.suite.name), NothingExecuted(r.runId)));
    hide Found;
  }

  lemma CoverageFound(env: Env, rules: Rules, r: Run, f: Finding)
    ensures Found(f, CoverageReasons(env, rules, r)) <==> GivesCoverage(rules, r, f)
  {
    hide Summarize, AtLeast, TooLow, Coverage;
    SummaryIs(r);
    ThresholdsAre(Coverage(r), rules.minCoverage);
    FoundInNone(f);
    if TooLow(Coverage(r), rules.minCoverage) {
      FoundInOne(f, CoverageReasons(env, rules, r)[0]);
    }
    hide Found;
  }

  lemma PassRateFound(env: Env, rules: Rules, r: Run, f: Finding)
    ensures Found(f, PassRateReasons(env, rules, r)) <==> GivesPassRate(rules, r, f)
  {
    hide Summarize, AtLeast, TooLow, PassRate;
    SummaryIs(r);
    FoundInNone(f);
    if rules.minPassRate.Some? {
      ThresholdsAre(PassRate(r), rules.minPassRate.value);
      if TooLow(PassRate(r), rules.minPassRate.value) {
        FoundInOne(f, PassRateReasons(env, rules, r)[0]);
      }
    }
    hide Found;
  }

  lemma FallReasons(env: Env, rules: Rules, b: Run, r: Run, max: Float)
    requires rules.maxPassRateRegression == Some(max)
    ensures var fall, reasons := PassRate(b) - PassRate(r), RegressionReasons(env, rules, Some(b), r);
            if TooHigh(fall, max)
            then |reasons| == 1 && FindingOf(reasons[0])
                                   == Finding(PassRateRegression, Some(r.suite.name), None, Some(Finite(fall)),
                                              Some(max))
            else reasons == []
  {
    hide Summarize, AtMost, TooHigh, PassRate, Count, Ran, Coverage;
    RateIs(r);
    RateIs(b);
    ThresholdsAre(PassRate(b) - PassRate(r), max);
  }

  lemma RateIs(r: Run)
    ensures Summarize(r).passRate == PassRate(r)
  {
    hide Summarize, PassRate, Count, Ran, Coverage;
    SummaryIs(r);
  }

  lemma RegressionFound(env: Env, rules: Rules, b: Run, r: Run, f: Finding)
    ensures Found(f, RegressionReasons(env, rules, Some(b), r)) <==> Regressed(rules, b, r, f)
  {
    FoundInNone(f);
    hide TooHigh, PassRate, Found, Summarize, AtMost, Because, Measured;
    if rules.maxPassRateRegression.Some? {
      FallReasons(env, rules, b, r, rules.maxPassRateRegression.value);
      var reasons := RegressionReasons(env, rules, Some(b), r);
      hide RegressionReasons;
      if reasons != [] {
        assert reasons == [reasons[0]];
        FoundInOne(f, reasons[0]);
      }
    }
  }

  lemma FallFound(env: Env, rules: Rules, bs: seq<Run>, r: Run, f: Finding)
    ensures Found(f, RegressionReasons(env, rules, BaselineFor(bs, r.suite.name), r)) <==>
            GivesRegression(rules, bs, r, f)
  {
    var baseline := BaselineFor(bs, r.suite.name);
    forall b ensures baseline == Some(b) <==> IsBaseline(bs, r.suite.name, b) {
      BaselineIs(bs, r.suite.name, b);
    }
    FoundInNone(f);
    if baseline.Some? {
      RegressionFound(env, rules, baseline.value, r, f);
    }
    hide Found, BaselineFor, IsBaseline, Regressed;
  }

  lemma PersistingFound(env: Env, rules: Rules, baselines: seq<Run>, r: Run, f: Finding)
    ensures Found(f, FlatMap(PersistingOf(env, rules, BaselineFor(baselines, r.suite.name), r), r.cases)) <==>
            GivesPersisting(rules, baselines, r, f)
  {
    hide FlatMap, Persists, BaselineFor, FailedBefore;
    var g := PersistingOf(env, rules, BaselineFor(baselines, r.suite.name), r);
    FoundInFlatMap(f, g, r.cases);
    FoundInNone(f);
    forall c
      ensures Found(f, g(c)) <==>
              f.code == PersistingCriticalFailure && rules.blockPersistingCriticalFailures
              && IsPersisting(baselines, r, c) && IsAbout(f, r, c)
    {
      FailedBeforeIs(baselines, r, c.id);
      if g(c) != [] {
        FoundInOne(f, g(c)[0]);
      }
    }
    hide Found;
  }

  lemma FoundInFive(f: Finding, a: seq<Reason>, b: seq<Reason>, c: seq<Reason>, d: seq<Reason>, e: seq<Reason>)
    ensures Found(f, a + b + c + d + e) <==> Found(f, a) || Found(f, b) || Found(f, c) || Found(f, d) || Found(f, e)
  {
    hide Found;
    FoundInConcat(f, a, b);
    FoundInConcat(f, a + b, c);
    FoundInConcat(f, a + b + c, d);
    FoundInConcat(f, a + b + c + d, e);
  }

  lemma RunFound(env: Env, rules: Rules, baselines: seq<Run>, r: Run, f: Finding)
    ensures Found(f, RunReasonsOf(env, rules, baselines)(r)) <==> RunGives(rules, baselines, r, f)
  {
    hide Found, NoCasesReasons, CoverageReasons, PassRateReasons, RegressionReasons, FlatMap, BaselineFor, PersistingOf,
      GivesNoCases, GivesCoverage, GivesPassRate, GivesRegression, GivesPersisting;
    var baseline := BaselineFor(baselines, r.suite.name);
    NoCasesFound(env, r, f);
    CoverageFound(env, rules, r, f);
    PassRateFound(env, rules, r, f);
    FallFound(env, rules, baselines, r, f);
    PersistingFound(env, rules, baselines, r, f);
    FoundInFive(f, NoCasesReasons(env, r), CoverageReasons(env, rules, r), PassRateReasons(env, rules, r),
                RegressionReasons(env, rules, baseline, r), FlatMap(PersistingOf(env, rules, baseline, r), r.cases));
  }

  // ----- new critical failures -----

  lemma FailureMember(baselines: seq<Run>, runs: seq<Run>, x: Failure)
    ensures x in FlatMap(NewFailuresOf(baselines), runs) <==>
            exists r, c :: r in runs && c in r.cases && IsNew(baselines, r, c)
              && x == Failure(r.suite.name, r.runId, c.id)
  {
    hide FlatMap, BaselineFor, IsNew, NewFailureOf;
    FlatMapMember(NewFailuresOf(baselines), runs, x);
    forall r
      ensures x in NewFailuresOf(baselines)(r) <==>
              exists c :: c in r.cases && IsNew(baselines, r, c) && x == Failure(r.suite.name, r.runId, c.id)
    {
      var g := NewFailureOf(BaselineFor(baselines, r.suite.name), r);
      FlatMapMember(g, r.cases, x);
      forall c ensures x in g(c) <==> IsNew(baselines, r, c) && x == Failure(r.suite.name, r.runId, c.id) {
        NewFailureIs(baselines, r, c);
      }
    }
  }

  lemma NewCriticalFound(env: Env, rules: Rules, baselines: seq<Run>, runs: seq<Run>, f: Finding)
    ensures Found(f, NewCriticalReasons(env, rules, FlatMap(NewFailuresOf(baselines), runs))) <==>
            GivesNewCritical(rules, baselines, runs, f)
  {
    hide FlatMap, IsNew, NewFailuresOf, NewFailures;
    var failures := FlatMap(NewFailuresOf(baselines), runs);
    NewFailuresAre(baselines, runs);
    FoundInNone(f);
    FoundInMap(f, NewCriticalOf(env), failures);
    forall x
      ensures x in failures <==>
              exists r, c :: r in runs && c in r.cases && IsNew(baselines, r, c)
                && x == Failure(r.suite.name, r.runId, c.id)
    {
      FailureMember(baselines, runs, x);
    }
    hide Found, Map;
    if r, c :| r in runs && c in r.cases && IsNew(baselines, r, c) && f.code == NewCriticalFailure && IsAbout(f, r, c) {
      var x := Failure(r.suite.name, r.runId, c.id);
      assert x in failures && f == FindingOf(NewCriticalOf(env)(x));
    }
  }

  // ----- metrics -----

  lemma MetricFound(env: Env, runs: seq<Run>, rules: seq<MetricRule>, f: Finding)
    requires forall r :: r in runs ==> MetricsFinite(r)
    ensures Found(f, FlatMap(MetricReasonOf(env, runs), rules)) <==> GivesMetric(rules, runs, f)
  {
    hide FlatMap, IsAggregate, Numbers, Violates, MetricsFinite, MetricReasonOf;
    FoundInFlatMap(f, MetricReasonOf(env, runs), rules);
    forall m
      ensures Found(f, MetricReasonOf(env, runs)(m)) <==>
              f.code == MetricThreshold &&
              exists x :: IsAggregate(m.aggregate, Numbers(m, runs), x) && Violates(m, x)
                && IsMeasured(f, m.suite, x, m.value)
    {
      OneMetricFound(env, runs, m, f);
    }
    hide Found, IsMeasured;
  }

  lemma OneMetricFound(env: Env, runs: seq<Run>, m: MetricRule, f: Finding)
    requires forall r :: r in runs ==> MetricsFinite(r)
    ensures Found(f, MetricReasonOf(env, runs)(m)) <==>
            f.code == MetricThreshold &&
            exists x :: IsAggregate(m.aggregate, Numbers(m, runs), x) && Violates(m, x)
              && IsMeasured(f, m.suite, x, m.value)
  {
    hide IsAggregate, Numbers, Violates, MetricsFinite, MetricReasonOf;
    MetricJudged(env, runs, m);
    FoundInNone(f);
    var reasons, values := MetricReasonOf(env, runs)(m), Numbers(m, runs);
    if reasons != [] {
      FoundInOne(f, reasons[0]);
      var x :| IsAggregate(m.aggregate, values, x) && Violates(m, x)
        && reasons == [Measured(Because(env, MetricThreshold, m.suite, MetricMissed(m, Finite(x))), Finite(x),
                                m.value)];
      forall y | IsAggregate(m.aggregate, values, y) ensures y == x {
        AggregateUnique(m.aggregate, values, x, y);
      }
    }
    hide Found;
  }

  // ----- boundaries -----

  lemma RateFound(env: Env, suite: string, r: Run, e: Expect, min: Float, f: Finding)
    requires suite in r.covers
    ensures Found(f, RateReasons(env, suite, r, e, min)) <==>
            f.code == (if e == Deny then UnderBlocking else OverRefusal) && LowRate(r, suite, e, min, f)
  {
    hide Count, AtLeast, TooLow;
    LabelsAre(r, e);
    FoundInNone(f);
    var total := Count(Expecting(e), r.cases);
    if total > 0 {
      var rate := Count(Meeting(e), r.cases) as real / total as real;
      ThresholdsAre(rate, min);
      if TooLow(rate, min) {
        FoundInOne(f, RateReasons(env, suite, r, e, min)[0]);
      }
    }
    hide Found;
  }

  lemma SideFound(env: Env, suite: string, r: Run, f: Finding)
    ensures Found(f, SideReasons(env, suite, r)) <==>
            f.code == BoundaryIncomplete && OneSided(r) && IsPlain(f, Some(suite))
  {
    hide Count;
    LabelsAre(r, Deny);
    LabelsAre(r, Allow);
    FoundInNone(f);
    var denies, allows := Count(Expecting(Deny), r.cases), Count(Expecting(Allow), r.cases);
    FoundInOne(f, Incomplete(env, suite, r, "no labelled cases"));
    FoundInOne(f, Incomplete(env, suite, r, "no deny cases"));
    FoundInOne(f, Incomplete(env, suite, r, "no allow cases"));
    FoundInConcat(f, if denies == 0 then [Incomplete(env, suite, r, "no deny cases")] else [],
                  if allows == 0 then [Incomplete(env, suite, r, "no allow cases")] else []);
    hide Found;
  }

  /** What a covering run gives for one listed suite. */
  ghost predicate CoveringGives(rule: BoundaryRule, suite: string, r: Run, f: Finding) {
    match f.code
    case UnderBlocking => LowRate(r, suite, Deny, rule.minDenyRate, f)
    case OverRefusal => LowRate(r, suite, Allow, rule.minAllowRate, f)
    case BoundaryIncomplete => OneSided(r) && IsPlain(f, Some(suite))
    case _ => false
  }

  lemma CoveringFound(env: Env, rule: BoundaryRule, suite: string, r: Run, f: Finding)
    requires suite in r.covers
    ensures Found(f, RunBoundaryOf(env, rule, suite)(r)) <==> CoveringGives(rule, suite, r, f)
  {
    SideFound(env, suite, r, f);
    RateFound(env, suite, r, Deny, rule.minDenyRate, f);
    RateFound(env, suite, r, Allow, rule.minAllowRate, f);
    hide Found, SideReasons, RateReasons, LowRate, OneSided;
    var a, b, c := SideReasons(env, suite, r), RateReasons(env, suite, r, Deny, rule.minDenyRate),
      RateReasons(env, suite, r, Allow, rule.minAllowRate);
    FoundInConcat(f, a, b);
    FoundInConcat(f, a + b, c);
  }

  /** What one listed suite gives. */
  ghost predicate SuiteGives(rule: BoundaryRule, runs: seq<Run>, required: set<string>, suite: string, f: Finding) {
    if forall r :: r in runs ==> suite !in r.covers
    then f.code == BoundaryIncomplete && suite !in required && IsPlain(f, Some(suite))
    else exists r :: r in runs && suite in r.covers && CoveringGives(rule, suite, r, f)
  }

  lemma SuiteFound(env: Env, rule: BoundaryRule, runs: seq<Run>, required: set<string>, suite: string, f: Finding)
    ensures Found(f, SuiteBoundaryOf(env, rule, runs, required)(suite)) <==> SuiteGives(rule, runs, required, suite, f)
  {
    hide FlatMap, RunBoundaryOf, CoveringGives;
    var covering := Filter(CoversSuite(suite), runs);
    forall r ensures r in covering <==> r in runs && suite in r.covers {}
    if covering == [] {
      FoundInNone(f);
      FoundInOne(f, Because(env, BoundaryIncomplete, Some(suite), BoundaryUncovered(suite)));
      assert forall r :: r in runs ==> suite !in r.covers;
    } else {
      assert covering[0] in covering;
      FoundInFlatMap(f, RunBoundaryOf(env, rule, suite), covering);
      forall r | r in covering
        ensures Found(f, RunBoundaryOf(env, rule, suite)(r)) <==> CoveringGives(rule, suite, r, f)
      {
        CoveringFound(env, rule, suite, r, f);
      }
    }
    hide Found, Filter;
  }

  lemma BoundaryFound(env: Env, rule: BoundaryRule, runs: seq<Run>, required: set<string>, f: Finding)
    ensures Found(f, BoundaryReasons(env, rule, runs, required)) <==> GivesBoundary(rule, runs, required, f)
  {
    hide FlatMap, SuiteBoundaryOf, SuiteGives, Found;
    var listed := SortedStrings(set s | s in rule.suites);
    FoundInFlatMap(f, SuiteBoundaryOf(env, rule, runs, required), listed);
    forall s ensures s in listed <==> s in rule.suites {}
    forall s
      ensures Found(f, SuiteBoundaryOf(env, rule, runs, required)(s)) <==> SuiteGives(rule, runs, required, s, f)
    {
      SuiteFound(env, rule, runs, required, s, f);
    }
  }

  // ----- all evidence -----

  lemma MissingFound(env: Env, cs: seq<Run>, required: set<string>, f: Finding)
    ensures Found(f, FlatMap(MissingOf(env, cs), SortedStrings(required))) <==> GivesMissing(cs, required, f)
  {
    hide FlatMap;
    FoundInFlatMap(f, MissingOf(env, cs), SortedStrings(required));
    forall s ensures s in SortedStrings(required) <==> s in required {}
    hide SortedStrings;
    FoundInNone(f);
    forall s
      ensures Found(f, MissingOf(env, cs)(s)) <==>
              f.code == MissingSuite && (forall r :: r in cs ==> s !in r.covers) && IsPlain(f, Some(s))
    {
      FoundInOne(f, Because(env, MissingSuite, Some(s), NotCovered(s)));
    }
    hide Found;
  }

  lemma NoEvidenceFound(env: Env, release: string, cs: seq<Run>, f: Finding)
    ensures Found(f, NoEvidenceReasons(env, release, cs)) <==> GivesNoEvidence(cs, f)
  {
    FoundInNone(f);
    FoundInOne(f, Because(env, NoEvidence, None, NothingToCertify(release)));
    hide Found;
  }

  lemma FoundInSix(f: Finding, a: seq<Reason>, b: seq<Reason>, c: seq<Reason>, d: seq<Reason>, e: seq<Reason>,
                   g: seq<Reason>)
    ensures Found(f, a + b + c + d + e + g) <==>
            Found(f, a) || Found(f, b) || Found(f, c) || Found(f, d) || Found(f, e) || Found(f, g)
  {
    hide Found;
    FoundInFive(f, a, b, c, d, e);
    FoundInConcat(f, a + b + c + d + e, g);
  }

  lemma RunsFound(env: Env, rules: Rules, bs: seq<Run>, cs: seq<Run>, f: Finding)
    ensures Found(f, FlatMap(RunReasonsOf(env, rules, bs), cs)) <==> exists r :: r in cs && RunGives(rules, bs, r, f)
  {
    hide FlatMap, RunReasonsOf, RunGives, Found;
    FoundInFlatMap(f, RunReasonsOf(env, rules, bs), cs);
    forall r ensures Found(f, RunReasonsOf(env, rules, bs)(r)) <==> RunGives(rules, bs, r, f) {
      RunFound(env, rules, bs, r, f);
    }
  }

  /** The six groups of causes. */
  ghost predicate GroupsGive(input: Input, cs: seq<Run>, bs: seq<Run>, f: Finding) {
    var rules := input.policy.rules;
    GivesNoEvidence(cs, f) || GivesMissing(cs, input.requiredSuites, f)
      || (exists r :: r in cs && RunGives(rules, bs, r, f))
    || GivesNewCritical(rules, bs, cs, f) || GivesMetric(rules.metrics, cs, f)
    || (rules.boundary.Some? && GivesBoundary(rules.boundary.value, cs, input.requiredSuites, f))
  }

  lemma GroupsFound(env: Env, input: Input, cs: seq<Run>, bs: seq<Run>, f: Finding)
    requires forall r :: r in cs ==> MetricsFinite(r)
    ensures Found(f, EvidenceReasons(env, input, cs, bs)) <==> GroupsGive(input, cs, bs, f)
  {
    FoundInNone(f);
    hide Found, FlatMap, NoEvidenceReasons, NewCriticalReasons, BoundaryReasons, SortedStrings, MissingOf, RunReasonsOf,
      MetricReasonOf, NewFailuresOf, RunGives, GivesNoEvidence, GivesMissing, GivesNewCritical, GivesMetric,
        GivesBoundary,
      MetricsFinite;
    var rules := input.policy.rules;
    NoEvidenceFound(env, input.release, cs, f);
    MissingFound(env, cs, input.requiredSuites, f);
    RunsFound(env, rules, bs, cs, f);
    NewCriticalFound(env, rules, bs, cs, f);
    MetricFound(env, cs, rules.metrics, f);
    if rules.boundary.Some? {
      BoundaryFound(env, rules.boundary.value, cs, input.requiredSuites, f);
    }
    FoundInSix(f, NoEvidenceReasons(env, input.release, cs),
               FlatMap(MissingOf(env, cs), SortedStrings(input.requiredSuites)),
               FlatMap(RunReasonsOf(env, rules, bs), cs),
               NewCriticalReasons(env, rules, FlatMap(NewFailuresOf(bs), cs)),
               FlatMap(MetricReasonOf(env, cs), rules.metrics),
               if rules.boundary.None? then []
               else BoundaryReasons(env, rules.boundary.value, cs, input.requiredSuites));
  }

  /** The causes by code are the causes by group. */
  lemma GivesByCode(input: Input, cs: seq<Run>, bs: seq<Run>, f: Finding)
    ensures GroupsGive(input, cs, bs, f) <==> EvidenceGives(input, cs, bs, f)
  {
    hide IsAggregate, Violates, IsNew, IsPersisting, NewFailures, IsPlain, IsAbout, IsMeasured, Numbers, TooLow,
      TooHigh,
      LowRate, OneSided, IsBaseline, Coverage, PassRate, Ran;
    if f.code == UnderBlocking || f.code == OverRefusal {
      RatesByCode(input, cs, bs, f);
    } else if f.code == BoundaryIncomplete {
      SidesByCode(input, cs, bs, f);
    }
  }

  lemma RatesByCode(input: Input, cs: seq<Run>, bs: seq<Run>, f: Finding)
    requires f.code == UnderBlocking || f.code == OverRefusal
    ensures GroupsGive(input, cs, bs, f) <==> EvidenceGives(input, cs, bs, f)
  {
    hide IsPlain, IsAbout, IsMeasured, TooLow, OneSided, Count;
  }

  lemma SidesByCode(input: Input, cs: seq<Run>, bs: seq<Run>, f: Finding)
    requires f.code == BoundaryIncomplete
    ensures GroupsGive(input, cs, bs, f) <==> EvidenceGives(input, cs, bs, f)
  {
    hide IsPlain, IsAbout, IsMeasured, OneSided;
  }

  // ----- the whole decision -----

  lemma {:induction false} UsableFiltered(runs: seq<Run>)
    ensures Filter(HasNoIssues, runs) == UsableRuns(runs)
  {
    if runs != [] {
      UsableFiltered(runs[1..]);
      NoRunIssues(runs[0]);
      hide RunIssues, IsUsable;
    }
  }

  lemma {:induction false} UsableMember(runs: seq<Run>, r: Run)
    ensures r in UsableRuns(runs) <==> r in runs && IsUsable(r)
  {
    if runs != [] {
      hide IsUsable;
      UsableMember(runs[1..], r);
      assert runs == [runs[0]] + runs[1..];
    }
  }

  /** The usable runs of the release, in order. */
  ghost function CandidateRuns(input: Input, runs: seq<Run>): seq<Run> {
    Filter(OfRelease(input.release), UsableRuns(runs))
  }

  function OfRelease(release: string): Run -> bool {
    (r: Run) => r.release == release
  }

  lemma CandidateMember(input: Input, runs: seq<Run>, r: Run)
    ensures r in CandidateRuns(input, runs) <==> IsCandidate(input, runs, r)
  {
    hide Filter, IsUsable;
    UsableMember(runs, r);
  }

  lemma ProblemsFound(env: Env, what: string, runs: seq<Run>, f: Finding)
    ensures Found(f, FlatMap(ProblemsOf(env, what), runs)) <==>
            f.code == InvalidInput && exists r :: r in runs && !IsUsable(r) && IsPlain(f, Some(r.suite.name))
  {
    hide FlatMap, RunIssues, IsUsable, Found;
    FoundInFlatMap(f, ProblemsOf(env, what), runs);
    forall r
      ensures Found(f, ProblemsOf(env, what)(r)) <==>
              f.code == InvalidInput && !IsUsable(r) && IsPlain(f, Some(r.suite.name))
    {
      NoRunIssues(r);
      FoundInMap(f, ProblemOf(env, what, r), RunIssues(r));
      if !IsUsable(r) {
        assert RunIssues(r)[0] in RunIssues(r);
      }
    }
  }

  lemma PolicyFound(env: Env, p: Policy, f: Finding)
    ensures Found(f, Map(PolicyProblems(env), PolicyIssues(p))) <==>
            f.code == InvalidInput && !IsUsablePolicy(p) && IsPlain(f, None)
  {
    hide PolicyIssues, IsUsablePolicy, Found;
    NoPolicyIssues(p);
    FoundInMap(f, PolicyProblems(env), PolicyIssues(p));
    if !IsUsablePolicy(p) {
      assert PolicyIssues(p)[0] in PolicyIssues(p);
    }
  }

  lemma MismatchFound(env: Env, release: string, runs: seq<Run>, f: Finding)
    ensures Found(f, FlatMap(MismatchOf(env, release), runs)) <==>
            f.code == ReleaseMismatch && exists r :: r in runs && r.release != release && IsPlain(f, Some(r.suite.name))
  {
    hide FlatMap;
    FoundInFlatMap(f, MismatchOf(env, release), runs);
    FoundInNone(f);
    forall r
      ensures Found(f, MismatchOf(env, release)(r)) <==>
              f.code == ReleaseMismatch && r.release != release && IsPlain(f, Some(r.suite.name))
    {
      FoundInOne(f, Because(env, ReleaseMismatch, Some(r.suite.name), OtherRelease(r.runId, r.release, release)));
    }
    hide Found;
  }

  lemma ValidMembers(entries: seq<Entry>)
    ensures forall r :: r in Valid(entries) <==> r in Map(EntryRun, entries) && IsUsable(r)
  {
    hide Map, IsUsable;
    UsableFiltered(Map(EntryRun, entries));
    forall r ensures r in Valid(entries) <==> r in Map(EntryRun, entries) && IsUsable(r) {
      UsableMember(Map(EntryRun, entries), r);
    }
  }

  lemma InputFound(env: Env, input: Input, runs: seq<Entry>, baselineRuns: seq<Entry>, f: Finding)
    ensures Found(f, InputReasons(env, input, runs, baselineRuns)) <==>
            InputGives(input, Map(EntryRun, runs), Map(EntryRun, baselineRuns), f)
  {
    var rs, bs := Map(EntryRun, runs), Map(EntryRun, baselineRuns);
    ValidMembers(runs);
    PolicyFound(env, input.policy, f);
    ProblemsFound(env, "run", rs, f);
    ProblemsFound(env, "baseline run", bs, f);
    MismatchFound(env, input.release, Valid(runs), f);
    hide Found, FlatMap, Map, Valid, IsUsable, IsUsablePolicy, IsPlain, PolicyIssues;
    hide PolicyProblems, ProblemsOf, MismatchOf;
    var a, b, c, d := Map(PolicyProblems(env), PolicyIssues(input.policy)), FlatMap(ProblemsOf(env, "run"), rs),
      FlatMap(ProblemsOf(env, "baseline run"), bs), FlatMap(MismatchOf(env, input.release), Valid(runs));
    FoundInConcat(f, a, b);
    FoundInConcat(f, a + b, c);
    FoundInConcat(f, a + b + c, d);
  }

  lemma FoundSorted(f: Finding, reasons: seq<Reason>)
    ensures Found(f, SortBy(ReasonOrder(), reasons)) <==> Found(f, reasons)
  {
    hide SortBy, ReasonOrder;
    SortPermutes(ReasonOrder(), reasons);
    forall y ensures y in SortBy(ReasonOrder(), reasons) <==> y in reasons {
      assert y in multiset(SortBy(ReasonOrder(), reasons)) <==> y in multiset(reasons);
    }
  }

  lemma CandidatesAre(input: Input, entries: seq<Entry>)
    ensures Candidates(input.release, entries) == CandidateRuns(input, Map(EntryRun, entries))
    ensures Valid(entries) == UsableRuns(Map(EntryRun, entries))
    ensures forall r :: r in Candidates(input.release, entries) ==> MetricsFinite(r)
  {
    UsableFiltered(Map(EntryRun, entries));
    FilterSame(IsBound(input.release), OfRelease(input.release), UsableRuns(Map(EntryRun, entries)));
    forall r | r in Candidates(input.release, entries) ensures MetricsFinite(r) {
      CandidateMember(input, Map(EntryRun, entries), r);
      assert IsUsable(r);
    }
  }

  /** A decision reports a finding exactly when the contract gives cause for it. */
  lemma ReportsExactly(env: Env, input: Input, f: Finding)
    ensures var runs, baselines := Map(EntryRun, Indexed(env, input.runs)),
              Map(EntryRun, Indexed(env, input.baselineRuns));
            Found(f, Decided(env, input).reasons) <==>
            InputGives(input, runs, baselines, f)
            || EvidenceGives(input, CandidateRuns(input, runs), UsableRuns(baselines), f)
  {
    hide Found, Map, Indexed, InputReasons, EvidenceReasons, InputGives, EvidenceGives, GroupsGive, CandidateRuns,
      UsableRuns,
      Valid, Candidates, SortBy, SortedStrings, ReasonOrder, MetricsFinite;
    var runs, baselineRuns := Indexed(env, input.runs), Indexed(env, input.baselineRuns);
    FoundSorted(f, AllReasons(env, input, runs, baselineRuns));
    InputFound(env, input, runs, baselineRuns, f);
    CandidatesAre(input, runs);
    CandidatesAre(input, baselineRuns);
    var cs, bs := Candidates(input.release, runs), Valid(baselineRuns);
    GroupsFound(env, input, cs, bs, f);
    GivesByCode(input, cs, bs, f);
    FoundInConcat(f, InputReasons(env, input, runs, baselineRuns), EvidenceReasons(env, input, cs, bs));
  }
}
