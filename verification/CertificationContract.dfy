/** What certification promises: the declarative contract, the effect of more
    evidence, and the meaning of the aggregates. */
module CertificationContract {
  import opened Ordering
  import opened Text
  import opened Lists
  import opened CertificationModel
  import opened Certification
  import opened CertificationOrder
  import opened CertificationTerms
  import opened CertificationAggregates
  import opened CertificationMeaning

  // ----- the contract -----

  /** At least the fraction `min` of `whole` items. */
  predicate Reaches(part: int, whole: int, min: Float)
    requires min.Finite?
  {
    part as real >= min.x * whole as real
  }

  ghost predicate RunMeets(rules: Rules, baselines: seq<Run>, r: Run)
    requires rules.minCoverage.Finite? && (rules.minPassRate.Some? ==> rules.minPassRate.value.Finite?)
    requires rules.maxPassRateRegression.Some? ==> rules.maxPassRateRegression.value.Finite?
  {
    && Ran(r) > 0
    && Reaches(Ran(r), |r.cases|, rules.minCoverage)
    && (rules.minPassRate.Some? ==> Reaches(Count(With(Pass), r.cases), Ran(r), rules.minPassRate.value))
    && (rules.maxPassRateRegression.Some? ==>
          forall b :: IsBaseline(baselines, r.suite.name, b) ==>
            PassRate(b) - PassRate(r) <= rules.maxPassRateRegression.value.x)
    && (rules.blockPersistingCriticalFailures ==> forall c :: c in r.cases ==> !IsPersisting(baselines, r, c))
  }

  /** Labelled cases on both sides, and enough of each passed. */
  ghost predicate BoundaryMeets(rule: BoundaryRule, r: Run)
    requires rule.minDenyRate.Finite? && rule.minAllowRate.Finite?
  {
    && Count(Expecting(Deny), r.cases) > 0 && Count(Expecting(Allow), r.cases) > 0
    && Reaches(Count(Meeting(Deny), r.cases), Count(Expecting(Deny), r.cases), rule.minDenyRate)
    && Reaches(Count(Meeting(Allow), r.cases), Count(Expecting(Allow), r.cases), rule.minAllowRate)
  }

  /** The aggregate of the rule's numbers, if there are any, is on the right side. */
  ghost predicate MetricMeets(rule: MetricRule, runs: seq<Run>)
    requires rule.value.Finite?
  {
    forall x :: IsAggregate(rule.aggregate, Numbers(rule, runs), x) ==>
      if rule.op == Lte then x <= rule.value.x else x >= rule.value.x
  }

  ghost predicate SuiteCovered(runs: seq<Run>, suite: string) {
    exists r :: r in runs && suite in r.covers
  }

  ghost predicate EvidenceMeets(input: Input, runs: seq<Run>, baselines: seq<Run>)
    requires IsUsablePolicy(input.policy)
  {
    var rules := input.policy.rules;
    && runs != []
    && (forall s :: s in input.requiredSuites ==> SuiteCovered(runs, s))
    && (forall r :: r in runs ==> RunMeets(rules, baselines, r))
    && NewFailures(baselines, runs) <= rules.maxNewCriticalFailures
    && (forall m :: m in rules.metrics ==> MetricMeets(m, runs))
    && (rules.boundary.Some? ==>
          var rule := rules.boundary.value;
          forall s :: s in rule.suites ==>
            SuiteCovered(runs, s) && forall r :: r in runs && s in r.covers ==> BoundaryMeets(rule, r))
  }

  /** Everything is well formed, every run is of the release, and the evidence
      meets the policy. */
  ghost predicate Contract(input: Input, runs: seq<Run>, baselines: seq<Run>) {
    && IsUsablePolicy(input.policy)
    && (forall r :: r in runs ==> IsUsable(r) && r.release == input.release)
    && (forall r :: r in baselines ==> IsUsable(r))
    && EvidenceMeets(input, runs, baselines)
  }

  /** The indexed runs are the canonical copies of the input, each a rearrangement. */
  lemma IndexedRearranges(env: Env, runs: seq<Run>)
    ensures multiset(Map(EntryRun, Indexed(env, runs))) == multiset(Map(Canonical, runs))
    ensures forall r :: r in runs ==> Rearranged(r, Canonical(r))
  {
    hide Canonical, SortBy, EntryOrder;
    SortPermutes(EntryOrder(), Map(EntryOf(env), runs));
    MapMonotone(EntryRun, Indexed(env, runs), Map(EntryOf(env), runs));
    MapMonotone(EntryRun, Map(EntryOf(env), runs), Indexed(env, runs));
    assert Map(EntryRun, Map(EntryOf(env), runs)) == Map(Canonical, runs);
    forall r | r in runs ensures Rearranged(r, Canonical(r)) {
      CanonicalRearranges(r);
    }
  }

  // ----- which reasons appear -----

  lemma RateReached(part: int, whole: int, min: Float)
    requires whole > 0 && min.Finite?
    ensures TooLow(part as real / whole as real, min) <==> !Reaches(part, whole, min)
  {
    var q, w := part as real / whole as real, whole as real;
    assert q * w == part as real;
    if q >= min.x {
      assert q * w >= min.x * w;
    } else {
      assert q * w < min.x * w;
    }
  }

  lemma RunClean(env: Env, rules: Rules, baselines: seq<Run>, r: Run)
    requires rules.minCoverage.Finite? && (rules.minPassRate.Some? ==> rules.minPassRate.value.Finite?)
    requires rules.maxPassRateRegression.Some? ==> rules.maxPassRateRegression.value.Finite?
    ensures RunReasonsOf(env, rules, baselines)(r) == [] <==> RunMeets(rules, baselines, r)
  {
    hide Count, Summarize, Reaches, Persists, FlatMap, BaselineFor, IsPersisting, IsBaseline;
    SummaryIs(r);
    PassedRan(r);
    var baseline := BaselineFor(baselines, r.suite.name);
    FlatMapEmpty(PersistingOf(env, rules, baseline, r), r.cases);
    RatesClean(env, rules, r);
    NoPersisting(env, rules, baselines, r);
    RegressionClean(env, rules, baselines, r);
    hide NoCasesReasons, CoverageReasons, PassRateReasons, RegressionReasons, PersistingOf;
  }

  lemma RatesClean(env: Env, rules: Rules, r: Run)
    requires rules.minCoverage.Finite? && (rules.minPassRate.Some? ==> rules.minPassRate.value.Finite?)
    ensures NoCasesReasons(env, r) == [] <==> Ran(r) > 0
    ensures Ran(r) > 0 ==>
              && (CoverageReasons(env, rules, r) == [] <==> Reaches(Ran(r), |r.cases|, rules.minCoverage))
              && (PassRateReasons(env, rules, r) == [] <==>
                  (rules.minPassRate.Some? ==> Reaches(Count(With(Pass), r.cases), Ran(r), rules.minPassRate.value)))
  {
    hide Count, Summarize, Reaches, AtLeast, TooLow;
    SummaryIs(r);
    PassedRan(r);
    ThresholdsAre(Coverage(r), rules.minCoverage);
    if Ran(r) > 0 {
      RateReached(Ran(r), |r.cases|, rules.minCoverage);
      if rules.minPassRate.Some? {
        ThresholdsAre(PassRate(r), rules.minPassRate.value);
        RateReached(Count(With(Pass), r.cases), Ran(r), rules.minPassRate.value);
      }
    }
  }

  lemma NoPersisting(env: Env, rules: Rules, baselines: seq<Run>, r: Run)
    ensures (forall c :: c in r.cases ==>
            PersistingOf(env, rules, BaselineFor(baselines, r.suite.name), r)(c) == []) <==>
            (rules.blockPersistingCriticalFailures ==> forall c :: c in r.cases ==> !IsPersisting(baselines, r, c))
  {
    hide Persists, BaselineFor, FailedBefore;
    forall c | c in r.cases
      ensures PersistingOf(env, rules, BaselineFor(baselines, r.suite.name), r)(c) == [] <==>
              !(rules.blockPersistingCriticalFailures && IsPersisting(baselines, r, c))
    {
      FailedBeforeIs(baselines, r, c.id);
    }
  }

  lemma RegressionClean(env: Env, rules: Rules, baselines: seq<Run>, r: Run)
    requires rules.maxPassRateRegression.Some? ==> rules.maxPassRateRegression.value.Finite?
    ensures RegressionReasons(env, rules, BaselineFor(baselines, r.suite.name), r) == [] <==>
            (rules.maxPassRateRegression.Some? ==>
               forall b :: IsBaseline(baselines, r.suite.name, b) ==>
                 PassRate(b) - PassRate(r) <= rules.maxPassRateRegression.value.x)
  {
    hide RegressionReasons, BaselineFor, IsBaseline, PassRate;
    forall b ensures BaselineFor(baselines, r.suite.name) == Some(b) <==> IsBaseline(baselines, r.suite.name, b) {
      BaselineIs(baselines, r.suite.name, b);
    }
    RegressionAgainst(env, rules, BaselineFor(baselines, r.suite.name), r);
  }

  lemma RegressionAgainst(env: Env, rules: Rules, baseline: Option<Run>, r: Run)
    requires rules.maxPassRateRegression.Some? ==> rules.maxPassRateRegression.value.Finite?
    ensures RegressionReasons(env, rules, baseline, r) == [] <==>
            (rules.maxPassRateRegression.Some? && baseline.Some? ==>
               PassRate(baseline.value) - PassRate(r) <= rules.maxPassRateRegression.value.x)
  {
    hide Summarize, PassRate, Coverage, Ran, Count, Because, Measured;
    SummaryIs(r);
    if baseline.Some? {
      SummaryIs(baseline.value);
    }
  }

  lemma RateClean(env: Env, suite: string, r: Run, want: Expect, min: Float)
    requires min.Finite? && Count(Expecting(want), r.cases) > 0
    ensures RateReasons(env, suite, r, want, min) == [] <==>
            Reaches(Count(Meeting(want), r.cases), Count(Expecting(want), r.cases), min)
  {
    hide Count, AtLeast, Reaches, TooLow;
    LabelsAre(r, want);
    var part, whole := Count(Meeting(want), r.cases), Count(Expecting(want), r.cases);
    RateReached(part, whole, min);
    ThresholdsAre(part as real / whole as real, min);
  }

  lemma RunBoundaryClean(env: Env, rule: BoundaryRule, suite: string, r: Run)
    requires rule.minDenyRate.Finite? && rule.minAllowRate.Finite?
    ensures RunBoundaryOf(env, rule, suite)(r) == [] <==> BoundaryMeets(rule, r)
  {
    hide Count, RateReasons, Reaches;
    LabelsAre(r, Deny);
    LabelsAre(r, Allow);
    var denies, allows := Count(Expecting(Deny), r.cases), Count(Expecting(Allow), r.cases);
    assert SideReasons(env, suite, r) == [] <==> denies > 0 && allows > 0;
    if denies > 0 && allows > 0 {
      RateClean(env, suite, r, Deny, rule.minDenyRate);
      RateClean(env, suite, r, Allow, rule.minAllowRate);
    }
  }

  lemma SuiteBoundaryClean(env: Env, rule: BoundaryRule, runs: seq<Run>, required: set<string>, suite: string)
    requires rule.minDenyRate.Finite? && rule.minAllowRate.Finite?
    ensures SuiteBoundaryOf(env, rule, runs, required)(suite) == [] <==>
            (suite in required || SuiteCovered(runs, suite)) && forall r :: r in runs && suite in r.covers ==>
              BoundaryMeets(rule, r)
  {
    hide BoundaryMeets, FlatMap, RunBoundaryOf;
    var covering := Filter(CoversSuite(suite), runs);
    FlatMapEmpty(RunBoundaryOf(env, rule, suite), covering);
    forall r | r in runs ensures r in covering <==> suite in r.covers {}
    forall r ensures RunBoundaryOf(env, rule, suite)(r) == [] <==> BoundaryMeets(rule, r) {
      RunBoundaryClean(env, rule, suite, r);
    }
    if covering == [] {
      assert !SuiteCovered(runs, suite);
    } else {
      assert covering[0] in runs;
    }
  }

  lemma BoundaryClean(env: Env, rule: BoundaryRule, runs: seq<Run>, required: set<string>)
    requires IsUsableBoundary(rule) && forall s :: s in required ==> SuiteCovered(runs, s)
    ensures BoundaryReasons(env, rule, runs, required) == [] <==>
            forall s :: s in rule.suites ==>
              SuiteCovered(runs, s) && forall r :: r in runs && s in r.covers ==> BoundaryMeets(rule, r)
  {
    hide BoundaryMeets, FlatMap, SuiteBoundaryOf, SuiteCovered, SortedStrings;
    var listed := SortedStrings(set s | s in rule.suites);
    FlatMapEmpty(SuiteBoundaryOf(env, rule, runs, required), listed);
    forall s ensures s in listed <==> s in rule.suites {}
    forall s
      ensures SuiteBoundaryOf(env, rule, runs, required)(s) == [] <==>
              (s in required || SuiteCovered(runs, s)) && forall r :: r in runs && s in r.covers ==>
                BoundaryMeets(rule, r)
    {
      SuiteBoundaryClean(env, rule, runs, required, s);
    }
  }

  lemma MissingClean(env: Env, candidates: seq<Run>, required: set<string>)
    ensures FlatMap(MissingOf(env, candidates), SortedStrings(required)) == [] <==>
            forall s :: s in required ==> SuiteCovered(candidates, s)
  {
    hide FlatMap;
    FlatMapEmpty(MissingOf(env, candidates), SortedStrings(required));
    forall s ensures s in SortedStrings(required) <==> s in required {}
  }

  lemma MetricsClean(env: Env, runs: seq<Run>, rules: seq<MetricRule>)
    requires forall r :: r in runs ==> MetricsFinite(r)
    requires forall m :: m in rules ==> m.value.Finite?
    ensures FlatMap(MetricReasonOf(env, runs), rules) == [] <==> forall m :: m in rules ==> MetricMeets(m, runs)
  {
    hide FlatMap, MetricReasonOf, IsAggregate, Numbers, MetricsFinite;
    FlatMapEmpty(MetricReasonOf(env, runs), rules);
    forall m | m in rules ensures MetricReasonOf(env, runs)(m) == [] <==> MetricMeets(m, runs) {
      MetricJudged(env, runs, m);
      forall x ensures Violates(m, x) <==> !(if m.op == Lte then x <= m.value.x else x >= m.value.x) {}
    }
  }

  lemma RunsClean(env: Env, policy: Policy, baselines: seq<Run>, runs: seq<Run>)
    requires IsUsablePolicy(policy)
    ensures FlatMap(RunReasonsOf(env, policy.rules, baselines), runs) == [] <==>
            forall r :: r in runs ==> RunMeets(policy.rules, baselines, r)
  {
    hide FlatMap, RunReasonsOf, RunMeets;
    FlatMapEmpty(RunReasonsOf(env, policy.rules, baselines), runs);
    forall r ensures RunReasonsOf(env, policy.rules, baselines)(r) == [] <==> RunMeets(policy.rules, baselines, r) {
      RunClean(env, policy.rules, baselines, r);
    }
  }

  lemma EvidenceClean(env: Env, input: Input, runs: seq<Run>, baselines: seq<Run>)
    requires IsUsablePolicy(input.policy) && forall r :: r in runs ==> MetricsFinite(r)
    ensures EvidenceReasons(env, input, runs, baselines) == [] <==> EvidenceMeets(input, runs, baselines)
  {
    hide *;
    var rules := input.policy.rules;
    MissingClean(env, runs, input.requiredSuites);
    RunsClean(env, input.policy, baselines, runs);
    RulesFinite(input.policy);
    MetricsClean(env, runs, rules.metrics);
    NewFailuresAre(baselines, runs);
    FailuresClean(env, rules, FlatMap(NewFailuresOf(baselines), runs));
    EvidenceParts(env, input, runs, baselines);
    EvidenceMeetsParts(input, runs, baselines);
    if rules.boundary.Some? && forall s :: s in input.requiredSuites ==> SuiteCovered(runs, s) {
      UsableBoundary(input.policy);
      BoundaryClean(env, rules.boundary.value, runs, input.requiredSuites);
    }
  }

  lemma RulesFinite(p: Policy)
    requires IsUsablePolicy(p)
    ensures forall m :: m in p.rules.metrics ==> m.value.Finite?
  {
  }

  lemma UsableBoundary(p: Policy)
    requires IsUsablePolicy(p) && p.rules.boundary.Some?
    ensures IsUsableBoundary(p.rules.boundary.value)
  {
  }

  lemma SixEmpty<T>(a: seq<T>, b: seq<T>, c: seq<T>, d: seq<T>, e: seq<T>, f: seq<T>)
    ensures a + b + c + d + e + f == [] <==> a == [] && b == [] && c == [] && d == [] && e == [] && f == []
  {
    assert |a + b + c + d + e + f| == |a| + |b| + |c| + |d| + |e| + |f|;
  }

  lemma EvidenceParts(env: Env, input: Input, runs: seq<Run>, baselines: seq<Run>)
    ensures var rules := input.policy.rules;
            EvidenceReasons(env, input, runs, baselines) == [] <==>
            && runs != []
            && FlatMap(MissingOf(env, runs), SortedStrings(input.requiredSuites)) == []
            && FlatMap(RunReasonsOf(env, rules, baselines), runs) == []
            && NewCriticalReasons(env, rules, FlatMap(NewFailuresOf(baselines), runs)) == []
            && FlatMap(MetricReasonOf(env, runs), rules.metrics) == []
            && (rules.boundary.Some? ==> BoundaryReasons(env, rules.boundary.value, runs, input.requiredSuites) == [])
  {
    hide FlatMap, NewCriticalReasons, BoundaryReasons, SortedStrings;
    var rules := input.policy.rules;
    SixEmpty(NoEvidenceReasons(env, input.release, runs),
             FlatMap(MissingOf(env, runs), SortedStrings(input.requiredSuites)),
             FlatMap(RunReasonsOf(env, rules, baselines), runs),
             NewCriticalReasons(env, rules, FlatMap(NewFailuresOf(baselines), runs)),
             FlatMap(MetricReasonOf(env, runs), rules.metrics),
             if rules.boundary.Some? then BoundaryReasons(env, rules.boundary.value, runs, input.requiredSuites)
               else []);
  }

  lemma EvidenceMeetsParts(input: Input, runs: seq<Run>, baselines: seq<Run>)
    requires IsUsablePolicy(input.policy)
    ensures var rules := input.policy.rules;
            EvidenceMeets(input, runs, baselines) <==>
            && runs != []
            && (forall s :: s in input.requiredSuites ==> SuiteCovered(runs, s))
            && (forall r :: r in runs ==> RunMeets(rules, baselines, r))
            && NewFailures(baselines, runs) <= rules.maxNewCriticalFailures
            && (forall m :: m in rules.metrics ==> MetricMeets(m, runs))
            && (rules.boundary.Some? ==>
                  forall s :: s in rules.boundary.value.suites ==>
                    SuiteCovered(runs, s) && forall r :: r in runs && s in r.covers ==>
                      BoundaryMeets(rules.boundary.value, r))
  {
    hide SuiteCovered, RunMeets, MetricMeets, BoundaryMeets, NewFailures, HasText;
  }

  lemma FailuresClean(env: Env, rules: Rules, failures: seq<Failure>)
    ensures NewCriticalReasons(env, rules, failures) == [] <==> |failures| <= rules.maxNewCriticalFailures
  {
  }

  lemma ProblemsClean(env: Env, what: string, runs: seq<Run>)
    ensures FlatMap(ProblemsOf(env, what), runs) == [] <==> forall r :: r in runs ==> IsUsable(r)
  {
    hide FlatMap, RunIssues, IsUsable;
    FlatMapEmpty(ProblemsOf(env, what), runs);
    forall r ensures ProblemsOf(env, what)(r) == [] <==> IsUsable(r) {
      NoRunIssues(r);
    }
  }

  lemma AllValid(entries: seq<Entry>)
    requires forall r :: r in Map(EntryRun, entries) ==> IsUsable(r)
    ensures Valid(entries) == Map(EntryRun, entries)
  {
    hide RunIssues, IsUsable, Filter;
    forall r | r in Map(EntryRun, entries) ensures HasNoIssues(r) {
      NoRunIssues(r);
    }
    FilterAll(HasNoIssues, Map(EntryRun, entries));
  }

  lemma MismatchClean(env: Env, release: string, runs: seq<Run>)
    ensures FlatMap(MismatchOf(env, release), runs) == [] <==> forall r :: r in runs ==> r.release == release
  {
    hide FlatMap;
    FlatMapEmpty(MismatchOf(env, release), runs);
    forall r ensures MismatchOf(env, release)(r) == [] <==> r.release == release {}
  }

  lemma InputClean(env: Env, input: Input, runs: seq<Entry>, baselineRuns: seq<Entry>)
    ensures InputReasons(env, input, runs, baselineRuns) == [] <==>
            && IsUsablePolicy(input.policy)
            && (forall r :: r in Map(EntryRun, runs) ==> IsUsable(r) && r.release == input.release)
            && (forall r :: r in Map(EntryRun, baselineRuns) ==> IsUsable(r))
  {
    hide IsUsable, IsUsablePolicy, FlatMap, Map, Valid, PolicyIssues;
    NoPolicyIssues(input.policy);
    ProblemsClean(env, "run", Map(EntryRun, runs));
    ProblemsClean(env, "baseline run", Map(EntryRun, baselineRuns));
    MismatchClean(env, input.release, Valid(runs));
    if forall r :: r in Map(EntryRun, runs) ==> IsUsable(r) {
      AllValid(runs);
    }
  }

  lemma AllBound(release: string, entries: seq<Entry>)
    requires forall r :: r in Map(EntryRun, entries) ==> IsUsable(r) && r.release == release
    ensures Candidates(release, entries) == Valid(entries) == Map(EntryRun, entries)
  {
    hide IsUsable, Filter, Map;
    AllValid(entries);
    FilterAll(IsBound(release), Map(EntryRun, entries));
  }

  lemma UsableFinite(r: Run)
    requires IsUsable(r)
    ensures MetricsFinite(r)
  {
    hide HasText, HasHead;
  }

  /** A release is certified exactly when the contract holds of the indexed runs. */
  lemma CertifiedExactly(env: Env, input: Input)
    ensures Decided(env, input).outcome == Certified <==>
            Contract(input, Map(EntryRun, Indexed(env, input.runs)), Map(EntryRun, Indexed(env, input.baselineRuns)))
  {
    hide Map, Indexed, InputReasons, EvidenceReasons, EvidenceMeets, IsUsable, IsUsablePolicy, Valid, Candidates,
      SortBy,
      SortedStrings;
    var runs, baselineRuns := Indexed(env, input.runs), Indexed(env, input.baselineRuns);
    SortPermutes(ReasonOrder(), AllReasons(env, input, runs, baselineRuns));
    InputClean(env, input, runs, baselineRuns);
    if InputReasons(env, input, runs, baselineRuns) == [] {
      AllBound(input.release, runs);
      AllValid(baselineRuns);
      forall r | r in Map(EntryRun, runs) ensures MetricsFinite(r) {
        UsableFinite(r);
      }
      EvidenceClean(env, input, Map(EntryRun, runs), Map(EntryRun, baselineRuns));
    }
  }

  // ----- more evidence -----

  /** Reasons found on single runs. */
  predicate IsPerRun(code: ReasonCode) {
    code != NoEvidence && code != MissingSuite && code != MetricThreshold && code != BoundaryIncomplete
  }

  lemma {:induction false} FlatMapCounts<T, U>(f: T -> seq<U>, g: T -> seq<U>, s: seq<T>, y: U)
    requires forall x :: x in s ==> multiset(f(x))[y] <= multiset(g(x))[y]
    ensures multiset(FlatMap(f, s))[y] <= multiset(FlatMap(g, s))[y]
  {
    if s != [] {
      FlatMapCounts(f, g, s[1..], y);
      assert multiset(f(s[0]))[y] <= multiset(g(s[0]))[y];
    }
  }

  lemma IndexedMonotone(env: Env, a: seq<Run>, b: seq<Run>)
    requires multiset(a) <= multiset(b)
    ensures multiset(Indexed(env, a)) <= multiset(Indexed(env, b))
  {
    hide SortBy, Map, EntryOf, EntryOrder;
    MapMonotone(EntryOf(env), a, b);
    SortPermutes(EntryOrder(), Map(EntryOf(env), a));
    SortPermutes(EntryOrder(), Map(EntryOf(env), b));
  }

  lemma ValidMonotone(release: string, a: seq<Entry>, b: seq<Entry>)
    requires multiset(a) <= multiset(b)
    ensures multiset(Map(EntryRun, a)) <= multiset(Map(EntryRun, b))
    ensures multiset(Valid(a)) <= multiset(Valid(b))
            && multiset(Candidates(release, a)) <= multiset(Candidates(release, b))
  {
    hide Map, Filter;
    MapMonotone(EntryRun, a, b);
    FilterMonotone(HasNoIssues, Map(EntryRun, a), Map(EntryRun, b));
    FilterMonotone(IsBound(release), Valid(a), Valid(b));
  }

  lemma NoneInFlatMap<T, U>(f: T -> seq<U>, s: seq<T>, y: U)
    requires forall x :: x in s ==> y !in f(x)
    ensures multiset(FlatMap(f, s))[y] == 0
  {
    FlatMapMember(f, s, y);
    assert y !in multiset(FlatMap(f, s));
  }

  lemma NewCriticalMonotone(env: Env, rules: Rules, a: seq<Failure>, b: seq<Failure>)
    requires multiset(a) <= multiset(b)
    ensures multiset(NewCriticalReasons(env, rules, a)) <= multiset(NewCriticalReasons(env, rules, b))
  {
    hide Map, NewCriticalOf;
    MapMonotone(NewCriticalOf(env), a, b);
    SizeMonotone(a, b);
  }

  lemma SuiteBoundaryMonotone(env: Env, rule: BoundaryRule, a: seq<Run>, b: seq<Run>, required: set<string>,
                              suite: string, y: Reason)
    requires multiset(a) <= multiset(b) && y.code != BoundaryIncomplete
    ensures multiset(SuiteBoundaryOf(env, rule, a, required)(suite))[y]
            <= multiset(SuiteBoundaryOf(env, rule, b, required)(suite))[y]
  {
    hide Filter, FlatMap, RunBoundaryOf;
    var covering, more := Filter(CoversSuite(suite), a), Filter(CoversSuite(suite), b);
    FilterMonotone(CoversSuite(suite), a, b);
    SizeMonotone(covering, more);
    FlatMapMonotone(RunBoundaryOf(env, rule, suite), covering, more);
    if covering == [] {
      assert y !in SuiteBoundaryOf(env, rule, a, required)(suite);
      assert y !in multiset(SuiteBoundaryOf(env, rule, a, required)(suite));
    }
  }

  lemma BoundaryMonotone(env: Env, rule: BoundaryRule, a: seq<Run>, b: seq<Run>, required: set<string>, y: Reason)
    requires multiset(a) <= multiset(b) && y.code != BoundaryIncomplete
    ensures multiset(BoundaryReasons(env, rule, a, required))[y] <= multiset(BoundaryReasons(env, rule, b, required))[y]
  {
    hide FlatMap, SuiteBoundaryOf, SortedStrings;
    var listed := SortedStrings(set s | s in rule.suites);
    forall s | s in listed
      ensures multiset(SuiteBoundaryOf(env, rule, a, required)(s))[y]
              <= multiset(SuiteBoundaryOf(env, rule, b, required)(s))[y]
    {
      SuiteBoundaryMonotone(env, rule, a, b, required, s, y);
    }
    FlatMapCounts(SuiteBoundaryOf(env, rule, a, required), SuiteBoundaryOf(env, rule, b, required), listed, y);
  }

  lemma MetricsSilent(env: Env, runs: seq<Run>, rules: seq<MetricRule>, required: set<string>, y: Reason)
    requires y.code != MetricThreshold && y.code != MissingSuite
    ensures multiset(FlatMap(MetricReasonOf(env, runs), rules))[y] == 0
    ensures multiset(FlatMap(MissingOf(env, runs), SortedStrings(required)))[y] == 0
  {
    hide FlatMap, Aggregated, MetricValues, Holds, SortedStrings, Covered;
    NoneInFlatMap(MetricReasonOf(env, runs), rules, y);
    NoneInFlatMap(MissingOf(env, runs), SortedStrings(required), y);
  }

  lemma EvidenceMonotone(env: Env, input: Input, a: seq<Run>, b: seq<Run>, baselines: seq<Run>, y: Reason)
    requires multiset(a) <= multiset(b) && IsPerRun(y.code)
    ensures multiset(EvidenceReasons(env, input, a, baselines))[y]
            <= multiset(EvidenceReasons(env, input, b, baselines))[y]
  {
    hide FlatMap, BoundaryReasons, NewCriticalReasons, SortedStrings;
    var rules := input.policy.rules;
    MetricsSilent(env, a, rules.metrics, input.requiredSuites, y);
    MetricsSilent(env, b, rules.metrics, input.requiredSuites, y);
    FlatMapMonotone(RunReasonsOf(env, rules, baselines), a, b);
    FlatMapMonotone(NewFailuresOf(baselines), a, b);
    NewCriticalMonotone(env, rules, FlatMap(NewFailuresOf(baselines), a), FlatMap(NewFailuresOf(baselines), b));
    if rules.boundary.Some? {
      BoundaryMonotone(env, rules.boundary.value, a, b, input.requiredSuites, y);
    }
    assert y !in multiset(NoEvidenceReasons(env, input.release, a));
  }

  lemma InputMonotone(env: Env, a: Input, b: Input, runs: seq<Entry>, more: seq<Entry>, baselineRuns: seq<Entry>)
    requires a.release == b.release && a.policy == b.policy && multiset(runs) <= multiset(more)
    ensures multiset(InputReasons(env, a, runs, baselineRuns)) <= multiset(InputReasons(env, b, more, baselineRuns))
  {
    hide FlatMap, Map, Valid, PolicyIssues, Candidates;
    ValidMonotone(a.release, runs, more);
    FlatMapMonotone(ProblemsOf(env, "run"), Map(EntryRun, runs), Map(EntryRun, more));
    FlatMapMonotone(MismatchOf(env, a.release), Valid(runs), Valid(more));
  }

  /** Adding candidate runs never removes a reason found on a single run, however
      often it is reported. */
  lemma MoreRunsKeepReasons(env: Env, a: Input, b: Input, y: Reason)
    requires b == a.(runs := b.runs) && multiset(a.runs) <= multiset(b.runs) && IsPerRun(y.code)
    ensures multiset(Decided(env, a).reasons)[y] <= multiset(Decided(env, b).reasons)[y]
  {
    hide Map, Indexed, InputReasons, EvidenceReasons, Valid, Candidates, SortBy, SortedStrings, ReasonOrder;
    var runs, more, baselineRuns := Indexed(env, a.runs), Indexed(env, b.runs), Indexed(env, a.baselineRuns);
    IndexedMonotone(env, a.runs, b.runs);
    ValidMonotone(a.release, runs, more);
    InputMonotone(env, a, b, runs, more, baselineRuns);
    SameEvidence(env, a, b, Candidates(a.release, more), Valid(baselineRuns));
    EvidenceMonotone(env, a, Candidates(a.release, runs), Candidates(a.release, more), Valid(baselineRuns), y);
    SortPermutes(ReasonOrder(), AllReasons(env, a, runs, baselineRuns));
    SortPermutes(ReasonOrder(), AllReasons(env, b, more, baselineRuns));
  }

  lemma SameEvidence(env: Env, a: Input, b: Input, runs: seq<Run>, baselines: seq<Run>)
    requires a.release == b.release && a.requiredSuites == b.requiredSuites && a.policy == b.policy
    ensures EvidenceReasons(env, a, runs, baselines) == EvidenceReasons(env, b, runs, baselines)
  {
    hide FlatMap, BoundaryReasons, NewCriticalReasons, SortedStrings;
  }
}
