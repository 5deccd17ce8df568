/** The implementation of the certification decision: loops that push reasons
    onto one list, which is sorted at the end. */
module Decide {
  import opened Ordering
  import opened Text
  import opened Lists
  import opened CertificationModel
  import opened Certification

  /** The growing vector of reasons. */
  class ReasonList {
    var items: seq<Reason>

    constructor ()
      ensures items == []
    {
      items := [];
    }

    method Push(r: Reason)
      modifies this
      ensures items == old(items) + [r]
    {
      items := items + [r];
    }

    method Append(rs: seq<Reason>)
      modifies this
      ensures items == old(items) + rs
    {
      items := items + rs;
    }

    method Sort()
      modifies this
      ensures items == SortBy(ReasonOrder(), old(items))
    {
      items := SortBy(ReasonOrder(), items);
    }
  }

  lemma MapNext<T, U>(f: T -> U, s: seq<T>, i: nat)
    requires i < |s|
    ensures Map(f, s[..i + 1]) == Map(f, s[..i]) + [f(s[i])]
  {
    assert s[..i + 1] == s[..i] + [s[i]];
    MapConcat(f, s[..i], [s[i]]);
    assert Map(f, [s[i]]) == [f(s[i])];
  }

  // ----- checks 1 and 2 -----

  /** The usable runs; each problem of the others becomes a reason. */
  method ValidRuns(env: Env, entries: seq<Entry>, what: string, reasons: ReasonList) returns (valid: seq<Run>)
    modifies reasons
    ensures valid == Valid(entries)
    ensures reasons.items == old(reasons.items) + FlatMap(ProblemsOf(env, what), Map(EntryRun, entries))
  {
    hide *;
    var runs := Map(EntryRun, entries);
    ghost var before := reasons.items;
    Nothing(ProblemsOf(env, what), HasNoIssues, runs);
    valid := [];
    for i := 0 to |runs|
      invariant valid == Filter(HasNoIssues, runs[..i])
      invariant reasons.items == before + FlatMap(ProblemsOf(env, what), runs[..i])
    {
      var issues := ValidateRun(runs[i]);
      FilterNext(HasNoIssues, runs, i);
      FlatMapNext(ProblemsOf(env, what), runs, i);
      ProblemsOfRun(env, what, runs[i]);
      if issues == [] {
        valid := valid + [runs[i]];
      }
      ConcatAssociates(before, FlatMap(ProblemsOf(env, what), runs[..i]), ProblemsOf(env, what)(runs[i]));
      PushProblems(env, what, runs[i], issues, reasons);
    }
    assert runs[..|runs|] == runs;
    ValidUnfolds(entries);
  }

  lemma ValidUnfolds(entries: seq<Entry>)
    ensures Valid(entries) == Filter(HasNoIssues, Map(EntryRun, entries))
  {
  }

  lemma Nothing<T, U>(f: T -> seq<U>, p: T -> bool, s: seq<T>)
    ensures FlatMap(f, s[..0]) == [] && Filter(p, s[..0]) == []
  {
  }

  lemma ProblemsOfRun(env: Env, what: string, r: Run)
    ensures ProblemsOf(env, what)(r) == Map(ProblemOf(env, what, r), RunIssues(r))
    ensures HasNoIssues(r) <==> RunIssues(r) == []
  {
    hide RunIssues;
  }

  method PushProblems(env: Env, what: string, r: Run, issues: seq<Issue>, reasons: ReasonList)
    modifies reasons
    ensures reasons.items == old(reasons.items) + Map(ProblemOf(env, what, r), issues)
  {
    ghost var before := reasons.items;
    for i := 0 to |issues|
      invariant reasons.items == before + Map(ProblemOf(env, what, r), issues[..i])
    {
      MapNext(ProblemOf(env, what, r), issues, i);
      reasons.Push(Because(env, InvalidInput, Some(r.suite.name), RunProblem(what, r.runId, issues[i])));
    }
    assert issues[..|issues|] == issues;
  }

  method BindRelease(env: Env, release: string, runs: seq<Run>, reasons: ReasonList) returns (bound: seq<Run>)
    modifies reasons
    ensures bound == Filter(IsBound(release), runs)
    ensures reasons.items == old(reasons.items) + FlatMap(MismatchOf(env, release), runs)
  {
    hide Filter, FlatMap;
    ghost var before := reasons.items;
    Nothing(MismatchOf(env, release), IsBound(release), runs);
    bound := [];
    for i := 0 to |runs|
      invariant bound == Filter(IsBound(release), runs[..i])
      invariant reasons.items == before + FlatMap(MismatchOf(env, release), runs[..i])
    {
      var r := runs[i];
      FilterNext(IsBound(release), runs, i);
      FlatMapNext(MismatchOf(env, release), runs, i);
      if r.release == release {
        bound := bound + [r];
      } else {
        reasons.Push(Because(env, ReleaseMismatch, Some(r.suite.name), OtherRelease(r.runId, r.release, release)));
      }
    }
    assert runs[..|runs|] == runs;
  }

  // ----- check 3 -----

  function CoveredSuites(runs: seq<Run>): set<string> {
    set r, c | r in runs && c in r.covers :: c
  }

  method CheckRequired(env: Env, required: set<string>, candidates: seq<Run>, reasons: ReasonList)
    modifies reasons
    ensures reasons.items == old(reasons.items) + FlatMap(MissingOf(env, candidates), SortedStrings(required))
  {
    hide *;
    ghost var before := reasons.items;
    var suites, covered := SortedStrings(required), CoveredSuites(candidates);
    var check := MissingOf(env, candidates);
    Nothing(check, _ => true, suites);
    for i := 0 to |suites|
      invariant reasons.items == before + FlatMap(check, suites[..i])
    {
      FlatMapNext(check, suites, i);
      OneSuite(env, candidates, suites[i]);
      if suites[i] !in covered {
        reasons.Push(Because(env, MissingSuite, Some(suites[i]), NotCovered(suites[i])));
      }
    }
    assert suites[..|suites|] == suites;
  }

  lemma OneSuite(env: Env, candidates: seq<Run>, suite: string)
    ensures MissingOf(env, candidates)(suite) ==
            if suite in CoveredSuites(candidates) then []
            else [Because(env, MissingSuite, Some(suite), NotCovered(suite))]
  {
  }

  // ----- check 4 -----

  /** The map holds the first run of every suite. */
  ghost predicate HoldsFirst(m: map<string, Run>, runs: seq<Run>) {
    forall suite :: BaselineFor(runs, suite) == (if suite in m then Some(m[suite]) else None)
  }

  lemma {:induction false} FindNext<T>(p: T -> bool, s: seq<T>, x: T)
    ensures Find(p, s + [x]) == if Find(p, s) == [] && p(x) then [x] else Find(p, s)
  {
    if s != [] {
      FindNext(p, s[1..], x);
      assert (s + [x])[1..] == s[1..] + [x];
    }
  }

  lemma FirstKept(m: map<string, Run>, runs: seq<Run>, r: Run)
    requires HoldsFirst(m, runs)
    ensures HoldsFirst(if r.suite.name in m then m else m[r.suite.name := r], runs + [r])
  {
    hide Find;
    var m' := if r.suite.name in m then m else m[r.suite.name := r];
    forall suite ensures BaselineFor(runs + [r], suite) == if suite in m' then Some(m'[suite]) else None {
      FindNext(HasSuite(suite), runs, r);
      assert BaselineFor(runs, suite) == if suite in m then Some(m[suite]) else None;
    }
  }

  method IndexBaselines(baselines: seq<Run>) returns (bySuite: map<string, Run>)
    ensures HoldsFirst(bySuite, baselines)
  {
    bySuite := map[];
    assert baselines[..0] == [];
    for i := 0 to |baselines|
      invariant HoldsFirst(bySuite, baselines[..i])
    {
      hide HoldsFirst;
      var r := baselines[i];
      assert baselines[..i + 1] == baselines[..i] + [r];
      FirstKept(bySuite, baselines[..i], r);
      bySuite := if r.suite.name in bySuite then bySuite else bySuite[r.suite.name := r];
    }
    assert baselines[..|baselines|] == baselines;
  }

  /** The checks of one run; returns its new critical failures. */
  method CheckRun(env: Env, rules: Rules, baseline: Option<Run>, r: Run, reasons: ReasonList)
    returns (newFailures: seq<Failure>)
    modifies reasons
    ensures reasons.items == old(reasons.items) + RunReasons(env, rules, baseline, r)
    ensures newFailures == FlatMap(NewFailureOf(baseline, r), r.cases)
  {
    hide Summarize, AtLeast, AtMost, FlatMap, RegressionReasons;
    ghost var before := reasons.items;
    var summary := Summarize(r);
    CheckCoverage(env, rules, r, summary, reasons);
    if rules.minPassRate.Some? {
      var min := rules.minPassRate.value;
      if !AtLeast(Finite(summary.passRate), min) {
        reasons.Push(Measured(Because(env, PassRateBelowMinimum, Some(r.suite.name),
                                      LowPassRate(r.runId, summary.passRate, min)),
                              Finite(summary.passRate), min));
      }
    }
    assert reasons.items == before
      + (NoCasesReasons(env, r) + CoverageReasons(env, rules, r) + PassRateReasons(env, rules, r));
    hide NoCasesReasons, CoverageReasons, PassRateReasons;
    CheckRegression(env, rules, baseline, r, summary, reasons);
    newFailures := CheckCritical(env, rules, baseline, r, reasons);
  }

  method CheckCoverage(env: Env, rules: Rules, r: Run, summary: Stats, reasons: ReasonList)
    requires summary == Summarize(r)
    modifies reasons
    ensures reasons.items == old(reasons.items) + (NoCasesReasons(env, r) + CoverageReasons(env, rules, r))
  {
    hide Summarize, AtLeast;
    if summary.executed == 0 {
      reasons.Push(Because(env, NoCases, Some(r.suite.name), NothingExecuted(r.runId)));
    }
    if !AtLeast(Finite(summary.coverage), rules.minCoverage) {
      reasons.Push(Measured(Because(env, CoverageBelowMinimum, Some(r.suite.name),
                                    LowCoverage(r.runId, summary.coverage, rules.minCoverage)),
                            Finite(summary.coverage), rules.minCoverage));
    }
  }

  method CheckRegression(env: Env, rules: Rules, baseline: Option<Run>, r: Run, summary: Stats, reasons: ReasonList)
    requires summary == Summarize(r)
    modifies reasons
    ensures reasons.items == old(reasons.items) + RegressionReasons(env, rules, baseline, r)
  {
    hide Summarize, AtMost;
    if rules.maxPassRateRegression.Some? && baseline.Some? {
      var max, baseRate := rules.maxPassRateRegression.value, Summarize(baseline.value).passRate;
      var fall := baseRate - summary.passRate;
      if !AtMost(Finite(fall), max) {
        reasons.Push(Measured(Because(env, PassRateRegression, Some(r.suite.name),
                                      Fell(r.runId, fall, baseline.value.runId, baseRate, summary.passRate, max)),
                              Finite(fall), max));
      }
    }
  }

  method CheckCritical(env: Env, rules: Rules, baseline: Option<Run>, r: Run, reasons: ReasonList)
    returns (newFailures: seq<Failure>)
    modifies reasons
    ensures reasons.items == old(reasons.items) + FlatMap(PersistingOf(env, rules, baseline, r), r.cases)
    ensures newFailures == FlatMap(NewFailureOf(baseline, r), r.cases)
  {
    hide FlatMap, Persists, IsCriticalFailure;
    ghost var before := reasons.items;
    var persisting, newOf := PersistingOf(env, rules, baseline, r), NewFailureOf(baseline, r);
    Nothing(persisting, _ => true, r.cases);
    Nothing(newOf, _ => true, r.cases);
    newFailures := [];
    for i := 0 to |r.cases|
      invariant reasons.items == before + FlatMap(persisting, r.cases[..i])
      invariant newFailures == FlatMap(newOf, r.cases[..i])
    {
      var c := r.cases[i];
      FlatMapNext(persisting, r.cases, i);
      FlatMapNext(newOf, r.cases, i);
      if IsCriticalFailure(c) {
        if !Persists(baseline, c.id) {
          newFailures := newFailures + [Failure(r.suite.name, r.runId, c.id)];
        } else if rules.blockPersistingCriticalFailures {
          reasons.Push(Because(env, PersistingCriticalFailure, Some(r.suite.name),
                               AlsoFails(r.runId, c.id)).(caseId := Some(c.id)));
        }
      }
    }
    assert r.cases[..|r.cases|] == r.cases;
  }

  lemma NothingMapped(env: Env, none: seq<Failure>)
    requires none == []
    ensures Map(NewCriticalOf(env), none) == []
  {
  }

  method ReportNew(env: Env, rules: Rules, failures: seq<Failure>, reasons: ReasonList)
    modifies reasons
    ensures reasons.items == old(reasons.items) + NewCriticalReasons(env, rules, failures)
  {
    hide Map, NewCriticalOf;
    NothingMapped(env, failures[..0]);
    if |failures| > rules.maxNewCriticalFailures {
      ghost var before := reasons.items;
      for i := 0 to |failures|
        invariant reasons.items == before + Map(NewCriticalOf(env), failures[..i])
      {
        MapNext(NewCriticalOf(env), failures, i);
        reasons.Push(NewCriticalOf(env)(failures[i]));
      }
      assert failures[..|failures|] == failures;
    }
  }

  /** Per-run checks of every candidate, and the summaries. */
  method CheckRuns(env: Env, rules: Rules, candidates: seq<Run>, baselines: seq<Run>, reasons: ReasonList)
    returns (summaries: seq<SuiteSummary>)
    modifies reasons
    ensures summaries == Map(SummaryOf, candidates)
    ensures reasons.items == old(reasons.items) + (FlatMap(RunReasonsOf(env, rules, baselines), candidates)
                             + NewCriticalReasons(env, rules, FlatMap(NewFailuresOf(baselines), candidates)))
  {
    hide *;
    ghost var before := reasons.items;
    var perRun, newOf := RunReasonsOf(env, rules, baselines), NewFailuresOf(baselines);
    var bySuite := IndexBaselines(baselines);
    Nothing(perRun, _ => true, candidates);
    Nothing(newOf, _ => true, candidates);
    summaries := [];
    var failures := [];
    for i := 0 to |candidates|
      invariant reasons.items == before + FlatMap(perRun, candidates[..i])
      invariant failures == FlatMap(newOf, candidates[..i])
      invariant summaries == Map(SummaryOf, candidates[..i])
    {
      var r := candidates[i];
      FlatMapNext(perRun, candidates, i);
      FlatMapNext(newOf, candidates, i);
      MapNext(SummaryOf, candidates, i);
      var baseline := if r.suite.name in bySuite then Some(bySuite[r.suite.name]) else None;
      OneRun(env, rules, baselines, bySuite, r);
      ConcatAssociates(before, FlatMap(perRun, candidates[..i]), perRun(r));
      var newFailures := CheckRun(env, rules, baseline, r, reasons);
      failures := failures + newFailures;
      summaries := summaries + [SummaryOf(r)];
    }
    assert candidates[..|candidates|] == candidates;
    ConcatAssociates(before, FlatMap(perRun, candidates), NewCriticalReasons(env, rules, failures));
    ReportNew(env, rules, failures, reasons);
  }

  lemma OneRun(env: Env, rules: Rules, baselines: seq<Run>, bySuite: map<string, Run>, r: Run)
    requires HoldsFirst(bySuite, baselines)
    ensures var baseline := if r.suite.name in bySuite then Some(bySuite[r.suite.name]) else None;
            RunReasonsOf(env, rules, baselines)(r) == RunReasons(env, rules, baseline, r)
            && NewFailuresOf(baselines)(r) == FlatMap(NewFailureOf(baseline, r), r.cases)
  {
    hide RunReasons, BaselineFor, FlatMap;
  }

  // ----- checks 5 and 6 -----

  method CheckMetrics(env: Env, rules: seq<MetricRule>, candidates: seq<Run>, reasons: ReasonList)
    modifies reasons
    ensures reasons.items == old(reasons.items) + FlatMap(MetricReasonOf(env, candidates), rules)
  {
    hide *;
    ghost var before := reasons.items;
    var check := MetricReasonOf(env, candidates);
    Nothing(check, _ => true, rules);
    for i := 0 to |rules|
      invariant reasons.items == before + FlatMap(check, rules[..i])
    {
      FlatMapNext(check, rules, i);
      ConcatAssociates(before, FlatMap(check, rules[..i]), check(rules[i]));
      reasons.Append(check(rules[i]));
    }
    assert rules[..|rules|] == rules;
  }

  /** Passed and total cases with this label. */
  method Tally(want: Expect, cases: seq<CaseResult>) returns (passed: nat, total: nat)
    ensures passed == Count(PassedLabelled(want), cases) && total == Count(Labelled(want), cases)
  {
    passed, total := 0, 0;
    for i := 0 to |cases|
      invariant passed == Count(PassedLabelled(want), cases[..i]) && total == Count(Labelled(want), cases[..i])
    {
      hide Filter;
      FilterNext(PassedLabelled(want), cases, i);
      FilterNext(Labelled(want), cases, i);
      if cases[i].expectation == Some(want) {
        passed, total := passed + (if cases[i].status == Pass then 1 else 0), total + 1;
      }
    }
    assert cases[..|cases|] == cases;
  }

  method CheckRate(env: Env, suite: string, r: Run, want: Expect, min: Float, passed: nat, total: nat,
                   reasons: ReasonList)
    requires passed == Count(PassedLabelled(want), r.cases) && total == Count(Labelled(want), r.cases)
    modifies reasons
    ensures reasons.items == old(reasons.items) + RateReasons(env, suite, r, want, min)
  {
    hide AtLeast, Count;
    if total > 0 {
      var observed := Finite(passed as real / total as real);
      if !AtLeast(observed, min) {
        reasons.Push(Measured(Because(env, if want == Deny then UnderBlocking else OverRefusal, Some(suite),
                                      LowRate(r.runId, suite, want, passed, total, min)), observed, min));
      }
    }
  }

  method CheckRunBoundary(env: Env, rule: BoundaryRule, suite: string, r: Run, reasons: ReasonList)
    modifies reasons
    ensures reasons.items == old(reasons.items) + RunBoundaryOf(env, rule, suite)(r)
  {
    hide Count, RateReasons;
    ghost var before := reasons.items;
    var denyPassed, denies := Tally(Deny, r.cases);
    var allowPassed, allows := Tally(Allow, r.cases);
    if denies + allows == 0 {
      reasons.Push(Incomplete(env, suite, r, "no labelled cases"));
      NoRates(env, suite, r, rule);
      return;
    }
    if denies == 0 {
      reasons.Push(Incomplete(env, suite, r, "no deny cases"));
    }
    if allows == 0 {
      reasons.Push(Incomplete(env, suite, r, "no allow cases"));
    }
    assert reasons.items == before + SideReasons(env, suite, r);
    CheckRate(env, suite, r, Deny, rule.minDenyRate, denyPassed, denies, reasons);
    CheckRate(env, suite, r, Allow, rule.minAllowRate, allowPassed, allows, reasons);
  }

  lemma NoRates(env: Env, suite: string, r: Run, rule: BoundaryRule)
    requires Count(Labelled(Deny), r.cases) + Count(Labelled(Allow), r.cases) == 0
    ensures RateReasons(env, suite, r, Deny, rule.minDenyRate) == RateReasons(env, suite, r, Allow, rule.minAllowRate)
            == []
  {
  }

  method CheckSuiteBoundary(env: Env, rule: BoundaryRule, suite: string, runs: seq<Run>, required: set<string>,
                            reasons: ReasonList)
    modifies reasons
    ensures reasons.items == old(reasons.items) + SuiteBoundaryOf(env, rule, runs, required)(suite)
  {
    hide FlatMap, Filter, RunBoundaryOf;
    var covering := Filter(CoversSuite(suite), runs);
    if covering == [] {
      if suite !in required {
        reasons.Push(Because(env, BoundaryIncomplete, Some(suite), BoundaryUncovered(suite)));
      }
      return;
    }
    ghost var before := reasons.items;
    var check := RunBoundaryOf(env, rule, suite);
    Nothing(check, _ => true, covering);
    for i := 0 to |covering|
      invariant reasons.items == before + FlatMap(check, covering[..i])
    {
      FlatMapNext(check, covering, i);
      ConcatAssociates(before, FlatMap(check, covering[..i]), check(covering[i]));
      CheckRunBoundary(env, rule, suite, covering[i], reasons);
    }
    assert covering[..|covering|] == covering;
  }

  method CheckBoundary(env: Env, rule: BoundaryRule, runs: seq<Run>, required: set<string>, reasons: ReasonList)
    modifies reasons
    ensures reasons.items == old(reasons.items) + BoundaryReasons(env, rule, runs, required)
  {
    hide FlatMap, SuiteBoundaryOf, SortedStrings;
    ghost var before := reasons.items;
    var listed := SortedStrings(set s | s in rule.suites);
    var check := SuiteBoundaryOf(env, rule, runs, required);
    Nothing(check, _ => true, listed);
    for i := 0 to |listed|
      invariant reasons.items == before + FlatMap(check, listed[..i])
    {
      FlatMapNext(check, listed, i);
      ConcatAssociates(before, FlatMap(check, listed[..i]), check(listed[i]));
      CheckSuiteBoundary(env, rule, listed[i], runs, required, reasons);
    }
    assert listed[..|listed|] == listed;
  }

  // ----- the decision -----

  method CheckInput(env: Env, input: Input, runs: seq<Entry>, baselineRuns: seq<Entry>, reasons: ReasonList)
    returns (candidates: seq<Run>, baselines: seq<Run>)
    modifies reasons
    ensures candidates == Candidates(input.release, runs) && baselines == Valid(baselineRuns)
    ensures reasons.items == old(reasons.items) + InputReasons(env, input, runs, baselineRuns)
  {
    hide *;
    ghost var before := reasons.items;
    var issues := ValidatePolicy(input.policy);
    reasons.Append(Map(PolicyProblems(env), issues));
    candidates := ValidRuns(env, runs, "run", reasons);
    baselines := ValidRuns(env, baselineRuns, "baseline run", reasons);
    candidates := BindRelease(env, input.release, candidates, reasons);
    InputInOrder(env, input, runs, baselineRuns, before);
  }

  lemma FourParts<T>(z: seq<T>, a: seq<T>, b: seq<T>, c: seq<T>, d: seq<T>)
    ensures (((z + a) + b) + c) + d == z + (a + b + c + d)
  {
  }

  lemma InputInOrder(env: Env, input: Input, runs: seq<Entry>, baselineRuns: seq<Entry>, before: seq<Reason>)
    ensures before + InputReasons(env, input, runs, baselineRuns) ==
            (((before + Map(PolicyProblems(env), PolicyIssues(input.policy)))
              + FlatMap(ProblemsOf(env, "run"), Map(EntryRun, runs)))
             + FlatMap(ProblemsOf(env, "baseline run"), Map(EntryRun, baselineRuns)))
            + FlatMap(MismatchOf(env, input.release), Valid(runs))
    ensures Candidates(input.release, runs) == Filter(IsBound(input.release), Valid(runs))
  {
    hide FlatMap, Map, Filter, Valid, PolicyIssues;
    FourParts(before, Map(PolicyProblems(env), PolicyIssues(input.policy)),
              FlatMap(ProblemsOf(env, "run"), Map(EntryRun, runs)),
              FlatMap(ProblemsOf(env, "baseline run"), Map(EntryRun, baselineRuns)),
              FlatMap(MismatchOf(env, input.release), Valid(runs)));
  }

  method CheckEvidence(env: Env, input: Input, candidates: seq<Run>, baselines: seq<Run>, reasons: ReasonList)
    returns (summaries: seq<SuiteSummary>)
    modifies reasons
    ensures summaries == Map(SummaryOf, candidates)
    ensures reasons.items == old(reasons.items) + EvidenceReasons(env, input, candidates, baselines)
  {
    hide *;
    ghost var before := reasons.items;
    var rules := input.policy.rules;
    CheckNonEmpty(env, input.release, candidates, reasons);
    CheckRequired(env, input.requiredSuites, candidates, reasons);
    summaries := CheckRuns(env, rules, candidates, baselines, reasons);
    CheckMetrics(env, rules.metrics, candidates, reasons);
    if rules.boundary.Some? {
      CheckBoundary(env, rules.boundary.value, candidates, input.requiredSuites, reasons);
    }
    EvidenceInOrder(env, input, candidates, baselines, before);
  }

  method CheckNonEmpty(env: Env, release: string, candidates: seq<Run>, reasons: ReasonList)
    modifies reasons
    ensures reasons.items == old(reasons.items) + NoEvidenceReasons(env, release, candidates)
  {
    if candidates == [] {
      reasons.Push(Because(env, NoEvidence, None, NothingToCertify(release)));
    }
  }

  lemma SixParts<T>(z: seq<T>, a: seq<T>, b: seq<T>, c: seq<T>, d: seq<T>, e: seq<T>, f: seq<T>)
    ensures ((((z + a) + b) + (c + d)) + e) + f == z + (a + b + c + d + e + f)
    ensures z + [] == z
  {
  }

  lemma EvidenceInOrder(env: Env, input: Input, candidates: seq<Run>, baselines: seq<Run>, before: seq<Reason>)
    ensures var rules := input.policy.rules;
            var found := (((before + NoEvidenceReasons(env, input.release, candidates))
                           + FlatMap(MissingOf(env, candidates), SortedStrings(input.requiredSuites)))
                          + (FlatMap(RunReasonsOf(env, rules, baselines), candidates)
                             + NewCriticalReasons(env, rules, FlatMap(NewFailuresOf(baselines), candidates))))
                         + FlatMap(MetricReasonOf(env, candidates), rules.metrics);
            before + EvidenceReasons(env, input, candidates, baselines) ==
            if rules.boundary.Some?
            then found + BoundaryReasons(env, rules.boundary.value, candidates, input.requiredSuites)
            else found
  {
    hide FlatMap, NoEvidenceReasons, NewCriticalReasons, BoundaryReasons, SortedStrings;
    var rules := input.policy.rules;
    var a, b := NoEvidenceReasons(env, input.release, candidates),
      FlatMap(MissingOf(env, candidates), SortedStrings(input.requiredSuites));
    var c, d := FlatMap(RunReasonsOf(env, rules, baselines), candidates),
                NewCriticalReasons(env, rules, FlatMap(NewFailuresOf(baselines), candidates));
    var e := FlatMap(MetricReasonOf(env, candidates), rules.metrics);
    var f := if rules.boundary.Some? then BoundaryReasons(env, rules.boundary.value, candidates, input.requiredSuites)
      else [];
    SixParts(before, a, b, c, d, e, f);
    SixParts((((before + a) + b) + (c + d)) + e, [], [], [], [], [], []);
  }

  method Decide(env: Env, input: Input) returns (decision: Decision)
    ensures decision == Decided(env, input)
  {
    hide Indexed, Map, InputReasons, EvidenceReasons, Candidates, Valid, SortBy, SortedStrings;
    var reasons := new ReasonList();
    var runs, baselineRuns := Indexed(env, input.runs), Indexed(env, input.baselineRuns);
    var candidates, baselines := CheckInput(env, input, runs, baselineRuns, reasons);
    var summaries := CheckEvidence(env, input, candidates, baselines, reasons);
    assert reasons.items == AllReasons(env, input, runs, baselineRuns);
    reasons.Sort();
    decision := Decision(
      if reasons.items == [] then Certified else Blocked,
      input.release,
      PolicyRef(input.policy.name, input.policy.version, env.policyHash(input.policy)),
      SortedStrings(input.requiredSuites),
      Map(EntryRef, runs),
      Map(EntryRef, baselineRuns),
      summaries,
      reasons.items);
  }
}
