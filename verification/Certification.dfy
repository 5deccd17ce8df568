/** The certification decision. Message wording is an arbitrary function of the
    message's content, run and policy hashes arbitrary functions of the hashed
    views. */
module Certification {
  import opened Ordering
  import opened Text
  import opened Lists
  import opened CertificationModel

  datatype RunRef = RunRef(runId: string, suite: string, hash: string)

  datatype PolicyRef = PolicyRef(name: string, version: string, hash: string)

  datatype ReasonCode =
    | InvalidInput | ReleaseMismatch | NoEvidence | MissingSuite | NoCases | NewCriticalFailure
    | PersistingCriticalFailure | CoverageBelowMinimum | PassRateBelowMinimum | PassRateRegression
    | MetricThreshold | UnderBlocking | OverRefusal | BoundaryIncomplete

  /** What a reason's message is rendered from. */
  datatype Message =
    | PolicyProblem(issue: Issue)
    | RunProblem(what: string, runId: string, issue: Issue)
    | OtherRelease(runId: string, evaluated: string, release: string)
    | NothingToCertify(release: string)
    | NotCovered(suite: string)
    | NothingExecuted(runId: string)
    | LowCoverage(runId: string, coverage: real, min: Float)
    | LowPassRate(runId: string, rate: real, min: Float)
    | Fell(runId: string, regression: real, baselineId: string, baseRate: real, rate: real, max: Float)
    | AlsoFails(runId: string, caseId: string)
    | NewlyFails(runId: string, caseId: string)
    | MetricMissed(rule: MetricRule, observed: Float)
    | BoundaryUncovered(suite: string)
    | BoundaryHas(runId: string, suite: string, what: string)
    | LowRate(runId: string, suite: string, expected: Expect, passed: nat, total: nat, min: Float)

  datatype Reason = Reason(
    code: ReasonCode,
    message: string,
    suite: Option<string>,
    caseId: Option<string>,
    observed: Option<Float>,
    required: Option<Float>)

  datatype SuiteSummary = SuiteSummary(
    suite: string, cases: nat, passed: nat, failed: nat, errored: nat, skipped: nat, passRate: real, coverage: real)

  datatype Outcome = Certified | Blocked

  datatype Decision = Decision(
    outcome: Outcome,
    release: string,
    policy: PolicyRef,
    requiredSuites: seq<string>,
    runs: seq<RunRef>,
    baselineRuns: seq<RunRef>,
    summaries: seq<SuiteSummary>,
    reasons: seq<Reason>)

  datatype Input = Input(
    release: string, requiredSuites: set<string>, runs: seq<Run>, baselineRuns: seq<Run>, policy: Policy)

  datatype Env = Env(runHash: Run -> string, policyHash: Policy -> string, render: Message -> string)

  // ----- canonical copies -----

  function Canonical(r: Run): Run {
    r.(cases := SortBy(CaseOrder(), r.cases), covers := SortBy(CompareString, r.covers),
       evaluators := SortBy(EvaluatorOrder(), r.evaluators))
  }

  /** JSON has no infinities and no NaN: all three are written `null`. */
  function SeenFloat(f: Float): Float {
    if f.Finite? then f else NaN
  }

  function SeenCase(c: CaseResult): CaseResult {
    c.(score := if c.score.Some? then Some(SeenFloat(c.score.value)) else None,
       metrics := map k | k in c.metrics :: SeenFloat(c.metrics[k]))
  }

  /** What the JSON of a run shows. */
  function Seen(r: Run): Run {
    r.(cases := Map(SeenCase, r.cases))
  }

  /** The view that is hashed: cases sorted by id alone. */
  function View(r: Run): Run {
    Seen(r.(cases := SortBy(By(CaseId, CompareString), r.cases), covers := SortBy(CompareString, r.covers),
            evaluators := SortBy(EvaluatorOrder(), r.evaluators)))
  }

  datatype Entry = Entry(ref: RunRef, run: Run)

  function EntryOf(env: Env): Run -> Entry {
    (r: Run) => Entry(RunRef(r.runId, r.suite.name, env.runHash(View(Canonical(r)))), Canonical(r))
  }

  function EntrySuite(e: Entry): string { e.ref.suite }

  function EntryRunId(e: Entry): string { e.ref.runId }

  function EntryHash(e: Entry): string { e.ref.hash }

  function EntryRef(e: Entry): RunRef { e.ref }

  function EntryRun(e: Entry): Run { e.run }

  function EntryOrder(): (Entry, Entry) -> Ordering {
    ThenBy(By(EntrySuite, CompareString), ThenBy(By(EntryRunId, CompareString), By(EntryHash, CompareString)))
  }

  /** Canonical copies with their references, by suite, run id and hash. */
  function Indexed(env: Env, runs: seq<Run>): seq<Entry> {
    SortBy(EntryOrder(), Map(EntryOf(env), runs))
  }

  // ----- reasons -----

  function Because(env: Env, code: ReasonCode, suite: Option<string>, message: Message): Reason {
    Reason(code, env.render(message), suite, None, None, None)
  }

  function Measured(r: Reason, observed: Float, required: Float): Reason {
    r.(observed := Some(observed), required := Some(required))
  }

  function CodeRank(c: ReasonCode): int {
    match c
    case InvalidInput => 0
    case ReleaseMismatch => 1
    case NoEvidence => 2
    case MissingSuite => 3
    case NoCases => 4
    case NewCriticalFailure => 5
    case PersistingCriticalFailure => 6
    case CoverageBelowMinimum => 7
    case PassRateBelowMinimum => 8
    case PassRateRegression => 9
    case MetricThreshold => 10
    case UnderBlocking => 11
    case OverRefusal => 12
    case BoundaryIncomplete => 13
  }

  function ReasonRank(r: Reason): int { CodeRank(r.code) }

  function ReasonSuite(r: Reason): seq<string> { AsList(r.suite) }

  function ReasonCase(r: Reason): seq<string> { AsList(r.caseId) }

  function ReasonMessage(r: Reason): string { r.message }

  function ReasonObserved(r: Reason): seq<Float> { AsList(r.observed) }

  function ReasonRequired(r: Reason): seq<Float> { AsList(r.required) }

  /** Code, suite, case, message, then the measured values. */
  function ReasonOrder(): (Reason, Reason) -> Ordering {
    ThenBy(By(ReasonRank, CompareInt), ThenBy(By(ReasonSuite, SeqOrder(CompareString)),
      ThenBy(By(ReasonCase, SeqOrder(CompareString)), ThenBy(By(ReasonMessage, CompareString),
        ThenBy(By(ReasonObserved, SeqOrder(TotalCompare)), By(ReasonRequired, SeqOrder(TotalCompare)))))))
  }

  // ----- statistics of one run -----

  datatype Stats = Stats(
    cases: nat, passed: nat, failed: nat, errored: nat, skipped: nat, executed: int, passRate: real, coverage: real)

  function HasStatus(s: Status): CaseResult -> bool {
    (c: CaseResult) => c.status == s
  }

  function Ratio(n: int, d: int): real {
    if d == 0 then 0.0 else n as real / d as real
  }

  function Summarize(r: Run): Stats {
    var passed, skipped := Count(HasStatus(Pass), r.cases), Count(HasStatus(Skipped), r.cases);
    var cases, executed := |r.cases|, |r.cases| - skipped;
    Stats(cases, passed, Count(HasStatus(Fail), r.cases), Count(HasStatus(Errored), r.cases), skipped, executed,
          Ratio(passed, executed), Ratio(executed, cases))
  }

  const U32_MAX := 0xffff_ffff

  function AsU32(n: nat): nat {
    if n <= U32_MAX then n else U32_MAX
  }

  function SummaryOf(r: Run): SuiteSummary {
    var s := Summarize(r);
    SuiteSummary(r.suite.name, AsU32(s.cases), AsU32(s.passed), AsU32(s.failed), AsU32(s.errored), AsU32(s.skipped),
                 s.passRate, s.coverage)
  }

  // ----- checks 1 to 3 -----

  function PolicyProblems(env: Env): Issue -> Reason {
    issue => Because(env, InvalidInput, None, PolicyProblem(issue))
  }

  function ProblemOf(env: Env, what: string, r: Run): Issue -> Reason {
    issue => Because(env, InvalidInput, Some(r.suite.name), RunProblem(what, r.runId, issue))
  }

  function ProblemsOf(env: Env, what: string): Run -> seq<Reason> {
    (r: Run) => Map(ProblemOf(env, what, r), RunIssues(r))
  }

  predicate HasNoIssues(r: Run) {
    RunIssues(r) == []
  }

  function Valid(entries: seq<Entry>): seq<Run> {
    Filter(HasNoIssues, Map(EntryRun, entries))
  }

  function IsBound(release: string): Run -> bool {
    (r: Run) => r.release == release
  }

  function MismatchOf(env: Env, release: string): Run -> seq<Reason> {
    (r: Run) =>
      if r.release == release then []
      else [Because(env, ReleaseMismatch, Some(r.suite.name), OtherRelease(r.runId, r.release, release))]
  }

  function NoEvidenceReasons(env: Env, release: string, candidates: seq<Run>): seq<Reason> {
    if candidates == [] then [Because(env, NoEvidence, None, NothingToCertify(release))] else []
  }

  /** Some run covers the assurance suite. */
  predicate Covered(runs: seq<Run>, suite: string) {
    exists r :: r in runs && suite in r.covers
  }

  function MissingOf(env: Env, candidates: seq<Run>): string -> seq<Reason> {
    suite => if Covered(candidates, suite) then [] else [Because(env, MissingSuite, Some(suite), NotCovered(suite))]
  }

  // ----- check 4 -----

  function HasSuite(suite: string): Run -> bool {
    (r: Run) => r.suite.name == suite
  }

  /** The first valid baseline run of the suite in canonical order. */
  function BaselineFor(baselines: seq<Run>, suite: string): Option<Run> {
    var found := Find(HasSuite(suite), baselines);
    if found == [] then None else Some(found[0])
  }

  function NoCasesReasons(env: Env, r: Run): seq<Reason> {
    if Summarize(r).executed == 0 then [Because(env, NoCases, Some(r.suite.name), NothingExecuted(r.runId))] else []
  }

  function CoverageReasons(env: Env, rules: Rules, r: Run): seq<Reason> {
    var coverage := Summarize(r).coverage;
    if AtLeast(Finite(coverage), rules.minCoverage) then []
    else
      [Measured(Because(env, CoverageBelowMinimum, Some(r.suite.name),
                        LowCoverage(r.runId, coverage, rules.minCoverage)),
                Finite(coverage), rules.minCoverage)]
  }

  function PassRateReasons(env: Env, rules: Rules, r: Run): seq<Reason> {
    var rate := Summarize(r).passRate;
    if rules.minPassRate.None? || AtLeast(Finite(rate), rules.minPassRate.value) then []
    else
      var min := rules.minPassRate.value;
      [Measured(Because(env, PassRateBelowMinimum, Some(r.suite.name), LowPassRate(r.runId, rate, min)), Finite(rate),
                min)]
  }

  function RegressionReasons(env: Env, rules: Rules, baseline: Option<Run>, r: Run): seq<Reason> {
    if rules.maxPassRateRegression.None? || baseline.None? then []
    else
      var max, rate, baseRate := rules.maxPassRateRegression.value, Summarize(r).passRate,
        Summarize(baseline.value).passRate;
      var fall := baseRate - rate;
      if AtMost(Finite(fall), max) then []
      else
        [Measured(Because(env, PassRateRegression, Some(r.suite.name),
                          Fell(r.runId, fall, baseline.value.runId, baseRate, rate, max)), Finite(fall), max)]
  }

  predicate IsCriticalFailure(c: CaseResult) {
    c.critical && IsFailure(c)
  }

  /** The baseline has a failing case with this id. */
  predicate Persists(baseline: Option<Run>, id: string) {
    baseline.Some? && exists c :: c in baseline.value.cases && c.id == id && IsFailure(c)
  }

  function PersistingOf(env: Env, rules: Rules, baseline: Option<Run>, r: Run): CaseResult -> seq<Reason> {
    (c: CaseResult) =>
      if IsCriticalFailure(c) && Persists(baseline, c.id) && rules.blockPersistingCriticalFailures
      then [Because(env, PersistingCriticalFailure, Some(r.suite.name),
                    AlsoFails(r.runId, c.id)).(caseId := Some(c.id))]
      else []
  }

  function RunReasons(env: Env, rules: Rules, baseline: Option<Run>, r: Run): seq<Reason> {
    NoCasesReasons(env, r) + CoverageReasons(env, rules, r) + PassRateReasons(env, rules, r)
    + RegressionReasons(env, rules, baseline, r) + FlatMap(PersistingOf(env, rules, baseline, r), r.cases)
  }

  function RunReasonsOf(env: Env, rules: Rules, baselines: seq<Run>): Run -> seq<Reason> {
    (r: Run) => RunReasons(env, rules, BaselineFor(baselines, r.suite.name), r)
  }

  datatype Failure = Failure(suite: string, runId: string, caseId: string)

  function NewFailureOf(baseline: Option<Run>, r: Run): CaseResult -> seq<Failure> {
    (c: CaseResult) =>
      if IsCriticalFailure(c) && !Persists(baseline, c.id) then [Failure(r.suite.name, r.runId, c.id)] else []
  }

  function NewFailuresOf(baselines: seq<Run>): Run -> seq<Failure> {
    (r: Run) => FlatMap(NewFailureOf(BaselineFor(baselines, r.suite.name), r), r.cases)
  }

  function NewCriticalOf(env: Env): Failure -> Reason {
    (f: Failure) => Because(env, NewCriticalFailure, Some(f.suite),
                            NewlyFails(f.runId, f.caseId)).(caseId := Some(f.caseId))
  }

  function NewCriticalReasons(env: Env, rules: Rules, failures: seq<Failure>): seq<Reason> {
    if |failures| > rules.maxNewCriticalFailures then Map(NewCriticalOf(env), failures) else []
  }

  // ----- check 5 -----

  function CaseValue(metric: string): CaseResult -> seq<Float> {
    (c: CaseResult) => if c.status != Skipped && metric in c.metrics then [c.metrics[metric]] else []
  }

  predicate InScope(rule: MetricRule, r: Run) {
    rule.suite.None? || rule.suite.value == r.suite.name
  }

  function RunValues(rule: MetricRule): Run -> seq<Float> {
    (r: Run) => if InScope(rule, r) then FlatMap(CaseValue(rule.metric), r.cases) else []
  }

  function MetricValues(rule: MetricRule, runs: seq<Run>): seq<Float> {
    SortBy(TotalCompare, FlatMap(RunValues(rule), runs))
  }

  /** The value at 1-based rank `ceil(pct / 100 * n)`. */
  function NearestRank(sorted: seq<Float>, pct: nat): Option<Float> {
    var up := (pct * |sorted| + 99) / 100;
    var rank := if up < 1 then 1 else up;
    if rank - 1 < |sorted| then Some(sorted[rank - 1]) else None
  }

  function Add(a: Float, b: Float): Float {
    if a.NaN? || b.NaN? then NaN
    else if a.Finite? && b.Finite? then Finite(a.x + b.x)
    else if a.Finite? then b
    else if b.Finite? || a == b then a
    else NaN
  }

  function Sum(values: seq<Float>): Float {
    if values == [] then Finite(0.0) else Add(Sum(values[..|values| - 1]), values[|values| - 1])
  }

  predicate Below(a: Float, b: Float) {
    !a.NaN? && !b.NaN? && TotalCompare(a, b) == Less
  }

  /** The sum over the count, clamped to the range of the values. */
  function MeanOf(sorted: seq<Float>): Option<Float> {
    if sorted == [] then None
    else
      var lo, hi, sum := sorted[0], sorted[|sorted| - 1], Sum(sorted);
      var mean := if sum.Finite? then Finite(sum.x / (|sorted| as real)) else sum;
      Some(if Below(mean, lo) then lo else if Below(hi, mean) then hi else mean)
  }

  function Aggregated(sorted: seq<Float>, aggregate: Aggregate): Option<Float> {
    match aggregate
    case Mean => MeanOf(sorted)
    case P50 => NearestRank(sorted, 50)
    case P95 => NearestRank(sorted, 95)
    case Min => if sorted == [] then None else Some(sorted[0])
    case Max => if sorted == [] then None else Some(sorted[|sorted| - 1])
  }

  predicate Holds(op: Comparison, observed: Float, value: Float) {
    if op == Lte then AtMost(observed, value) else AtLeast(observed, value)
  }

  function MetricReasonOf(env: Env, runs: seq<Run>): MetricRule -> seq<Reason> {
    (rule: MetricRule) =>
      var observed := Aggregated(MetricValues(rule, runs), rule.aggregate);
      if observed.None? || Holds(rule.op, observed.value, rule.value) then []
      else
        [Measured(Because(env, MetricThreshold, rule.suite, MetricMissed(rule, observed.value)), observed.value,
                  rule.value)]
  }

  // ----- check 6 -----

  function Labelled(want: Expect): CaseResult -> bool {
    (c: CaseResult) => c.expectation == Some(want)
  }

  function PassedLabelled(want: Expect): CaseResult -> bool {
    (c: CaseResult) => c.expectation == Some(want) && c.status == Pass
  }

  function RateReasons(env: Env, suite: string, r: Run, want: Expect, min: Float): seq<Reason> {
    var total, passed := Count(Labelled(want), r.cases), Count(PassedLabelled(want), r.cases);
    if total == 0 then []
    else
      var observed := Finite(passed as real / total as real);
      if AtLeast(observed, min) then []
      else
        [Measured(Because(env, if want == Deny then UnderBlocking else OverRefusal, Some(suite),
                          LowRate(r.runId, suite, want, passed, total, min)), observed, min)]
  }

  function Incomplete(env: Env, suite: string, r: Run, what: string): Reason {
    Because(env, BoundaryIncomplete, Some(suite), BoundaryHas(r.runId, suite, what))
  }

  function SideReasons(env: Env, suite: string, r: Run): seq<Reason> {
    var denies, allows := Count(Labelled(Deny), r.cases), Count(Labelled(Allow), r.cases);
    if denies + allows == 0 then [Incomplete(env, suite, r, "no labelled cases")]
    else
      (if denies == 0 then [Incomplete(env, suite, r, "no deny cases")] else [])
      + (if allows == 0 then [Incomplete(env, suite, r, "no allow cases")] else [])
  }

  function RunBoundaryOf(env: Env, rule: BoundaryRule, suite: string): Run -> seq<Reason> {
    (r: Run) => SideReasons(env, suite, r) + RateReasons(env, suite, r, Deny, rule.minDenyRate)
                + RateReasons(env, suite, r, Allow, rule.minAllowRate)
  }

  function CoversSuite(suite: string): Run -> bool {
    (r: Run) => suite in r.covers
  }

  function SuiteBoundaryOf(env: Env, rule: BoundaryRule, runs: seq<Run>, required: set<string>): string -> seq<Reason> {
    suite =>
      var covering := Filter(CoversSuite(suite), runs);
      if covering == [] then
        if suite in required then [] else [Because(env, BoundaryIncomplete, Some(suite), BoundaryUncovered(suite))]
      else FlatMap(RunBoundaryOf(env, rule, suite), covering)
  }

  function BoundaryReasons(env: Env, rule: BoundaryRule, runs: seq<Run>, required: set<string>): seq<Reason> {
    FlatMap(SuiteBoundaryOf(env, rule, runs, required), SortedStrings(set s | s in rule.suites))
  }

  // ----- the decision -----

  function InputReasons(env: Env, input: Input, runs: seq<Entry>, baselineRuns: seq<Entry>): seq<Reason> {
    Map(PolicyProblems(env), PolicyIssues(input.policy))
    + FlatMap(ProblemsOf(env, "run"), Map(EntryRun, runs))
    + FlatMap(ProblemsOf(env, "baseline run"), Map(EntryRun, baselineRuns))
    + FlatMap(MismatchOf(env, input.release), Valid(runs))
  }

  function Candidates(release: string, runs: seq<Entry>): seq<Run> {
    Filter(IsBound(release), Valid(runs))
  }

  function EvidenceReasons(env: Env, input: Input, candidates: seq<Run>, baselines: seq<Run>): seq<Reason> {
    var rules := input.policy.rules;
    NoEvidenceReasons(env, input.release, candidates)
    + FlatMap(MissingOf(env, candidates), SortedStrings(input.requiredSuites))
    + FlatMap(RunReasonsOf(env, rules, baselines), candidates)
    + NewCriticalReasons(env, rules, FlatMap(NewFailuresOf(baselines), candidates))
    + FlatMap(MetricReasonOf(env, candidates), rules.metrics)
    + (if rules.boundary.Some? then BoundaryReasons(env, rules.boundary.value, candidates, input.requiredSuites)
      else [])
  }

  /** All reasons in the order in which they are found. */
  function AllReasons(env: Env, input: Input, runs: seq<Entry>, baselineRuns: seq<Entry>): seq<Reason> {
    InputReasons(env, input, runs, baselineRuns)
    + EvidenceReasons(env, input, Candidates(input.release, runs), Valid(baselineRuns))
  }

  /** The decision made from the indexed runs. */
  function DecisionFrom(env: Env, input: Input, runs: seq<Entry>, baselineRuns: seq<Entry>): Decision {
    var reasons := SortBy(ReasonOrder(), AllReasons(env, input, runs, baselineRuns));
    Decision(if reasons == [] then Certified else Blocked,
             input.release,
             PolicyRef(input.policy.name, input.policy.version, env.policyHash(input.policy)),
             SortedStrings(input.requiredSuites),
             Map(EntryRef, runs),
             Map(EntryRef, baselineRuns),
             Map(SummaryOf, Candidates(input.release, runs)),
             reasons)
  }

  function Decided(env: Env, input: Input): Decision {
    DecisionFrom(env, input, Indexed(env, input.runs), Indexed(env, input.baselineRuns))
  }
}
