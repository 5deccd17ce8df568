/** Evaluation runs and certification policies, and what makes them unusable.
    Floating-point numbers are exact reals plus the three special values. */
module CertificationModel {
  import opened Ordering
  import opened Text
  import opened Lists

  // ----- numbers -----

  datatype Float = NegInf | Finite(x: real) | PosInf | NaN

  function Rank(f: Float): int {
    match f
    case NegInf => 0
    case Finite(_) => 1
    case PosInf => 2
    case NaN => 3
  }

  function Magnitude(f: Float): real {
    if f.Finite? then f.x else 0.0
  }

  /** `total_cmp`: infinities at the ends, NaN above all. */
  function TotalCompare(a: Float, b: Float): Ordering {
    CompareInt(Rank(a), Rank(b)).Then(CompareReal(Magnitude(a), Magnitude(b)))
  }

  /** The order of `to_bits`: negative numbers above all others, descending. */
  function BitsRank(f: Float): int {
    match f
    case Finite(x) => if x >= 0.0 then 0 else 3
    case PosInf => 1
    case NaN => 2
    case NegInf => 4
  }

  function CompareBits(a: Float, b: Float): Ordering {
    var magnitude := CompareReal(Magnitude(a), Magnitude(b));
    CompareInt(BitsRank(a), BitsRank(b)).Then(if BitsRank(a) == 3 then magnitude.Reverse() else magnitude)
  }

  lemma FloatOrders()
    ensures IsTotalOrder(TotalCompare) && IsTotalOrder(CompareBits)
  {
    FloatOrder();
    BitOrder();
    hide TotalCompare, CompareBits;
  }

  lemma FloatOrder()
    ensures IsTotalOrder(TotalCompare)
  {
  }

  lemma BitOrder()
    ensures IsTotalOrder(CompareBits)
  {
  }

  /** `x >= min`; false when either is NaN, so a check fails closed. */
  predicate AtLeast(x: Float, min: Float) {
    !x.NaN? && !min.NaN? && TotalCompare(x, min) != Less
  }

  predicate AtMost(x: Float, max: Float) {
    !x.NaN? && !max.NaN? && TotalCompare(x, max) != Greater
  }

  /** The range `0.0..=1.0`. */
  predicate IsUnit(f: Float) {
    f.Finite? && 0.0 <= f.x <= 1.0
  }

  // ----- runs -----

  datatype Status = Pass | Fail | Errored | Skipped

  datatype Expect = Allow | Deny

  datatype CaseResult = CaseResult(
    id: string,
    critical: bool,
    status: Status,
    score: Option<Float>,
    metrics: map<string, Float>,
    durationMs: Option<nat>,
    expectation: Option<Expect>)

  predicate IsFailure(c: CaseResult) {
    c.status == Fail || c.status == Errored
  }

  datatype SuiteRef = SuiteRef(name: string, version: string)

  datatype EvaluatorRef = EvaluatorRef(name: string, version: string)

  datatype SourceKind = Junit | JsonFile | Braintrust | Langfuse | Native

  datatype RunSource = RunSource(kind: SourceKind, tool: Option<string>)

  datatype Run = Run(
    apiVersion: string,
    kind: string,
    runId: string,
    release: string,
    suite: SuiteRef,
    covers: seq<string>,
    dataset: Option<string>,
    evaluators: seq<EvaluatorRef>,
    source: RunSource,
    cases: seq<CaseResult>)

  // ----- orders -----

  function StatusRank(s: Status): int {
    match s
    case Pass => 0
    case Fail => 1
    case Errored => 2
    case Skipped => 3
  }

  function CaseId(c: CaseResult): string { c.id }

  function CaseStatus(c: CaseResult): int { StatusRank(c.status) }

  function CaseCritical(c: CaseResult): bool { c.critical }

  function CaseScore(c: CaseResult): seq<Float> { AsList(c.score) }

  function CaseDuration(c: CaseResult): seq<int> {
    if c.durationMs.Some? then [c.durationMs.value] else []
  }

  function CaseExpect(c: CaseResult): seq<bool> {
    if c.expectation.Some? then [c.expectation.value == Deny] else []
  }

  /** `None` sorts before every `Some`, as the empty list does. */
  function AsList<T>(o: Option<T>): seq<T> {
    if o.Some? then [o.value] else []
  }

  datatype Metric = Metric(key: string, value: Float)

  function MetricKey(m: Metric): string { m.key }

  function MetricValue(m: Metric): Float { m.value }

  function MetricsOf(m: map<string, Float>, keys: seq<string>): (r: seq<Metric>)
    requires forall k :: k in keys ==> k in m
    ensures |r| == |keys| && forall i :: 0 <= i < |r| ==> r[i] == Metric(keys[i], m[keys[i]])
  {
    if keys == [] then [] else [Metric(keys[0], m[keys[0]])] + MetricsOf(m, keys[1..])
  }

  /** The entries of a `BTreeMap` as its iterator gives them. */
  function CaseMetrics(c: CaseResult): seq<Metric> {
    MetricsOf(c.metrics, SortedStrings(c.metrics.Keys))
  }

  function MetricOrder(): (Metric, Metric) -> Ordering {
    ThenBy(By(MetricKey, CompareString), By(MetricValue, CompareBits))
  }

  /** Id first, then every other field. */
  function CaseOrder(): (CaseResult, CaseResult) -> Ordering {
    ThenBy(By(CaseId, CompareString), RestOrder())
  }

  function RestOrder(): (CaseResult, CaseResult) -> Ordering {
    ThenBy(By(CaseStatus, CompareInt),
           ThenBy(By(CaseCritical, CompareBool), ThenBy(By(CaseScore, SeqOrder(TotalCompare)),
      ThenBy(By(CaseDuration, SeqOrder(CompareInt)), ThenBy(By(CaseExpect, SeqOrder(CompareBool)),
        By(CaseMetrics, SeqOrder(MetricOrder())))))))
  }

  function EvaluatorName(e: EvaluatorRef): string { e.name }

  function EvaluatorVersion(e: EvaluatorRef): string { e.version }

  function EvaluatorOrder(): (EvaluatorRef, EvaluatorRef) -> Ordering {
    ThenBy(By(EvaluatorName, CompareString), By(EvaluatorVersion, CompareString))
  }

  // ----- validation -----

  const API_VERSION := "cloakpipe.co/v1alpha1"
  const LEGACY_API_VERSION := "cloakpipe.dev/v1alpha1"
  const RUN_KIND := "EvaluationRun"
  const POLICY_KIND := "CertificationPolicy"

  const ASSURANCE_SUITES: seq<string> := [
    "prompt_contract", "functional", "regression", "safety", "privacy", "tool_use", "performance", "cost", "trajectory",
    "authorization", "side_effect", "publisher_trust", "capability_diff", "adversarial", "grounding", "access_control",
    "freshness", "representative", "policy_static_analysis", "decision_replay"]

  predicate IsKnownApiVersion(v: string) {
    v == API_VERSION || v == LEGACY_API_VERSION
  }

  predicate IsAssuranceSuite(s: string) {
    s in ASSURANCE_SUITES
  }

  predicate IsLowerHexChar(c: char) {
    '0' <= c <= '9' || 'a' <= c <= 'f'
  }

  /** `sha256:` and 64 lower-case hexadecimal digits. */
  predicate IsReleaseHash(s: string) {
    |s| == 71 && s[..7] == "sha256:" && All(IsLowerHexChar, s[7..])
  }

  datatype Issue =
    | ApiVersion
    | WrongKind
    | RunIdEmpty
    | NotAReleaseHash(release: string)
    | SuiteIncomplete
    | NoCovers
    | UnknownCover(name: string)
    | CaseIdEmpty(index: nat)
    | DuplicateCaseId(index: nat, id: string)
    | ScoreNotFinite(index: nat)
    | MetricNotFinite(index: nat, key: string)
    | NameAndVersion
    | MinPassRate
    | MaxPassRateRegression
    | MinCoverage
    | MetricRuleNotFinite(index: nat)
    | NoBoundarySuites
    | UnknownBoundarySuite(name: string)
    | DuplicateBoundarySuite(name: string)
    | MinDenyRate
    | MinAllowRate
    | ValidityDays

  function When(c: bool, issue: Issue): seq<Issue> {
    if c then [issue] else []
  }

  function CoverIssues(name: string): seq<Issue> {
    When(!IsAssuranceSuite(name), UnknownCover(name))
  }

  function MetricIssues(i: nat): Metric -> seq<Issue> {
    (m: Metric) => When(!m.value.Finite?, MetricNotFinite(i, m.key))
  }

  /** The ids accepted into the set of seen ids before case `i`. */
  function IdsBefore(cases: seq<CaseResult>, i: nat): set<string>
    requires i <= |cases|
  {
    set j | 0 <= j < i && !IsBlank(cases[j].id) :: cases[j].id
  }

  function CaseIssues(cases: seq<CaseResult>, i: nat): seq<Issue>
    requires i < |cases|
  {
    var c := cases[i];
    (if IsBlank(c.id) then [CaseIdEmpty(i)] else When(c.id in IdsBefore(cases, i), DuplicateCaseId(i, c.id)))
    + When(c.score.Some? && !c.score.value.Finite?, ScoreNotFinite(i))
    + FlatMap(MetricIssues(i), CaseMetrics(c))
  }

  function AllCaseIssues(cases: seq<CaseResult>, n: nat): seq<Issue>
    requires n <= |cases|
    decreases n
  {
    if n == 0 then [] else AllCaseIssues(cases, n - 1) + CaseIssues(cases, n - 1)
  }

  function HeadIssues(r: Run): seq<Issue> {
    When(!IsKnownApiVersion(r.apiVersion), ApiVersion)
    + When(r.kind != RUN_KIND, WrongKind)
    + When(IsBlank(r.runId), RunIdEmpty)
    + When(!IsReleaseHash(r.release), NotAReleaseHash(r.release))
    + When(IsBlank(r.suite.name) || IsBlank(r.suite.version), SuiteIncomplete)
    + When(r.covers == [], NoCovers)
  }

  function RunIssues(r: Run): seq<Issue> {
    HeadIssues(r) + FlatMap(CoverIssues, r.covers) + AllCaseIssues(r.cases, |r.cases|)
  }

  method ValidateRun(r: Run) returns (issues: seq<Issue>)
    ensures issues == RunIssues(r)
  {
    hide IsAssuranceSuite, IsKnownApiVersion, IsReleaseHash, IsBlank, CoverIssues, AllCaseIssues;
    issues := When(!IsKnownApiVersion(r.apiVersion), ApiVersion);
    issues := issues + When(r.kind != RUN_KIND, WrongKind);
    issues := issues + When(IsBlank(r.runId), RunIdEmpty);
    issues := issues + When(!IsReleaseHash(r.release), NotAReleaseHash(r.release));
    issues := issues + When(IsBlank(r.suite.name) || IsBlank(r.suite.version), SuiteIncomplete);
    issues := issues + When(r.covers == [], NoCovers);
    assert issues == HeadIssues(r);
    issues := ValidateCovers(r.covers, issues);
    issues := ValidateCases(r, issues);
  }

  method ValidateCovers(covers: seq<string>, before: seq<Issue>) returns (issues: seq<Issue>)
    ensures issues == before + FlatMap(CoverIssues, covers)
  {
    hide IsAssuranceSuite;
    issues := before;
    for i := 0 to |covers|
      invariant issues == before + FlatMap(CoverIssues, covers[..i])
    {
      FlatMapNext(CoverIssues, covers, i);
      if !IsAssuranceSuite(covers[i]) {
        issues := issues + [UnknownCover(covers[i])];
      }
    }
    assert covers[..|covers|] == covers;
  }

  method ValidateCases(r: Run, before: seq<Issue>) returns (issues: seq<Issue>)
    ensures issues == before + AllCaseIssues(r.cases, |r.cases|)
  {
    hide *;
    var cases := r.cases;
    NoCasesNoIssues(cases);
    issues := before;
    var ids := {};
    for i := 0 to |cases|
      invariant ids == IdsBefore(cases, i)
      invariant issues == before + AllCaseIssues(cases, i)
    {
      AllCaseIssuesNext(cases, i);
      NextId(cases, i);
      var own := ValidateCase(cases, i, ids);
      issues := issues + own;
      ids := if IsBlank(cases[i].id) then ids else ids + {cases[i].id};
    }
  }

  method ValidateCase(cases: seq<CaseResult>, i: nat, ids: set<string>) returns (issues: seq<Issue>)
    requires i < |cases| && ids == IdsBefore(cases, i)
    ensures issues == CaseIssues(cases, i)
  {
    hide IsBlank, CaseMetrics, IdsBefore, MetricIssues, FlatMap;
    var c := cases[i];
    issues := [];
    if IsBlank(c.id) {
      issues := issues + [CaseIdEmpty(i)];
    } else if c.id in ids {
      issues := issues + [DuplicateCaseId(i, c.id)];
    }
    if c.score.Some? && !c.score.value.Finite? {
      issues := issues + [ScoreNotFinite(i)];
    }
    issues := ValidateMetrics(i, CaseMetrics(c), issues);
  }

  lemma NextId(cases: seq<CaseResult>, i: nat)
    requires i < |cases|
    ensures IdsBefore(cases, i + 1) == IdsBefore(cases, i) + (if IsBlank(cases[i].id) then {} else {cases[i].id})
  {
    hide IsBlank;
  }

  method ValidateMetrics(index: nat, metrics: seq<Metric>, before: seq<Issue>) returns (issues: seq<Issue>)
    ensures issues == before + FlatMap(MetricIssues(index), metrics)
  {
    issues := before;
    for i := 0 to |metrics|
      invariant issues == before + FlatMap(MetricIssues(index), metrics[..i])
    {
      FlatMapNext(MetricIssues(index), metrics, i);
      if !metrics[i].value.Finite? {
        issues := issues + [MetricNotFinite(index, metrics[i].key)];
      }
    }
    assert metrics[..|metrics|] == metrics;
  }

  // ----- what a usable run is -----

  predicate FiniteCase(c: CaseResult) {
    && (c.score.Some? ==> c.score.value.Finite?)
    && forall k :: k in c.metrics ==> c.metrics[k].Finite?
  }

  ghost predicate DistinctIds(cases: seq<CaseResult>) {
    forall i, j :: 0 <= i < j < |cases| ==> cases[i].id != cases[j].id
  }

  /** Something other than whitespace. */
  ghost predicate HasText(s: string) {
    exists i :: 0 <= i < |s| && !IsWhitespace(s[i])
  }

  ghost predicate IsHashText(s: string) {
    exists h: string :: s == "sha256:" + h && |h| == 64 && forall i :: 0 <= i < |h| ==> h[i] in HEX_DIGITS
  }

  ghost predicate IsRate(f: Float) {
    f.Finite? && 0.0 <= f.x && f.x <= 1.0
  }

  ghost predicate HasHead(r: Run) {
    && (r.apiVersion == "cloakpipe.co/v1alpha1" || r.apiVersion == "cloakpipe.dev/v1alpha1")
    && r.kind == "EvaluationRun" && HasText(r.runId) && IsHashText(r.release)
    && HasText(r.suite.name) && HasText(r.suite.version) && r.covers != []
  }

  ghost predicate IsUsable(r: Run) {
    && HasHead(r)
    && (forall c :: c in r.covers ==> c in ASSURANCE_SUITES)
    && DistinctIds(r.cases)
    && forall c :: c in r.cases ==> HasText(c.id) && FiniteCase(c)
  }

  lemma NoMetricIssues(i: nat, c: CaseResult)
    ensures FlatMap(MetricIssues(i), CaseMetrics(c)) == [] <==> forall k :: k in c.metrics ==> c.metrics[k].Finite?
  {
    var keys, ms := SortedStrings(c.metrics.Keys), CaseMetrics(c);
    FlatMapEmpty(MetricIssues(i), ms);
    forall k | k in c.metrics ensures Metric(k, c.metrics[k]) in ms {
      var j :| 0 <= j < |keys| && keys[j] == k;
      assert ms[j] == Metric(k, c.metrics[k]);
    }
    if FlatMap(MetricIssues(i), ms) == [] {
      forall k | k in c.metrics ensures c.metrics[k].Finite? {
        assert MetricIssues(i)(Metric(k, c.metrics[k])) == [];
      }
    }
  }

  ghost predicate GoodCase(cases: seq<CaseResult>, i: nat)
    requires i < |cases|
  {
    && !IsBlank(cases[i].id) && FiniteCase(cases[i])
    && forall j :: 0 <= j < i ==> IsBlank(cases[j].id) || cases[j].id != cases[i].id
  }

  lemma NoCaseIssues(cases: seq<CaseResult>, i: nat)
    requires i < |cases|
    ensures CaseIssues(cases, i) == [] <==> GoodCase(cases, i)
  {
    hide IsBlank, FlatMap, CaseMetrics;
    NoMetricIssues(i, cases[i]);
  }

  lemma {:induction false} NoAllCaseIssues(cases: seq<CaseResult>, n: nat)
    requires n <= |cases|
    ensures AllCaseIssues(cases, n) == [] <==> forall i :: 0 <= i < n ==> GoodCase(cases, i)
  {
    hide *;
    NoCasesNoIssues(cases);
    if n > 0 {
      AllCaseIssuesNext(cases, n - 1);
      NoAllCaseIssues(cases, n - 1);
      NoCaseIssues(cases, n - 1);
    }
  }

  lemma NoCasesNoIssues(cases: seq<CaseResult>)
    ensures AllCaseIssues(cases, 0) == [] && IdsBefore(cases, 0) == {}
  {
  }

  lemma AllCaseIssuesNext(cases: seq<CaseResult>, n: nat)
    requires n < |cases|
    ensures AllCaseIssues(cases, n + 1) == AllCaseIssues(cases, n) + CaseIssues(cases, n)
  {
    hide CaseIssues;
  }

  lemma GoodCasesDistinct(cases: seq<CaseResult>)
    ensures (forall i :: 0 <= i < |cases| ==> GoodCase(cases, i)) <==>
            DistinctIds(cases) && forall c :: c in cases ==> HasText(c.id) && FiniteCase(c)
  {
    forall s: string ensures IsBlank(s) <==> !HasText(s) {
      BlankIs(s);
    }
    hide IsBlank, FiniteCase, HasText;
    if forall i :: 0 <= i < |cases| ==> GoodCase(cases, i) {
      forall i, j | 0 <= i < j < |cases| ensures cases[i].id != cases[j].id {
        assert GoodCase(cases, i) && GoodCase(cases, j);
      }
      forall c | c in cases ensures HasText(c.id) && FiniteCase(c) {
        var i :| 0 <= i < |cases| && cases[i] == c;
        assert GoodCase(cases, i);
      }
    }
  }

  lemma NoHeadIssues(r: Run)
    ensures HeadIssues(r) == [] <==> HasHead(r)
  {
    BlankIs(r.runId);
    BlankIs(r.suite.name);
    BlankIs(r.suite.version);
    ReleaseHashIs(r.release);
    hide IsBlank, IsReleaseHash, IsHashText, HasText;
  }

  lemma BlankIs(s: string)
    ensures IsBlank(s) <==> !HasText(s)
  {
    hide IsWhitespace;
  }

  lemma ReleaseHashIs(s: string)
    ensures IsReleaseHash(s) <==> IsHashText(s)
  {
    forall c: char ensures IsLowerHexChar(c) <==> c in HEX_DIGITS {
      HexDigitIs(c);
    }
    hide IsLowerHexChar;
    if IsReleaseHash(s) {
      assert s == "sha256:" + s[7..];
    }
    if h: string :| s == "sha256:" + h && |h| == 64 && forall i :: 0 <= i < |h| ==> h[i] in HEX_DIGITS {
      assert s[..7] == "sha256:" && s[7..] == h;
    }
  }

  lemma HexDigitIs(c: char)
    ensures IsLowerHexChar(c) <==> c in HEX_DIGITS
  {
    if IsLowerHexChar(c) {
      var i := if c <= '9' then c as int - '0' as int else c as int - 'a' as int + 10;
      assert HEX_DIGITS[i] == c;
    }
  }

  lemma NoCoverIssues(covers: seq<string>)
    ensures FlatMap(CoverIssues, covers) == [] <==> forall c :: c in covers ==> c in ASSURANCE_SUITES
  {
    FlatMapEmpty(CoverIssues, covers);
    forall c | c in covers ensures CoverIssues(c) == [] <==> c in ASSURANCE_SUITES {}
  }

  /** A run has no issues exactly when it is usable as evidence. */
  lemma NoRunIssues(r: Run)
    ensures RunIssues(r) == [] <==> IsUsable(r)
  {
    hide HeadIssues, HasHead, CoverIssues, AllCaseIssues, HasText, FiniteCase, DistinctIds, GoodCase;
    NoHeadIssues(r);
    NoCoverIssues(r.covers);
    NoAllCaseIssues(r.cases, |r.cases|);
    GoodCasesDistinct(r.cases);
  }

  // ----- which issues are reported -----

  /** What each issue says of the run. */
  ghost predicate HasIssue(r: Run, issue: Issue) {
    match issue
    case ApiVersion => r.apiVersion != "cloakpipe.co/v1alpha1" && r.apiVersion != "cloakpipe.dev/v1alpha1"
    case WrongKind => r.kind != "EvaluationRun"
    case RunIdEmpty => !HasText(r.runId)
    case NotAReleaseHash(release) => release == r.release && !IsHashText(release)
    case SuiteIncomplete => !HasText(r.suite.name) || !HasText(r.suite.version)
    case NoCovers => r.covers == []
    case UnknownCover(name) => name in r.covers && name !in ASSURANCE_SUITES
    case _ => HasCaseIssue(r.cases, |r.cases|, issue)
  }

  ghost predicate HasCaseIssue(cases: seq<CaseResult>, n: nat, issue: Issue)
    requires n <= |cases|
  {
    match issue
    case CaseIdEmpty(i) => i < n && !HasText(cases[i].id)
    case DuplicateCaseId(i, id) =>
      i < n && id == cases[i].id && HasText(id) && exists j :: 0 <= j < i && cases[j].id == id
    case ScoreNotFinite(i) => i < n && cases[i].score.Some? && !cases[i].score.value.Finite?
    case MetricNotFinite(i, key) => i < n && key in cases[i].metrics && !cases[i].metrics[key].Finite?
    case _ => false
  }

  lemma MetricIssueIs(i: nat, c: CaseResult, issue: Issue)
    ensures issue in FlatMap(MetricIssues(i), CaseMetrics(c)) <==>
            issue.MetricNotFinite? && issue.index == i && issue.key in c.metrics && !c.metrics[issue.key].Finite?
  {
    hide FlatMap;
    var keys, ms := SortedStrings(c.metrics.Keys), CaseMetrics(c);
    FlatMapMember(MetricIssues(i), ms, issue);
    if issue.MetricNotFinite? && issue.index == i && issue.key in c.metrics && !c.metrics[issue.key].Finite? {
      var j :| 0 <= j < |keys| && keys[j] == issue.key;
      assert ms[j] == Metric(issue.key, c.metrics[issue.key]) && issue in MetricIssues(i)(ms[j]);
    }
  }

  lemma CaseIssueParts(cases: seq<CaseResult>, i: nat, issue: Issue)
    requires i < |cases|
    ensures issue in CaseIssues(cases, i) <==>
            (issue == CaseIdEmpty(i) && IsBlank(cases[i].id))
            || (issue == DuplicateCaseId(i, cases[i].id) && !IsBlank(cases[i].id) && cases[i].id in IdsBefore(cases, i))
            || (issue == ScoreNotFinite(i) && cases[i].score.Some? && !cases[i].score.value.Finite?)
            || issue in FlatMap(MetricIssues(i), CaseMetrics(cases[i]))
  {
    hide IsBlank, FlatMap, CaseMetrics, IdsBefore;
  }

  lemma CaseIssueIs(cases: seq<CaseResult>, i: nat, issue: Issue)
    requires i < |cases|
    ensures issue in CaseIssues(cases, i) <==> HasCaseIssue(cases, i + 1, issue) && !HasCaseIssue(cases, i, issue)
  {
    hide IsBlank, HasText, FlatMap, CaseMetrics, CaseIssues;
    CaseIssueParts(cases, i, issue);
    BlankIs(cases[i].id);
    forall j | 0 <= j < i ensures IsBlank(cases[j].id) <==> !HasText(cases[j].id) {
      BlankIs(cases[j].id);
    }
    MetricIssueIs(i, cases[i], issue);
  }

  lemma {:induction false} AllCaseIssueIs(cases: seq<CaseResult>, n: nat, issue: Issue)
    requires n <= |cases|
    ensures issue in AllCaseIssues(cases, n) <==> HasCaseIssue(cases, n, issue)
  {
    hide CaseIssues, HasText;
    if n > 0 {
      AllCaseIssueIs(cases, n - 1, issue);
      CaseIssueIs(cases, n - 1, issue);
    }
  }

  lemma CoverIssueIs(covers: seq<string>, issue: Issue)
    ensures issue in FlatMap(CoverIssues, covers) <==>
            issue.UnknownCover? && issue.name in covers && issue.name !in ASSURANCE_SUITES
  {
    hide FlatMap;
    FlatMapMember(CoverIssues, covers, issue);
    if issue.UnknownCover? && issue.name in covers && issue.name !in ASSURANCE_SUITES {
      assert issue in CoverIssues(issue.name);
    }
  }

  lemma HeadIssueIs(r: Run, issue: Issue)
    ensures issue in HeadIssues(r) <==>
            (issue.ApiVersion? || issue.WrongKind? || issue.RunIdEmpty? || issue.NotAReleaseHash?
              || issue.SuiteIncomplete?
             || issue.NoCovers?)
            && HasIssue(r, issue)
  {
    BlankIs(r.runId);
    BlankIs(r.suite.name);
    BlankIs(r.suite.version);
    ReleaseHashIs(r.release);
    hide IsBlank, IsReleaseHash, IsHashText, HasText, HasCaseIssue;
  }

  /** An issue is reported exactly when it is one of the run's. */
  lemma RunIssueIs(r: Run, issue: Issue)
    ensures issue in RunIssues(r) <==> HasIssue(r, issue)
  {
    HeadIssueIs(r, issue);
    CoverIssueIs(r.covers, issue);
    AllCaseIssueIs(r.cases, |r.cases|, issue);
    hide HeadIssues, FlatMap, AllCaseIssues, HasText, IsHashText;
  }

  // ----- policies -----

  datatype Aggregate = Mean | P50 | P95 | Min | Max

  datatype Comparison = Lte | Gte

  datatype MetricRule = MetricRule(metric: string, aggregate: Aggregate, op: Comparison, value: Float,
                                   suite: Option<string>)

  datatype BoundaryRule = BoundaryRule(suites: seq<string>, minDenyRate: Float, minAllowRate: Float)

  datatype Rules = Rules(
    maxNewCriticalFailures: nat,
    blockPersistingCriticalFailures: bool,
    minPassRate: Option<Float>,
    maxPassRateRegression: Option<Float>,
    minCoverage: Float,
    metrics: seq<MetricRule>,
    boundary: Option<BoundaryRule>)

  datatype Policy = Policy(apiVersion: string, kind: string, name: string, version: string, rules: Rules,
                           validityDays: nat)

  function RuleIssues(metrics: seq<MetricRule>, n: nat): seq<Issue>
    requires n <= |metrics|
  {
    if n == 0 then []
    else RuleIssues(metrics, n - 1) + When(!metrics[n - 1].value.Finite?, MetricRuleNotFinite(n - 1))
  }

  function SuiteIssues(suites: seq<string>, n: nat): seq<Issue>
    requires n <= |suites|
  {
    if n == 0 then []
    else
      var s := suites[n - 1];
      SuiteIssues(suites, n - 1)
      + (if !IsAssuranceSuite(s) then [UnknownBoundarySuite(s)]
         else When(s in suites[..n - 1], DuplicateBoundarySuite(s)))
  }

  function BoundaryIssues(b: BoundaryRule): seq<Issue> {
    When(b.suites == [], NoBoundarySuites)
    + SuiteIssues(b.suites, |b.suites|)
    + When(!IsUnit(b.minDenyRate), MinDenyRate)
    + When(!IsUnit(b.minAllowRate), MinAllowRate)
  }

  /** The issues of a policy that are not about its metric and boundary rules. */
  function OwnIssues(p: Policy): seq<Issue> {
    When(!IsKnownApiVersion(p.apiVersion), ApiVersion)
    + When(p.kind != POLICY_KIND, WrongKind)
    + When(IsBlank(p.name) || IsBlank(p.version), NameAndVersion)
    + When(p.rules.minPassRate.Some? && !IsUnit(p.rules.minPassRate.value), MinPassRate)
    + When(p.rules.maxPassRateRegression.Some? && !IsUnit(p.rules.maxPassRateRegression.value), MaxPassRateRegression)
    + When(!IsUnit(p.rules.minCoverage), MinCoverage)
  }

  function PolicyIssues(p: Policy): seq<Issue> {
    OwnIssues(p)
    + RuleIssues(p.rules.metrics, |p.rules.metrics|)
    + (if p.rules.boundary.Some? then BoundaryIssues(p.rules.boundary.value) else [])
    + When(p.validityDays == 0, ValidityDays)
  }

  ghost predicate IsUsableBoundary(b: BoundaryRule) {
    && b.suites != [] && (forall s :: s in b.suites ==> s in ASSURANCE_SUITES)
    && (forall i, j :: 0 <= i < j < |b.suites| ==> b.suites[i] != b.suites[j])
    && IsRate(b.minDenyRate) && IsRate(b.minAllowRate)
  }

  ghost predicate IsUsablePolicy(p: Policy) {
    && (p.apiVersion == "cloakpipe.co/v1alpha1" || p.apiVersion == "cloakpipe.dev/v1alpha1")
    && p.kind == "CertificationPolicy" && HasText(p.name) && HasText(p.version)
    && (p.rules.minPassRate.Some? ==> IsRate(p.rules.minPassRate.value))
    && (p.rules.maxPassRateRegression.Some? ==> IsRate(p.rules.maxPassRateRegression.value))
    && IsRate(p.rules.minCoverage)
    && (forall m :: m in p.rules.metrics ==> m.value.Finite?)
    && (p.rules.boundary.Some? ==> IsUsableBoundary(p.rules.boundary.value))
    && p.validityDays != 0
  }

  lemma NextRuleIssue(metrics: seq<MetricRule>, n: nat)
    requires 0 < n <= |metrics|
    ensures RuleIssues(metrics, n) == [] <==> RuleIssues(metrics, n - 1) == [] && metrics[n - 1].value.Finite?
  {
  }

  lemma NoRules(metrics: seq<MetricRule>)
    ensures RuleIssues(metrics, 0) == []
  {
  }

  lemma {:induction false} NoRuleIssues(metrics: seq<MetricRule>, n: nat)
    requires n <= |metrics|
    ensures RuleIssues(metrics, n) == [] <==> forall i :: 0 <= i < n ==> metrics[i].value.Finite?
  {
    hide RuleIssues, When;
    if n == 0 {
      NoRules(metrics);
    } else {
      NoRuleIssues(metrics, n - 1);
      NextRuleIssue(metrics, n);
    }
  }

  ghost predicate GoodSuite(suites: seq<string>, i: nat)
    requires i < |suites|
  {
    IsAssuranceSuite(suites[i]) && suites[i] !in suites[..i]
  }

  lemma {:induction false} NoSuiteIssues(suites: seq<string>, n: nat)
    requires n <= |suites|
    ensures SuiteIssues(suites, n) == [] <==> forall i :: 0 <= i < n ==> GoodSuite(suites, i)
  {
    if n > 0 {
      LastSuiteIssue(suites, n);
      hide *;
      NoSuiteIssues(suites, n - 1);
    } else {
      hide IsAssuranceSuite, GoodSuite;
    }
  }

  lemma LastSuiteIssue(suites: seq<string>, n: nat)
    requires 0 < n <= |suites|
    ensures SuiteIssues(suites, n) == [] <==> SuiteIssues(suites, n - 1) == [] && GoodSuite(suites, n - 1)
  {
    hide IsAssuranceSuite;
  }

  lemma NoBoundaryIssues(b: BoundaryRule)
    ensures BoundaryIssues(b) == [] <==> IsUsableBoundary(b)
  {
    UnitIs(b.minDenyRate);
    UnitIs(b.minAllowRate);
    hide IsUnit, IsRate, SuiteIssues;
    NoSuiteIssues(b.suites, |b.suites|);
    if forall i :: 0 <= i < |b.suites| ==> GoodSuite(b.suites, i) {
      forall i, j | 0 <= i < j < |b.suites| ensures b.suites[i] != b.suites[j] {
        assert GoodSuite(b.suites, j) && b.suites[..j][i] == b.suites[i];
      }
      forall s | s in b.suites ensures s in ASSURANCE_SUITES {
        var i :| 0 <= i < |b.suites| && b.suites[i] == s;
        assert GoodSuite(b.suites, i);
      }
    }
  }

  lemma UnitIs(f: Float)
    ensures IsUnit(f) <==> IsRate(f)
  {
  }

  /** A policy has no issues exactly when it is usable. */
  lemma NoPolicyIssues(p: Policy)
    ensures PolicyIssues(p) == [] <==> IsUsablePolicy(p)
  {
    BlankIs(p.name);
    BlankIs(p.version);
    forall f: Float ensures IsUnit(f) <==> IsRate(f) {}
    hide IsBlank, HasText, IsUnit, IsRate, RuleIssues, BoundaryIssues, IsUsableBoundary;
    NoRuleIssues(p.rules.metrics, |p.rules.metrics|);
    if p.rules.boundary.Some? {
      NoBoundaryIssues(p.rules.boundary.value);
    }
  }

  ghost predicate HasBoundaryIssue(b: BoundaryRule, issue: Issue) {
    match issue
    case NoBoundarySuites => b.suites == []
    case UnknownBoundarySuite(name) => name in b.suites && name !in ASSURANCE_SUITES
    case DuplicateBoundarySuite(name) =>
      name in ASSURANCE_SUITES && exists i, j :: 0 <= i < j < |b.suites| && b.suites[i] == b.suites[j] == name
    case MinDenyRate => !IsRate(b.minDenyRate)
    case MinAllowRate => !IsRate(b.minAllowRate)
    case _ => false
  }

  /** What each issue says of the policy. */
  ghost predicate HasPolicyIssue(p: Policy, issue: Issue) {
    match issue
    case ApiVersion => p.apiVersion != "cloakpipe.co/v1alpha1" && p.apiVersion != "cloakpipe.dev/v1alpha1"
    case WrongKind => p.kind != "CertificationPolicy"
    case NameAndVersion => !HasText(p.name) || !HasText(p.version)
    case MinPassRate => p.rules.minPassRate.Some? && !IsRate(p.rules.minPassRate.value)
    case MaxPassRateRegression => p.rules.maxPassRateRegression.Some? && !IsRate(p.rules.maxPassRateRegression.value)
    case MinCoverage => !IsRate(p.rules.minCoverage)
    case MetricRuleNotFinite(i) => i < |p.rules.metrics| && !p.rules.metrics[i].value.Finite?
    case ValidityDays => p.validityDays == 0
    case _ => p.rules.boundary.Some? && HasBoundaryIssue(p.rules.boundary.value, issue)
  }

  lemma {:induction false} RuleIssueIs(metrics: seq<MetricRule>, n: nat, issue: Issue)
    requires n <= |metrics|
    ensures issue in RuleIssues(metrics, n) <==>
            issue.MetricRuleNotFinite? && issue.index < n && !metrics[issue.index].value.Finite?
  {
    if n > 0 {
      RuleIssueIs(metrics, n - 1, issue);
    }
  }

  lemma {:induction false} SuiteIssueIs(suites: seq<string>, n: nat, issue: Issue)
    requires n <= |suites|
    ensures issue in SuiteIssues(suites, n) <==>
            (issue.UnknownBoundarySuite? && issue.name in suites[..n] && issue.name !in ASSURANCE_SUITES)
            || (issue.DuplicateBoundarySuite? && issue.name in ASSURANCE_SUITES
                && exists j :: 0 <= j < n && suites[j] == issue.name && issue.name in suites[..j])
  {
    if n > 0 {
      SuiteIssueIs(suites, n - 1, issue);
      assert forall j :: 0 <= j < n ==> suites[..n][j] == suites[j];
      assert suites[..n] == suites[..n - 1] + [suites[n - 1]];
      assert SuiteIssues(suites, n) == SuiteIssues(suites, n - 1)
        + (if !IsAssuranceSuite(suites[n - 1]) then [UnknownBoundarySuite(suites[n - 1])]
           else When(suites[n - 1] in suites[..n - 1], DuplicateBoundarySuite(suites[n - 1])));
      hide SuiteIssues;
    }
  }

  lemma TwiceListed(suites: seq<string>, name: string)
    ensures (exists j :: 0 <= j < |suites| && suites[j] == name && name in suites[..j]) <==>
            exists i, j :: 0 <= i < j < |suites| && suites[i] == suites[j] == name
  {
    if j :| 0 <= j < |suites| && suites[j] == name && name in suites[..j] {
      var i :| 0 <= i < j && suites[..j][i] == name;
      assert suites[i] == suites[j] == name;
    }
    if i, j :| 0 <= i < j < |suites| && suites[i] == suites[j] == name {
      assert suites[..j][i] == name;
    }
  }

  lemma BoundaryIssueParts(b: BoundaryRule, issue: Issue)
    ensures issue in BoundaryIssues(b) <==>
            (issue == NoBoundarySuites && b.suites == []) || issue in SuiteIssues(b.suites, |b.suites|)
            || (issue == MinDenyRate && !IsUnit(b.minDenyRate)) || (issue == MinAllowRate && !IsUnit(b.minAllowRate))
  {
    hide SuiteIssues, IsUnit;
  }

  lemma BoundaryIssueIs(b: BoundaryRule, issue: Issue)
    ensures issue in BoundaryIssues(b) <==> HasBoundaryIssue(b, issue)
  {
    hide BoundaryIssues, SuiteIssues, IsUnit, IsRate;
    BoundaryIssueParts(b, issue);
    SuiteIssueIs(b.suites, |b.suites|, issue);
    assert b.suites[..|b.suites|] == b.suites;
    if issue.DuplicateBoundarySuite? {
      TwiceListed(b.suites, issue.name);
    }
    UnitIs(b.minDenyRate);
    UnitIs(b.minAllowRate);
  }

  lemma OwnIssueParts(p: Policy, issue: Issue)
    ensures issue in OwnIssues(p) <==>
            (issue == ApiVersion && !IsKnownApiVersion(p.apiVersion)) || (issue == WrongKind && p.kind != POLICY_KIND)
            || (issue == NameAndVersion && (IsBlank(p.name) || IsBlank(p.version)))
            || (issue == MinPassRate && p.rules.minPassRate.Some? && !IsUnit(p.rules.minPassRate.value))
            || (issue == MaxPassRateRegression && p.rules.maxPassRateRegression.Some?
                && !IsUnit(p.rules.maxPassRateRegression.value))
            || (issue == MinCoverage && !IsUnit(p.rules.minCoverage))
  {
    hide IsBlank, IsUnit, IsKnownApiVersion;
  }

  lemma OwnIssueIs(p: Policy, issue: Issue)
    ensures issue in OwnIssues(p) <==>
            (issue.ApiVersion? || issue.WrongKind? || issue.NameAndVersion? || issue.MinPassRate?
             || issue.MaxPassRateRegression? || issue.MinCoverage?)
            && HasPolicyIssue(p, issue)
  {
    hide OwnIssues, IsBlank, HasText, HasBoundaryIssue;
    OwnIssueParts(p, issue);
    BlankIs(p.name);
    BlankIs(p.version);
    forall f: Float ensures IsUnit(f) <==> IsRate(f) {}
    hide IsUnit, IsRate;
  }

  lemma PolicyIssueParts(p: Policy, issue: Issue)
    ensures issue in PolicyIssues(p) <==>
            issue in OwnIssues(p) || issue in RuleIssues(p.rules.metrics, |p.rules.metrics|)
            || (p.rules.boundary.Some? && issue in BoundaryIssues(p.rules.boundary.value))
            || (issue == ValidityDays && p.validityDays == 0)
  {
    hide IsBlank, IsUnit, IsKnownApiVersion, RuleIssues, BoundaryIssues;
    assert PolicyIssues(p) == OwnIssues(p) + RuleIssues(p.rules.metrics, |p.rules.metrics|)
      + (if p.rules.boundary.Some? then BoundaryIssues(p.rules.boundary.value) else [])
      + When(p.validityDays == 0, ValidityDays);
  }

  /** An issue is reported exactly when it is one of the policy's. */
  lemma PolicyIssueIs(p: Policy, issue: Issue)
    ensures issue in PolicyIssues(p) <==> HasPolicyIssue(p, issue)
  {
    PolicyIssueParts(p, issue);
    OwnIssueIs(p, issue);
    RuleIssueIs(p.rules.metrics, |p.rules.metrics|, issue);
    if p.rules.boundary.Some? {
      BoundaryIssueIs(p.rules.boundary.value, issue);
    }
    hide OwnIssues, PolicyIssues, HasText, IsRate, RuleIssues, BoundaryIssues;
  }

  method ValidatePolicy(p: Policy) returns (issues: seq<Issue>)
    ensures issues == PolicyIssues(p)
  {
    hide IsKnownApiVersion, IsBlank, IsUnit, IsAssuranceSuite;
    var rules := p.rules;
    issues := When(!IsKnownApiVersion(p.apiVersion), ApiVersion)
      + When(p.kind != POLICY_KIND, WrongKind)
      + When(IsBlank(p.name) || IsBlank(p.version), NameAndVersion)
      + When(rules.minPassRate.Some? && !IsUnit(rules.minPassRate.value), MinPassRate)
      + When(rules.maxPassRateRegression.Some? && !IsUnit(rules.maxPassRateRegression.value), MaxPassRateRegression)
      + When(!IsUnit(rules.minCoverage), MinCoverage);
    issues := ValidateRules(rules, issues);
    if rules.boundary.Some? {
      var own := ValidateBoundary(rules.boundary.value);
      issues := issues + own;
    }
    issues := issues + When(p.validityDays == 0, ValidityDays);
  }

  method ValidateRules(rules: Rules, before: seq<Issue>) returns (issues: seq<Issue>)
    ensures issues == before + RuleIssues(rules.metrics, |rules.metrics|)
  {
    var metrics := rules.metrics;
    issues := before;
    for i := 0 to |metrics|
      invariant issues == before + RuleIssues(metrics, i)
    {
      if !metrics[i].value.Finite? {
        issues := issues + [MetricRuleNotFinite(i)];
      }
    }
  }

  method ValidateBoundary(b: BoundaryRule) returns (issues: seq<Issue>)
    ensures issues == BoundaryIssues(b)
  {
    hide IsAssuranceSuite, IsUnit;
    var start := When(b.suites == [], NoBoundarySuites);
    issues := start;
    var seen := {};
    for i := 0 to |b.suites|
      invariant seen == set s | s in b.suites[..i] && IsAssuranceSuite(s)
      invariant issues == start + SuiteIssues(b.suites, i)
    {
      var s := b.suites[i];
      assert b.suites[..i + 1] == b.suites[..i] + [s];
      if !IsAssuranceSuite(s) {
        issues := issues + [UnknownBoundarySuite(s)];
      } else if s in seen {
        issues := issues + [DuplicateBoundarySuite(s)];
      } else {
        seen := seen + {s};
      }
    }
    issues := issues + When(!IsUnit(b.minDenyRate), MinDenyRate) + When(!IsUnit(b.minAllowRate), MinAllowRate);
  }
}
