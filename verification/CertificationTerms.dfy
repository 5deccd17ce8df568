/** The words of the certification contract, said over runs and cases alone: nothing
    here is used to decide. */
module CertificationTerms {
  import opened Text
  import opened Lists
  import opened CertificationModel

  // ----- one run -----

  function With(s: Status): CaseResult -> bool {
    (c: CaseResult) => c.status == s
  }

  function NotSkipped(): CaseResult -> bool {
    (c: CaseResult) => c.status != Skipped
  }

  /** The executed cases. */
  function Ran(r: Run): nat {
    Count(NotSkipped(), r.cases)
  }

  function PassRate(r: Run): real {
    if Ran(r) == 0 then 0.0 else Count(With(Pass), r.cases) as real / Ran(r) as real
  }

  function Coverage(r: Run): real {
    if r.cases == [] then 0.0 else Ran(r) as real / |r.cases| as real
  }

  /** The cases labelled with an expectation, and those of them that passed. */
  function Expecting(e: Expect): CaseResult -> bool {
    (c: CaseResult) => c.expectation.Some? && c.expectation.value == e
  }

  function Meeting(e: Expect): CaseResult -> bool {
    (c: CaseResult) => c.expectation.Some? && c.expectation.value == e && c.status == Pass
  }

  // ----- failures and the baseline -----

  predicate Fails(c: CaseResult) {
    c.status == Fail || c.status == Errored
  }

  /** The first baseline run of the suite. */
  ghost predicate IsBaseline(baselines: seq<Run>, suite: string, b: Run) {
    exists i :: 0 <= i < |baselines| && baselines[i] == b && b.suite.name == suite
      && forall j :: 0 <= j < i ==> baselines[j].suite.name != suite
  }

  /** The baseline of the run's suite fails a case with this id. */
  ghost predicate FailedBefore(baselines: seq<Run>, r: Run, id: string) {
    exists b, d :: IsBaseline(baselines, r.suite.name, b) && d in b.cases && d.id == id && Fails(d)
  }

  ghost predicate IsNew(baselines: seq<Run>, r: Run, c: CaseResult) {
    c.critical && Fails(c) && !FailedBefore(baselines, r, c.id)
  }

  ghost predicate IsPersisting(baselines: seq<Run>, r: Run, c: CaseResult) {
    c.critical && Fails(c) && FailedBefore(baselines, r, c.id)
  }

  ghost function NewIn(baselines: seq<Run>, r: Run): CaseResult -> bool {
    (c: CaseResult) => IsNew(baselines, r, c)
  }

  /** The new critical failures of all runs. */
  ghost function NewFailures(baselines: seq<Run>, runs: seq<Run>): nat {
    if runs == [] then 0 else Count(NewIn(baselines, runs[0]), runs[0].cases) + NewFailures(baselines, runs[1..])
  }

  // ----- thresholds -----

  /** Not at least `min`: an undefined minimum is never reached. */
  predicate TooLow(x: real, min: Float) {
    match min
    case Finite(m) => x < m
    case NegInf => false
    case PosInf => true
    case NaN => true
  }

  predicate TooHigh(x: real, max: Float) {
    match max
    case Finite(m) => x > m
    case NegInf => true
    case PosInf => false
    case NaN => true
  }

  // ----- metrics -----

  /** The metric's value, if the case was executed and carries it. */
  function CaseNumber(metric: string): CaseResult -> seq<real> {
    (c: CaseResult) =>
      if c.status == Skipped || metric !in c.metrics || !c.metrics[metric].Finite? then [] else [c.metrics[metric].x]
  }

  function RunNumbers(rule: MetricRule): Run -> seq<real> {
    (r: Run) => if rule.suite == None || rule.suite == Some(r.suite.name) then FlatMap(CaseNumber(rule.metric), r.cases)
                else []
  }

  function Numbers(rule: MetricRule, runs: seq<Run>): seq<real> {
    FlatMap(RunNumbers(rule), runs)
  }

  function UpTo(x: real): real -> bool {
    (y: real) => y <= x
  }

  function Under(x: real): real -> bool {
    (y: real) => y < x
  }

  function Total(values: seq<real>): real {
    if values == [] then 0.0 else values[0] + Total(values[1..])
  }

  /** At least pct% of the values are at or below `x`, and fewer than pct% below. */
  ghost predicate IsPercentile(pct: nat, values: seq<real>, x: real) {
    && x in values
    && 100 * Count(UpTo(x), values) >= pct * |values|
    && 100 * Count(Under(x), values) < pct * |values|
  }

  ghost predicate IsAggregate(a: Aggregate, values: seq<real>, x: real) {
    && values != []
    && match a
       case Mean => x * |values| as real == Total(values)
       case P50 => IsPercentile(50, values, x)
       case P95 => IsPercentile(95, values, x)
       case Min => x in values && forall y :: y in values ==> x <= y
       case Max => x in values && forall y :: y in values ==> y <= x
  }

  /** The rule is violated by an aggregate of `x`. */
  predicate Violates(rule: MetricRule, x: real) {
    match rule.op
    case Lte => TooHigh(x, rule.value)
    case Gte => TooLow(x, rule.value)
  }
}
