/** In which order a decision lists its reasons and runs, and what else it shows. */
module CertificationListing {
  import opened Ordering
  import opened Text
  import opened Lists
  import opened CertificationModel
  import opened Certification
  import opened CertificationTerms
  import opened CertificationMeaning
  import opened CertificationOrder
  import opened CertificationReports

  const CODES := [
    InvalidInput, ReleaseMismatch, NoEvidence, MissingSuite, NoCases, NewCriticalFailure, PersistingCriticalFailure,
    CoverageBelowMinimum, PassRateBelowMinimum, PassRateRegression, MetricThreshold, UnderBlocking, OverRefusal,
    BoundaryIncomplete]

  ghost predicate CodeBefore(a: ReasonCode, b: ReasonCode) {
    exists i, j :: 0 <= i < j < |CODES| && CODES[i] == a && CODES[j] == b
  }

  /** Absent first. */
  ghost predicate MaybeBefore(a: Option<string>, b: Option<string>) {
    b.Some? && (a.None? || IsBefore(a.value, b.value))
  }

  /** By code, then suite, then case, then message. */
  ghost predicate ReasonBefore(a: Reason, b: Reason) {
    || CodeBefore(a.code, b.code)
    || (a.code == b.code &&
        (|| MaybeBefore(a.suite, b.suite)
         || (a.suite == b.suite &&
             (MaybeBefore(a.caseId, b.caseId) || (a.caseId == b.caseId && IsBefore(a.message, b.message))))))
  }

  lemma CodeRanks(a: ReasonCode, b: ReasonCode)
    requires CodeBefore(a, b)
    ensures CodeRank(a) < CodeRank(b)
  {
    var i, j :| 0 <= i < j < |CODES| && CODES[i] == a && CODES[j] == b;
    RankOfCode(i);
    RankOfCode(j);
  }

  lemma RankOfCode(k: nat)
    requires k < |CODES|
    ensures CodeRank(CODES[k]) == k
  {
    if k < 7 {
      assert k == 0 || k == 1 || k == 2 || k == 3 || k == 4 || k == 5 || k == 6;
    } else {
      assert k == 7 || k == 8 || k == 9 || k == 10 || k == 11 || k == 12 || k == 13;
    }
  }

  lemma MaybeLess(a: Option<string>, b: Option<string>)
    ensures MaybeBefore(a, b) ==> CompareSeq(CompareString, AsList(a), AsList(b)) == Less
    ensures a == b ==> CompareSeq(CompareString, AsList(a), AsList(b)) == Equal
  {
    if a.Some? && b.Some? {
      CompareStringMeans(a.value, b.value);
      assert AsList(a)[1..] == [] && AsList(b)[1..] == [];
    }
  }

  lemma ReasonOrderIs(a: Reason, b: Reason)
    ensures ReasonOrder()(a, b) ==
            CompareInt(CodeRank(a.code), CodeRank(b.code)).Then(
              CompareSeq(CompareString, AsList(a.suite), AsList(b.suite)).Then(
                CompareSeq(CompareString, AsList(a.caseId), AsList(b.caseId)).Then(
                  CompareString(a.message, b.message).Then(
                    CompareSeq(TotalCompare, AsList(a.observed), AsList(b.observed)).Then(
                      CompareSeq(TotalCompare, AsList(a.required), AsList(b.required)))))))
  {
    hide CompareString, CompareSeq, CompareInt, TotalCompare, CodeRank, AsList;
    var strings, floats := SeqOrder(CompareString), SeqOrder(TotalCompare);
    var required := By(ReasonRequired, floats);
    var observed := ThenBy(By(ReasonObserved, floats), required);
    var message := ThenBy(By(ReasonMessage, CompareString), observed);
    var ofCase := ThenBy(By(ReasonCase, strings), message);
    var suite := ThenBy(By(ReasonSuite, strings), ofCase);
    assert observed(a, b)
      == floats(AsList(a.observed), AsList(b.observed)).Then(floats(AsList(a.required), AsList(b.required)));
    assert message(a, b) == CompareString(a.message, b.message).Then(observed(a, b));
    assert ofCase(a, b) == strings(AsList(a.caseId), AsList(b.caseId)).Then(message(a, b));
    assert suite(a, b) == strings(AsList(a.suite), AsList(b.suite)).Then(ofCase(a, b));
    var rank := By(ReasonRank, CompareInt);
    assert rank(a, b) == CompareInt(CodeRank(a.code), CodeRank(b.code));
    assert ReasonOrder() == ThenBy(rank, suite);
  }

  lemma BeforeIsLess(a: Reason, b: Reason)
    requires ReasonBefore(a, b)
    ensures ReasonOrder()(a, b) == Less
  {
    ReasonOrderIs(a, b);
    MaybeLess(a.suite, b.suite);
    MaybeLess(a.caseId, b.caseId);
    CompareStringMeans(a.message, b.message);
    if CodeBefore(a.code, b.code) {
      CodeRanks(a.code, b.code);
    }
    hide ReasonOrder, CompareSeq, CompareString, IsBefore, MaybeBefore, CodeBefore;
  }

  /** Reasons are listed by code in the contract's order, then by suite, case and message. */
  lemma ReasonsListed(env: Env, input: Input, i: nat, j: nat)
    requires i < j < |Decided(env, input).reasons|
    ensures !ReasonBefore(Decided(env, input).reasons[j], Decided(env, input).reasons[i])
  {
    hide AllReasons, Indexed, ReasonOrder, SortBy, SortedStrings, Map, ReasonBefore;
    var found := AllReasons(env, input, Indexed(env, input.runs), Indexed(env, input.baselineRuns));
    ReasonOrderTotal();
    SortSorts(ReasonOrder(), found);
    var a, b := Decided(env, input).reasons[i], Decided(env, input).reasons[j];
    assert ReasonOrder()(b, a) == ReasonOrder()(a, b).Reverse();
    if ReasonBefore(b, a) {
      BeforeIsLess(b, a);
    }
  }

  ghost predicate RefBefore(a: RunRef, b: RunRef) {
    || IsBefore(a.suite, b.suite)
    || (a.suite == b.suite && (IsBefore(a.runId, b.runId) || (a.runId == b.runId && IsBefore(a.hash, b.hash))))
  }

  /** Runs are listed by suite, run id and hash. */
  lemma RunsListed(env: Env, runs: seq<Run>, i: nat, j: nat)
    requires i < j < |Indexed(env, runs)|
    ensures !RefBefore(Indexed(env, runs)[j].ref, Indexed(env, runs)[i].ref)
  {
    EntryOrderPreorder();
    SortSorts(EntryOrder(), Map(EntryOf(env), runs));
    hide Indexed, EntryOrder, SortBy, Map, CompareString, IsBefore;
    var a, b := Indexed(env, runs)[i], Indexed(env, runs)[j];
    IndexedSorted(env, runs);
    assert EntryOrder()(b, a) == EntryOrder()(a, b).Reverse();
    EntryOrderIs(b, a);
    CompareStringMeans(b.ref.suite, a.ref.suite);
    CompareStringMeans(b.ref.runId, a.ref.runId);
    CompareStringMeans(b.ref.hash, a.ref.hash);
  }

  lemma IndexedSorted(env: Env, runs: seq<Run>)
    ensures Sorted(EntryOrder(), Indexed(env, runs))
  {
    EntryOrderPreorder();
    SortSorts(EntryOrder(), Map(EntryOf(env), runs));
    hide EntryOrder, SortBy, Map, IsPreorder, Sorted;
  }

  lemma {:induction false} SortedStringsListed(s: set<string>, i: nat, j: nat)
    requires i < j < |SortedStrings(s)|
    ensures IsBefore(SortedStrings(s)[i], SortedStrings(s)[j])
  {
    hide SortedStrings;
    SortedStringsStrictlyAscend(s);
    CompareStringMeans(SortedStrings(s)[i], SortedStrings(s)[j]);
  }

  /** What else the decision shows: its release and policy, the required suites in order,
      a reference to every run, and a summary of every candidate in that order. */
  lemma DecisionShows(env: Env, input: Input)
    ensures var d, runs := Decided(env, input), Map(EntryRun, Indexed(env, input.runs));
            && d.release == input.release
            && d.policy == PolicyRef(input.policy.name, input.policy.version, env.policyHash(input.policy))
            && (forall s :: s in d.requiredSuites <==> s in input.requiredSuites)
            && (forall i, j :: 0 <= i < j < |d.requiredSuites| ==> IsBefore(d.requiredSuites[i], d.requiredSuites[j]))
            && |d.runs| == |input.runs| && |d.baselineRuns| == |input.baselineRuns|
            && (forall i :: 0 <= i < |d.runs| ==> d.runs[i] == Indexed(env, input.runs)[i].ref)
            && (forall i :: 0 <= i < |d.baselineRuns| ==> d.baselineRuns[i] == Indexed(env, input.baselineRuns)[i].ref)
            && |d.summaries| == |CandidateRuns(input, runs)|
            && (forall i :: 0 <= i < |d.summaries| ==> d.summaries[i] == SummaryOf(CandidateRuns(input, runs)[i]))
  {
    hide Indexed, AllReasons, SummaryOf, CandidateRuns, SortedStrings, SortBy, Candidates, ReasonOrder;
    CandidatesAre(input, Indexed(env, input.runs));
    IndexedLength(env, input.runs);
    IndexedLength(env, input.baselineRuns);
    var d := Decided(env, input);
    forall i, j | 0 <= i < j < |d.requiredSuites| ensures IsBefore(d.requiredSuites[i], d.requiredSuites[j]) {
      SortedStringsListed(input.requiredSuites, i, j);
    }
  }

  lemma IndexedLength(env: Env, runs: seq<Run>)
    ensures |Indexed(env, runs)| == |runs|
  {
    hide SortBy, EntryOrder, EntryOf;
    SortPermutes(EntryOrder(), Map(EntryOf(env), runs));
  }

  /** A reference names its run and suite and carries the hash of what the run shows. */
  lemma RefsAre(env: Env, runs: seq<Run>, e: Entry)
    requires e in Indexed(env, runs)
    ensures e.ref == RunRef(e.run.runId, e.run.suite.name, env.runHash(View(e.run)))
  {
    hide SortBy, EntryOrder, Canonical, View;
    var all := Map(EntryOf(env), runs);
    SortPermutes(EntryOrder(), all);
    assert e in multiset(Indexed(env, runs)) && e in multiset(all);
    var i :| 0 <= i < |all| && all[i] == e;
    KeepsName(runs[i]);
  }

  lemma KeepsName(r: Run)
    ensures Canonical(r).runId == r.runId && Canonical(r).suite == r.suite
  {
    hide SortBy, CaseOrder, EvaluatorOrder;
  }
}
