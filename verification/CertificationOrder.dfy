/** The decision does not depend on the order of its input: neither of runs, nor
    of the cases, covers and evaluators inside a run, duplicated or not. */
module CertificationOrder {
  import opened Ordering
  import opened Text
  import opened Lists
  import opened CertificationModel
  import opened Certification

  // ----- the comparators are total orders -----

  lemma MetricOrderTotal()
    ensures IsTotalOrder(MetricOrder())
  {
    StringsTotallyOrdered();
    FloatOrders();
    ByKeepsPreorder(MetricKey, CompareString);
    ByKeepsPreorder(MetricValue, CompareBits);
    ThenByKeepsPreorder(By(MetricKey, CompareString), By(MetricValue, CompareBits));
    forall a: Metric, b: Metric ensures MetricOrder()(a, b) == Equal <==> a == b {
      assert MetricOrder()(a, b) == CompareString(a.key, b.key).Then(CompareBits(a.value, b.value));
    }
  }

  lemma ComponentOrders()
    ensures IsTotalOrder(CompareInt) && IsTotalOrder(CompareBool) && IsTotalOrder(CompareString)
    ensures IsTotalOrder(SeqOrder(TotalCompare)) && IsTotalOrder(SeqOrder(CompareInt))
            && IsTotalOrder(SeqOrder(CompareBool))
    ensures IsTotalOrder(SeqOrder(CompareString)) && IsTotalOrder(SeqOrder(MetricOrder()))
  {
    hide *;
    BasicOrders();
    StringsTotallyOrdered();
    FloatOrders();
    MetricOrderTotal();
    SeqOrderTotal(TotalCompare);
    SeqOrderTotal(CompareInt);
    SeqOrderTotal(CompareBool);
    SeqOrderTotal(CompareString);
    SeqOrderTotal(MetricOrder());
  }

  /** One more component of a lexicographic comparator. */
  lemma Extend<T(!new), K(!new)>(key: T -> K, cmp: (K, K) -> Ordering, rest: (T, T) -> Ordering)
    requires IsTotalOrder(cmp) && IsPreorder(rest)
    ensures IsPreorder(By(key, cmp)) && IsPreorder(ThenBy(By(key, cmp), rest))
    ensures forall a, b :: ThenBy(By(key, cmp), rest)(a, b) == Equal <==> key(a) == key(b) && rest(a, b) == Equal
  {
    ByKeepsPreorder(key, cmp);
    ThenByKeepsPreorder(By(key, cmp), rest);
  }

  lemma Last<T(!new), K(!new)>(key: T -> K, cmp: (K, K) -> Ordering)
    requires IsTotalOrder(cmp)
    ensures IsPreorder(By(key, cmp)) && forall a, b :: By(key, cmp)(a, b) == Equal <==> key(a) == key(b)
  {
    ByKeepsPreorder(key, cmp);
  }

  lemma CaseOrderPreorder()
    ensures IsPreorder(CaseOrder())
    ensures forall a, b :: CaseOrder()(a, b) == Equal <==>
              CaseId(a) == CaseId(b) && CaseStatus(a) == CaseStatus(b) && CaseCritical(a) == CaseCritical(b)
              && CaseScore(a) == CaseScore(b) && CaseDuration(a) == CaseDuration(b) && CaseExpect(a) == CaseExpect(b)
              && CaseMetrics(a) == CaseMetrics(b)
  {
    hide IsPreorder, IsTotalOrder, By, ThenBy, MetricOrder, SeqOrder, CompareString, CompareInt, CompareBool,
      TotalCompare,
      CaseId, CaseStatus, CaseCritical, CaseScore, CaseDuration, CaseExpect, CaseMetrics;
    ComponentOrders();
    var metrics := By(CaseMetrics, SeqOrder(MetricOrder()));
    Last(CaseMetrics, SeqOrder(MetricOrder()));
    var expectation := ThenBy(By(CaseExpect, SeqOrder(CompareBool)), metrics);
    Extend(CaseExpect, SeqOrder(CompareBool), metrics);
    var duration := ThenBy(By(CaseDuration, SeqOrder(CompareInt)), expectation);
    Extend(CaseDuration, SeqOrder(CompareInt), expectation);
    var score := ThenBy(By(CaseScore, SeqOrder(TotalCompare)), duration);
    Extend(CaseScore, SeqOrder(TotalCompare), duration);
    var critical := ThenBy(By(CaseCritical, CompareBool), score);
    Extend(CaseCritical, CompareBool, score);
    Extend(CaseStatus, CompareInt, critical);
    Extend(CaseId, CompareString, RestOrder());
  }

  lemma MetricsDetermined(a: CaseResult, b: CaseResult)
    requires CaseMetrics(a) == CaseMetrics(b)
    ensures a.metrics == b.metrics
  {
    hide SortedStrings, MetricsOf;
    var ka, kb := SortedStrings(a.metrics.Keys), SortedStrings(b.metrics.Keys);
    EntriesDetermined(a.metrics, ka, b.metrics, kb);
    assert forall k :: k in a.metrics <==> k in ka;
    assert forall k :: k in b.metrics <==> k in kb;
  }

  lemma EntriesDetermined(a: map<string, Float>, ka: seq<string>, b: map<string, Float>, kb: seq<string>)
    requires (forall k :: k in ka ==> k in a) && (forall k :: k in kb ==> k in b)
    requires MetricsOf(a, ka) == MetricsOf(b, kb)
    ensures ka == kb && forall k :: k in ka ==> a[k] == b[k]
  {
    hide MetricsOf;
    var ms := MetricsOf(a, ka);
    forall i | 0 <= i < |ms| ensures ka[i] == kb[i] && a[ka[i]] == b[kb[i]] {
      assert ms[i] == Metric(ka[i], a[ka[i]]) && ms[i] == Metric(kb[i], b[kb[i]]);
    }
  }

  lemma CaseKeysDetermine(a: CaseResult, b: CaseResult)
    requires CaseId(a) == CaseId(b) && CaseStatus(a) == CaseStatus(b) && CaseCritical(a) == CaseCritical(b)
    requires CaseScore(a) == CaseScore(b) && CaseDuration(a) == CaseDuration(b) && CaseExpect(a) == CaseExpect(b)
    requires CaseMetrics(a) == CaseMetrics(b)
    ensures a == b
  {
    MetricsDetermined(a, b);
    hide CaseMetrics;
    OptionsDetermined(a, b);
  }

  lemma OptionsDetermined(a: CaseResult, b: CaseResult)
    requires CaseScore(a) == CaseScore(b) && CaseDuration(a) == CaseDuration(b) && CaseExpect(a) == CaseExpect(b)
    ensures a.score == b.score && a.durationMs == b.durationMs && a.expectation == b.expectation
  {
    AsListInjective(a.score, b.score);
    assert a.durationMs.Some? && b.durationMs.Some? ==> CaseDuration(a)[0] == CaseDuration(b)[0];
    assert a.expectation.Some? && b.expectation.Some? ==> CaseExpect(a)[0] == CaseExpect(b)[0];
  }

  lemma AsListInjective<T>(a: Option<T>, b: Option<T>)
    requires AsList(a) == AsList(b)
    ensures a == b
  {
    if a.Some? && b.Some? {
      assert AsList(a)[0] == AsList(b)[0];
    }
  }

  /** Only equal cases tie. */
  lemma CaseOrderTotal()
    ensures IsTotalOrder(CaseOrder())
  {
    CaseOrderPreorder();
    hide IsPreorder, CaseOrder, CaseId, CaseStatus, CaseCritical, CaseScore, CaseDuration, CaseExpect, CaseMetrics;
    forall a, b ensures CaseOrder()(a, b) == Equal <==> a == b {
      if CaseOrder()(a, b) == Equal {
        CaseKeysDetermine(a, b);
      }
    }
  }

  lemma EvaluatorOrderTotal()
    ensures IsTotalOrder(EvaluatorOrder())
  {
    hide IsPreorder, CompareString, By, ThenBy;
    StringsTotallyOrdered();
    Last(EvaluatorVersion, CompareString);
    Extend(EvaluatorName, CompareString, By(EvaluatorVersion, CompareString));
    forall a: EvaluatorRef, b: EvaluatorRef ensures EvaluatorOrder()(a, b) == Equal <==> a == b {}
  }

  lemma EntryOrderPreorder()
    ensures IsPreorder(EntryOrder())
    ensures forall a, b :: EntryOrder()(a, b) == Equal <==> a.ref == b.ref
  {
    hide IsPreorder, CompareString, By, ThenBy;
    StringsTotallyOrdered();
    Last(EntryHash, CompareString);
    Extend(EntryRunId, CompareString, By(EntryHash, CompareString));
    Extend(EntrySuite, CompareString, ThenBy(By(EntryRunId, CompareString), By(EntryHash, CompareString)));
  }

  lemma ReasonOrderPreorder()
    ensures IsPreorder(ReasonOrder())
    ensures forall a, b :: ReasonOrder()(a, b) == Equal <==>
              ReasonRank(a) == ReasonRank(b) && ReasonSuite(a) == ReasonSuite(b) && ReasonCase(a) == ReasonCase(b)
              && ReasonMessage(a) == ReasonMessage(b) && ReasonObserved(a) == ReasonObserved(b)
              && ReasonRequired(a) == ReasonRequired(b)
  {
    hide IsPreorder, IsTotalOrder, By, ThenBy, MetricOrder, SeqOrder, CompareString, CompareInt, CompareBool,
      TotalCompare,
      ReasonRank, ReasonSuite, ReasonCase, ReasonMessage, ReasonObserved, ReasonRequired;
    ComponentOrders();
    var required := By(ReasonRequired, SeqOrder(TotalCompare));
    Last(ReasonRequired, SeqOrder(TotalCompare));
    var observed := ThenBy(By(ReasonObserved, SeqOrder(TotalCompare)), required);
    Extend(ReasonObserved, SeqOrder(TotalCompare), required);
    var message := ThenBy(By(ReasonMessage, CompareString), observed);
    Extend(ReasonMessage, CompareString, observed);
    var ofCase := ThenBy(By(ReasonCase, SeqOrder(CompareString)), message);
    Extend(ReasonCase, SeqOrder(CompareString), message);
    var suite := ThenBy(By(ReasonSuite, SeqOrder(CompareString)), ofCase);
    Extend(ReasonSuite, SeqOrder(CompareString), ofCase);
    Extend(ReasonRank, CompareInt, suite);
  }

  lemma RankDetermines(a: ReasonCode, b: ReasonCode)
    requires CodeRank(a) == CodeRank(b)
    ensures a == b
  {
  }

  /** Only equal reasons tie, so the reported order is the only sorted one. */
  lemma ReasonOrderTotal()
    ensures IsTotalOrder(ReasonOrder())
  {
    ReasonOrderPreorder();
    hide IsPreorder, ReasonOrder, CodeRank, AsList;
    forall a: Reason, b: Reason ensures ReasonOrder()(a, b) == Equal <==> a == b {
      if ReasonOrder()(a, b) == Equal {
        RankDetermines(a.code, b.code);
        AsListInjective(a.suite, b.suite);
        AsListInjective(a.caseId, b.caseId);
        AsListInjective(a.observed, b.observed);
        AsListInjective(a.required, b.required);
      }
    }
  }

  // ----- canonical copies forget the order inside a run -----

  /** The same run with its cases, covers and evaluators in another order. */
  ghost predicate Rearranged(a: Run, b: Run) {
    && b == a.(cases := b.cases, covers := b.covers, evaluators := b.evaluators)
    && multiset(a.cases) == multiset(b.cases)
    && multiset(a.covers) == multiset(b.covers)
    && multiset(a.evaluators) == multiset(b.evaluators)
  }

  lemma TotalForgetsOrder<T(!new)>(cmp: (T, T) -> Ordering, s: seq<T>, t: seq<T>)
    requires IsTotalOrder(cmp) && multiset(s) == multiset(t)
    ensures SortBy(cmp, s) == SortBy(cmp, t)
  {
    SortForgetsOrder(cmp, s, t);
  }

  lemma CanonicalForgetsOrder(a: Run, b: Run)
    requires Rearranged(a, b)
    ensures Canonical(a) == Canonical(b)
  {
    hide IsTotalOrder, SortBy, CaseOrder, EvaluatorOrder, CompareString;
    CaseOrderTotal();
    EvaluatorOrderTotal();
    StringsTotallyOrdered();
    TotalForgetsOrder(CaseOrder(), a.cases, b.cases);
    TotalForgetsOrder(CompareString, a.covers, b.covers);
    TotalForgetsOrder(EvaluatorOrder(), a.evaluators, b.evaluators);
  }

  lemma CanonicalRearranges(r: Run)
    ensures Rearranged(r, Canonical(r))
  {
    hide SortBy, CaseOrder, EvaluatorOrder, CompareString;
    SortPermutes(CaseOrder(), r.cases);
    SortPermutes(CompareString, r.covers);
    SortPermutes(EvaluatorOrder(), r.evaluators);
  }

  lemma {:induction false} SortedFixed<T>(cmp: (T, T) -> Ordering, s: seq<T>)
    requires Sorted(cmp, s)
    ensures SortBy(cmp, s) == s
  {
    if s != [] {
      SortedTail(cmp, s);
      SortedFixed(cmp, s[1..]);
      assert s == [s[0]] + s[1..];
    }
  }

  lemma SortedById(cases: seq<CaseResult>)
    requires Sorted(CaseOrder(), cases)
    ensures Sorted(By(CaseId, CompareString), cases)
  {
    hide RestOrder, CompareString;
    forall i, j | 0 <= i < j < |cases| ensures By(CaseId, CompareString)(cases[i], cases[j]) != Greater {
      assert CaseOrder()(cases[i], cases[j]) ==
             By(CaseId, CompareString)(cases[i], cases[j]).Then(RestOrder()(cases[i], cases[j]));
    }
  }

  /** On a canonical copy the hashed view re-sorts nothing. */
  lemma ViewOfCanonical(r: Run)
    ensures View(Canonical(r)) == Seen(Canonical(r))
  {
    hide IsTotalOrder, IsPreorder, SortBy, CaseOrder, EvaluatorOrder, CompareString, Sorted, Seen, By;
    CaseOrderTotal();
    EvaluatorOrderTotal();
    StringsTotallyOrdered();
    SortedTotal(CaseOrder(), r.cases);
    SortedTotal(CompareString, r.covers);
    SortedTotal(EvaluatorOrder(), r.evaluators);
    SortedById(Canonical(r).cases);
    SortedFixed(By(CaseId, CompareString), Canonical(r).cases);
    SortedFixed(CompareString, Canonical(r).covers);
    SortedFixed(EvaluatorOrder(), Canonical(r).evaluators);
  }

  lemma SortedTotal<T(!new)>(cmp: (T, T) -> Ordering, s: seq<T>)
    requires IsTotalOrder(cmp)
    ensures Sorted(cmp, SortBy(cmp, s))
  {
    SortSorts(cmp, s);
  }

  // ----- what the JSON does not show does not matter -----

  lemma {:induction false} FlatMapCongruent<T, U>(f: T -> seq<U>, s: seq<T>, t: seq<T>)
    requires |s| == |t| && forall i :: 0 <= i < |s| ==> f(s[i]) == f(t[i])
    ensures FlatMap(f, s) == FlatMap(f, t)
  {
    if s != [] {
      FlatMapCongruent(f, s[1..], t[1..]);
      assert f(s[0]) == f(t[0]);
    }
  }

  lemma {:induction false} FilterCongruent<T>(p: T -> bool, s: seq<T>, t: seq<T>)
    requires |s| == |t| && forall i :: 0 <= i < |s| ==> p(s[i]) == p(t[i]) && (p(s[i]) ==> s[i] == t[i])
    ensures Filter(p, s) == Filter(p, t)
  {
    if s != [] {
      FilterCongruent(p, s[1..], t[1..]);
      assert p(s[0]) == p(t[0]) && (p(s[0]) ==> s[0] == t[0]);
    }
  }

  lemma SeenMetrics(i: nat, c: CaseResult)
    ensures FlatMap(MetricIssues(i), CaseMetrics(SeenCase(c))) == FlatMap(MetricIssues(i), CaseMetrics(c))
  {
    var keys, s, t := SortedStrings(c.metrics.Keys), CaseMetrics(SeenCase(c)), CaseMetrics(c);
    assert SeenCase(c).metrics.Keys == c.metrics.Keys;
    hide SortedStrings, FlatMap;
    forall j | 0 <= j < |s| ensures MetricIssues(i)(s[j]) == MetricIssues(i)(t[j]) {
      assert s[j] == Metric(keys[j], SeenFloat(c.metrics[keys[j]])) && t[j] == Metric(keys[j], c.metrics[keys[j]]);
    }
    FlatMapCongruent(MetricIssues(i), s, t);
  }

  lemma SeenCaseIssues(cases: seq<CaseResult>, i: nat)
    requires i < |cases|
    ensures CaseIssues(Map(SeenCase, cases), i) == CaseIssues(cases, i)
  {
    hide FlatMap, CaseMetrics, IsBlank, IdsBefore, MetricIssues;
    SeenMetrics(i, cases[i]);
    SeenIds(cases, i);
  }

  lemma SeenIds(cases: seq<CaseResult>, i: nat)
    requires i <= |cases|
    ensures IdsBefore(Map(SeenCase, cases), i) == IdsBefore(cases, i)
  {
    hide IsBlank, Map;
    var seen := Map(SeenCase, cases);
    assert forall j :: 0 <= j < i ==> seen[j].id == cases[j].id;
  }

  lemma {:induction false} SeenAllCaseIssues(cases: seq<CaseResult>, n: nat)
    requires n <= |cases|
    ensures AllCaseIssues(Map(SeenCase, cases), n) == AllCaseIssues(cases, n)
  {
    hide *;
    NoCasesNoIssues(cases);
    NoCasesNoIssues(Map(SeenCase, cases));
    if n > 0 {
      SeenAllCaseIssues(cases, n - 1);
      SeenCaseIssues(cases, n - 1);
      AllCaseIssuesNext(cases, n - 1);
      AllCaseIssuesNext(Map(SeenCase, cases), n - 1);
    }
  }

  lemma SeenIssues(r: Run)
    ensures RunIssues(Seen(r)) == RunIssues(r)
  {
    hide IsKnownApiVersion, IsBlank, IsReleaseHash, AllCaseIssues, FlatMap, CoverIssues, Map;
    SeenAllCaseIssues(r.cases, |r.cases|);
    assert HeadIssues(Seen(r)) == HeadIssues(r);
  }

  /** A usable run is shown completely: all its numbers are finite. */
  lemma SeenUsable(r: Run)
    requires RunIssues(r) == []
    ensures Seen(r) == r
  {
    NoRunIssues(r);
    hide RunIssues, IsBlank, HasHead;
    var seen := Map(SeenCase, r.cases);
    forall i | 0 <= i < |r.cases| ensures seen[i] == r.cases[i] {
      SeenFinite(r.cases[i]);
    }
    assert seen == r.cases;
  }

  lemma SeenFinite(c: CaseResult)
    requires FiniteCase(c)
    ensures SeenCase(c) == c
  {
    assert SeenCase(c).metrics == c.metrics;
  }

  function SeenEntry(e: Entry): Entry {
    Entry(e.ref, Seen(e.run))
  }

  lemma SeenValid(entries: seq<Entry>)
    ensures Valid(Map(SeenEntry, entries)) == Valid(entries)
  {
    hide RunIssues, Seen, Filter;
    var s, t := Map(EntryRun, Map(SeenEntry, entries)), Map(EntryRun, entries);
    forall i | 0 <= i < |s| ensures HasNoIssues(s[i]) == HasNoIssues(t[i]) && (HasNoIssues(s[i]) ==> s[i] == t[i]) {
      assert s[i] == Seen(t[i]);
      SeenIssues(t[i]);
      if HasNoIssues(t[i]) {
        SeenUsable(t[i]);
      }
    }
    FilterCongruent(HasNoIssues, s, t);
  }

  lemma SeenProblems(env: Env, what: string, entries: seq<Entry>)
    ensures FlatMap(ProblemsOf(env, what), Map(EntryRun, Map(SeenEntry, entries)))
            == FlatMap(ProblemsOf(env, what), Map(EntryRun, entries))
  {
    hide RunIssues, FlatMap;
    var s, t := Map(EntryRun, Map(SeenEntry, entries)), Map(EntryRun, entries);
    forall i | 0 <= i < |s| ensures ProblemsOf(env, what)(s[i]) == ProblemsOf(env, what)(t[i]) {
      assert s[i] == Seen(t[i]);
      SeenIssues(t[i]);
    }
    FlatMapCongruent(ProblemsOf(env, what), s, t);
  }

  /** The decision reads of every run only what its JSON shows. */
  lemma DecisionSeesJson(env: Env, input: Input, runs: seq<Entry>, baselineRuns: seq<Entry>)
    ensures DecisionFrom(env, input, Map(SeenEntry, runs), Map(SeenEntry, baselineRuns))
            == DecisionFrom(env, input, runs, baselineRuns)
  {
    hide FlatMap, Map, Filter, Valid, SortBy, EvidenceReasons, PolicyIssues, SortedStrings;
    SeenValid(runs);
    SeenValid(baselineRuns);
    SeenProblems(env, "run", runs);
    SeenProblems(env, "baseline run", baselineRuns);
    assert Map(EntryRef, Map(SeenEntry, runs)) == Map(EntryRef, runs);
    assert Map(EntryRef, Map(SeenEntry, baselineRuns)) == Map(EntryRef, baselineRuns);
    SeenInput(env, input, runs, baselineRuns);
  }

  lemma SeenInput(env: Env, input: Input, runs: seq<Entry>, baselineRuns: seq<Entry>)
    ensures InputReasons(env, input, Map(SeenEntry, runs), Map(SeenEntry, baselineRuns))
            == InputReasons(env, input, runs, baselineRuns)
  {
    hide FlatMap, Map, Filter, Valid, PolicyIssues;
    SeenValid(runs);
    SeenProblems(env, "run", runs);
    SeenProblems(env, "baseline run", baselineRuns);
  }

  // ----- the indexed runs -----

  lemma {:induction false} InsertMap<T, U>(f: T -> U, cmp: (T, T) -> Ordering, cmp': (U, U) -> Ordering,
                                               x: T, s: seq<T>)
    requires forall a, b :: (a == x || a in s) && (b == x || b in s) ==> cmp'(f(a), f(b)) == cmp(a, b)
    ensures Map(f, Insert(cmp, x, s)) == Insert(cmp', f(x), Map(f, s))
  {
    if s != [] {
      assert cmp'(f(x), f(s[0])) == cmp(x, s[0]);
      assert Map(f, s)[1..] == Map(f, s[1..]);
      if cmp(x, s[0]) == Greater {
        InsertMap(f, cmp, cmp', x, s[1..]);
        assert Map(f, [s[0]] + Insert(cmp, x, s[1..])) == [f(s[0])] + Map(f, Insert(cmp, x, s[1..]));
      }
    }
  }

  lemma {:induction false} SortMap<T(!new), U>(f: T -> U, cmp: (T, T) -> Ordering, cmp': (U, U) -> Ordering, s: seq<T>)
    requires forall a, b :: cmp'(f(a), f(b)) == cmp(a, b)
    ensures Map(f, SortBy(cmp, s)) == SortBy(cmp', Map(f, s))
  {
    if s != [] {
      hide Insert;
      SortMap(f, cmp, cmp', s[1..]);
      InsertMap(f, cmp, cmp', s[0], SortBy(cmp, s[1..]));
    }
  }

  /** Some two of the runs have different hashed views but the same hash. */
  ghost predicate RunCollision(env: Env, runs: seq<Run>) {
    exists a, b :: a in runs && b in runs && View(Canonical(a)) != View(Canonical(b))
      && env.runHash(View(Canonical(a))) == env.runHash(View(Canonical(b)))
  }

  lemma EntryOrderIs(a: Entry, b: Entry)
    ensures EntryOrder()(a, b) == CompareString(a.ref.suite, b.ref.suite).Then(
              CompareString(a.ref.runId, b.ref.runId).Then(CompareString(a.ref.hash, b.ref.hash)))
  {
    hide CompareString;
    var last := By(EntryHash, CompareString);
    var rest := ThenBy(By(EntryRunId, CompareString), last);
    assert rest(a, b) == By(EntryRunId, CompareString)(a, b).Then(last(a, b));
    assert EntryOrder()(a, b) == By(EntrySuite, CompareString)(a, b).Then(rest(a, b));
  }

  lemma SeenIndexed(env: Env, runs: seq<Run>)
    ensures Map(SeenEntry, Indexed(env, runs)) == SortBy(EntryOrder(), Map(SeenEntry, Map(EntryOf(env), runs)))
  {
    hide SortBy, Map, EntryOrder, EntryOf;
    forall a, b ensures EntryOrder()(SeenEntry(a), SeenEntry(b)) == EntryOrder()(a, b) {
      EntryOrderIs(a, b);
      EntryOrderIs(SeenEntry(a), SeenEntry(b));
    }
    SortMap(SeenEntry, EntryOrder(), EntryOrder(), Map(EntryOf(env), runs));
  }

  lemma EntryTies(env: Env, a: Run, b: Run, runs: seq<Run>)
    requires a in runs && b in runs && EntryOf(env)(a).ref == EntryOf(env)(b).ref
    ensures SeenEntry(EntryOf(env)(a)) == SeenEntry(EntryOf(env)(b)) || RunCollision(env, runs)
  {
    hide Canonical, View, Seen;
    ViewOfCanonical(a);
    ViewOfCanonical(b);
  }

  lemma EntriesTie(env: Env, runs: seq<Run>)
    requires !RunCollision(env, runs)
    ensures TiesEqual(EntryOrder(), Map(SeenEntry, Map(EntryOf(env), runs)))
  {
    EntryOrderPreorder();
    hide IsPreorder, EntryOrder, EntryOf, SeenEntry, RunCollision;
    var s := Map(SeenEntry, Map(EntryOf(env), runs));
    forall i, j | 0 <= i < |s| && 0 <= j < |s| && EntryOrder()(s[i], s[j]) == Equal ensures s[i] == s[j] {
      SeenRef(EntryOf(env)(runs[i]));
      SeenRef(EntryOf(env)(runs[j]));
      EntryTies(env, runs[i], runs[j], runs);
    }
  }

  lemma SeenRef(e: Entry)
    ensures SeenEntry(e).ref == e.ref
  {
  }

  /** The runs in another order, each possibly rearranged inside. */
  ghost predicate Shuffled(a: seq<Run>, b: seq<Run>) {
    exists c: seq<Run> :: multiset(c) == multiset(a) && |c| == |b| && forall i :: 0 <= i < |c| ==>
      Rearranged(c[i], b[i])
  }

  lemma ShuffledEntries(env: Env, a: seq<Run>, b: seq<Run>)
    requires Shuffled(a, b)
    ensures multiset(Map(SeenEntry, Map(EntryOf(env), a))) == multiset(Map(SeenEntry, Map(EntryOf(env), b)))
  {
    hide *;
    var c := InPlace(a, b);
    SameEntries(env, c, b);
    MapPermutes(EntryOf(env), a, c);
    MapPermutes(SeenEntry, Map(EntryOf(env), a), Map(EntryOf(env), c));
  }

  lemma InPlace(a: seq<Run>, b: seq<Run>) returns (c: seq<Run>)
    requires Shuffled(a, b)
    ensures multiset(c) == multiset(a) && |c| == |b| && forall i :: 0 <= i < |c| ==> Rearranged(c[i], b[i])
  {
    hide Rearranged;
    c :| multiset(c) == multiset(a) && |c| == |b| && forall i :: 0 <= i < |c| ==> Rearranged(c[i], b[i]);
  }

  lemma SameEntries(env: Env, c: seq<Run>, b: seq<Run>)
    requires |c| == |b| && forall i :: 0 <= i < |c| ==> Rearranged(c[i], b[i])
    ensures Map(EntryOf(env), c) == Map(EntryOf(env), b)
  {
    hide *;
    forall i | 0 <= i < |c| ensures EntryOf(env)(c[i]) == EntryOf(env)(b[i]) {
      SameEntry(env, c[i], b[i]);
    }
  }

  lemma MapPermutes<T, U>(f: T -> U, s: seq<T>, t: seq<T>)
    requires multiset(s) == multiset(t)
    ensures multiset(Map(f, s)) == multiset(Map(f, t))
  {
    MapMonotone(f, s, t);
    MapMonotone(f, t, s);
  }

  lemma SameEntry(env: Env, a: Run, b: Run)
    requires Rearranged(a, b)
    ensures EntryOf(env)(a) == EntryOf(env)(b)
  {
    hide Canonical, View;
    CanonicalForgetsOrder(a, b);
  }

  lemma IndexedForgetsOrder(env: Env, a: seq<Run>, b: seq<Run>)
    requires Shuffled(a, b) && !RunCollision(env, a)
    ensures Map(SeenEntry, Indexed(env, a)) == Map(SeenEntry, Indexed(env, b))
  {
    ShuffledEntries(env, a, b);
    EntriesTie(env, a);
    EntryOrderPreorder();
    SeenIndexed(env, a);
    SeenIndexed(env, b);
    hide *;
    SortForgetsOrder(EntryOrder(), Map(SeenEntry, Map(EntryOf(env), a)), Map(SeenEntry, Map(EntryOf(env), b)));
  }

  lemma SameRules(env: Env, a: Input, b: Input, runs: seq<Entry>, baselineRuns: seq<Entry>)
    requires a.release == b.release && a.requiredSuites == b.requiredSuites && a.policy == b.policy
    ensures DecisionFrom(env, a, runs, baselineRuns) == DecisionFrom(env, b, runs, baselineRuns)
  {
    hide FlatMap, Map, Filter, Valid, SortBy, PolicyIssues, SortedStrings, Candidates, BoundaryReasons,
      NewCriticalReasons;
  }

  /** The decision, in all its parts and in their order, is the same for every
      order of the input, or two runs with different views have the same hash. */
  lemma OrderIndependent(env: Env, a: Input, b: Input)
    requires a.release == b.release && a.requiredSuites == b.requiredSuites && a.policy == b.policy
    requires Shuffled(a.runs, b.runs) && Shuffled(a.baselineRuns, b.baselineRuns)
    ensures Decided(env, a) == Decided(env, b) || RunCollision(env, a.runs) || RunCollision(env, a.baselineRuns)
  {
    hide Indexed, DecisionFrom, Shuffled, RunCollision;
    if !RunCollision(env, a.runs) && !RunCollision(env, a.baselineRuns) {
      IndexedForgetsOrder(env, a.runs, b.runs);
      IndexedForgetsOrder(env, a.baselineRuns, b.baselineRuns);
      DecisionSeesJson(env, a, Indexed(env, a.runs), Indexed(env, a.baselineRuns));
      DecisionSeesJson(env, b, Indexed(env, b.runs), Indexed(env, b.baselineRuns));
      SameRules(env, a, b, Map(SeenEntry, Indexed(env, b.runs)), Map(SeenEntry, Indexed(env, b.baselineRuns)));
    }
  }

  /** The reported reasons are those found, in the one order the comparator allows. */
  lemma ReasonsSorted(env: Env, input: Input)
    ensures var reasons := Decided(env, input).reasons;
            var found := AllReasons(env, input, Indexed(env, input.runs), Indexed(env, input.baselineRuns));
            multiset(reasons) == multiset(found) && Sorted(ReasonOrder(), reasons)
            && forall other :: multiset(other) == multiset(found) && Sorted(ReasonOrder(), other) ==> other == reasons
  {
    hide AllReasons, Indexed, ReasonOrder, SortBy, IsPreorder, Sorted, SortedStrings, Map;
    var found := AllReasons(env, input, Indexed(env, input.runs), Indexed(env, input.baselineRuns));
    ReasonOrderTotal();
    SortPermutes(ReasonOrder(), found);
    SortSorts(ReasonOrder(), found);
    var reasons := SortBy(ReasonOrder(), found);
    forall other | multiset(other) == multiset(found) && Sorted(ReasonOrder(), other) ensures other == reasons {
      SortedUnique(ReasonOrder(), other, reasons);
    }
  }
}
