/** Anchoring over whole runs: any interleaving of appends, ticks, flushes,
    refusals by the authorities, and restarts of the scheduler. */
module AnchoringRuns {
  import opened Text
  import opened Lists
  import opened Epochs
  import opened Ledger
  import opened Anchoring

  datatype Step =
    | AppendStep(a: Arrival)
    | TickStep(now: int, late: seq<Arrival>, sealedAt: string, ask: Authority)
    | FlushStep(now: int, late: seq<Arrival>, sealedAt: string, ask: Authority, later: nat -> int)
    | RestartStep(started: int)

  function After(c: Config, w: World, step: Step): World {
    match step
    case AppendStep(a) => w.(state := Appended(c.env, w.state, a))
    case TickStep(now, late, sealedAt, ask) => Ticked(c, w, now, late, sealedAt, ask)
    case FlushStep(now, late, sealedAt, ask, later) => Flushed(c, w, now, late, sealedAt, ask, later)
    case RestartStep(started) => w.(lastSeal := started, failedAt := map[], tries := [])
  }

  /** The world after `steps`, from an empty ledger. */
  function Run(c: Config, started: int, steps: seq<Step>): World {
    if steps == [] then World(State([], []), started, map[], [], [])
    else After(c, Run(c, started, steps[..|steps| - 1]), steps[|steps| - 1])
  }

  // ----- what every step keeps -----

  function IsAnchored(epoch: nat): AnchorEvent -> bool {
    (e: AnchorEvent) => e.Anchored? && e.epoch == epoch
  }

  function Reports(events: seq<AnchorEvent>, epoch: nat): nat {
    Count(IsAnchored(epoch), events)
  }

  ghost predicate ReportedOnce(c: Config, w: World, epoch: nat) {
    && Reports(w.events, epoch) <= 1
    && (Reports(w.events, epoch) == 1 ==> epoch < |w.state.epochs| && !Misses(c, w.state.epochs[epoch]))
  }

  function LastTry(tries: seq<Try>, epoch: nat): Option<Try> {
    if tries == [] then None
    else if tries[|tries| - 1].epoch == epoch then Some(tries[|tries| - 1])
    else LastTry(tries[..|tries| - 1], epoch)
  }

  /** `failedAt` holds exactly the epochs whose last try in this run failed, and when. */
  ghost predicate Remembers(w: World, epoch: nat) {
    var last := LastTry(w.tries, epoch);
    if last.Some? && !last.value.ok then epoch in w.failedAt && w.failedAt[epoch] == last.value.at
    else epoch !in w.failedAt
  }

  ghost predicate Ok(c: Config, w: World) {
    Valid(c.env, w.state) && forall e: nat :: ReportedOnce(c, w, e) && Remembers(w, e)
  }

  /** No decision, head or receipt is lost or replaced. */
  ghost predicate Extends(s: State, t: State) {
    && s.decisions <= t.decisions
    && |s.epochs| <= |t.epochs|
    && forall i :: 0 <= i < |s.epochs| ==>
         s.epochs[i].head == t.epochs[i].head && s.epochs[i].anchors <= t.epochs[i].anchors
  }

  lemma ExtendsTransitive(s: State, t: State, u: State)
    requires Extends(s, t) && Extends(t, u)
    ensures Extends(s, u)
  {
  }

  // ----- one attempt -----

  lemma RowNumbered(env: Env, s: State, epoch: nat)
    requires Valid(env, s) && epoch < |s.epochs|
    ensures Row(s.epochs, epoch) == Some(epoch)
  {
    RowIs(s.epochs, epoch);
    EpochNumbers(env, s, epoch);
    var row := Row(s.epochs, epoch);
    if row.Some? {
      EpochNumbers(env, s, row.value);
    }
  }

  lemma CountMore<T>(p: T -> bool, s: seq<T>, t: seq<T>)
    ensures Count(p, s + t) == Count(p, s) + Count(p, t)
  {
    FilterConcat(p, s, t);
  }

  lemma {:induction false} NoReports(events: seq<AnchorEvent>, epoch: nat)
    requires forall e :: e in events ==> !(e.Anchored? && e.epoch == epoch)
    ensures Reports(events, epoch) == 0
  {
    if events != [] {
      assert events[0] in events && forall e :: e in events[1..] ==> e in events;
      NoReports(events[1..], epoch);
    }
  }

  /** Without a refusal every wanted kind is held afterwards. */
  lemma CompleteWithoutRefusal(c: Config, ask: Authority, epoch: nat, e: StoredEpoch, after: StoredEpoch)
    requires Refusals(c, ask, epoch, e.anchors) == [] && OncePerKind(e.anchors)
    requires after.anchors == WithReceipts(e.anchors, Receipts(c, ask, epoch, e.anchors))
    ensures !Misses(c, after)
  {
    ReceiptsKept(e.anchors, Receipts(c, ask, epoch, e.anchors));
    hide WithReceipts, OncePerKind;
    var got := Receipts(c, ask, epoch, e.anchors);
    forall k | k in Wanted(c) ensures Holds(after.anchors, k) {
      if !Holds(e.anchors, k) {
        if k == Rekor {
          NoRefusal(c.rekor, Rekor, ask, epoch, e.anchors);
          assert Receipt(Rekor, ask(epoch, Rekor).value) in got;
        } else {
          NoRefusal(c.tsa, Rfc3161, ask, epoch, e.anchors);
          assert Receipt(Rfc3161, ask(epoch, Rfc3161).value) in got;
        }
        assert Holds(got, k);
      }
    }
  }

  lemma NoRefusal(on: bool, kind: Kind, ask: Authority, epoch: nat, have: seq<Receipt>)
    requires Refused(on, kind, ask, epoch, have) == [] && on && !Holds(have, kind)
    ensures Got(on, kind, ask, epoch, have) == [Receipt(kind, ask(epoch, kind).value)]
  {
  }

  ghost predicate Untouched(s: State, e: StoredEpoch) {
    e.head.epoch < |s.epochs| && s.epochs[e.head.epoch] == e
  }

  lemma AttemptState(c: Config, k: Clock, w: World, e: StoredEpoch)
    requires Valid(c.env, w.state) && Untouched(w.state, e)
    ensures var s, epoch := Attempt(c, k, w, e).state, e.head.epoch;
            Valid(c.env, s) && Extends(w.state, s) && |s.epochs| == |w.state.epochs| && s.decisions == w.state.decisions
            && s.epochs[epoch].anchors == WithReceipts(e.anchors, Receipts(c, k.ask, epoch, e.anchors))
            && AnchorsAfter(s, epoch) == s.epochs[epoch].anchors
            && forall i :: 0 <= i < |s.epochs| && i != epoch ==> s.epochs[i] == w.state.epochs[i]
  {
    hide Receipts, Refusals, WithReceipts, Row;
    var epoch := e.head.epoch;
    RowNumbered(c.env, w.state, epoch);
    var got, refused := Receipts(c, k.ask, epoch, e.anchors), Refusals(c, k.ask, epoch, e.anchors);
    var error := if refused == [] then None else Some(refused);
    AnchorsKeepValid(c.env, w.state, epoch, got, error);
    RowNumbered(c.env, WithAnchors(w.state, epoch, got, error), epoch);
    Once(c.env, w.state, epoch);
    hide Valid;
    ReceiptsKept(e.anchors, got);
  }

  lemma Once(env: Env, s: State, i: nat)
    requires Valid(env, s) && i < |s.epochs|
    ensures OncePerKind(s.epochs[i].anchors)
  {
    assert EpochAt(env, s, i);
  }

  lemma AttemptReports(c: Config, k: Clock, w: World, e: StoredEpoch, other: nat)
    requires Valid(c.env, w.state) && Untouched(w.state, e) && Misses(c, e)
    requires ReportedOnce(c, w, other) && ReportedOnce(c, w, e.head.epoch)
    ensures ReportedOnce(c, Attempt(c, k, w, e), other)
  {
    AttemptState(c, k, w, e);
    Once(c.env, w.state, e.head.epoch);
    hide Valid, Misses, Receipts, Refusals, WithReceipts, OncePerKind, Count, Extends, Attempt;
    var epoch, after := e.head.epoch, Attempt(c, k, w, e);
    if Refusals(c, k.ask, epoch, e.anchors) == [] {
      CompleteWithoutRefusal(c, k.ask, epoch, e, after.state.epochs[epoch]);
    }
    AttemptEvents(c, k, w, e, other);
  }

  lemma AttemptEvents(c: Config, k: Clock, w: World, e: StoredEpoch, other: nat)
    ensures Reports(Attempt(c, k, w, e).events, other) == Reports(w.events, other)
              + (if Refusals(c, k.ask, e.head.epoch, e.anchors) == [] && e.head.epoch == other then 1 else 0)
  {
    hide Receipts, Refusals, Stored, AnchorsAfter, Kinds, Count, Map;
    var epoch, after := e.head.epoch, Attempt(c, k, w, e);
    var refused := Refusals(c, k.ask, epoch, e.anchors);
    var more := if refused == []
      then [Anchored(epoch, e.head.firstSeq, e.head.lastSeq, Kinds(AnchorsAfter(after.state, epoch)))]
                else Map(FailedEventOf(e.head), refused);
    assert after.events == w.events + more;
    CountMore(IsAnchored(other), w.events, more);
    if refused == [] {
      OneReport(more[0], other);
    } else {
      FailuresReportNothing(e.head, refused, other);
    }
  }

  lemma OneReport(event: AnchorEvent, other: nat)
    requires event.Anchored?
    ensures Reports([event], other) == if event.epoch == other then 1 else 0
  {
    assert [event][1..] == [] && Filter(IsAnchored(other), []) == [];
  }

  lemma FailuresReportNothing(head: EpochHead, refused: seq<Refusal>, other: nat)
    ensures Reports(Map(FailedEventOf(head), refused), other) == 0
  {
    NoReports(Map(FailedEventOf(head), refused), other);
  }

  lemma AttemptRemembers(c: Config, k: Clock, w: World, e: StoredEpoch, other: nat)
    requires Remembers(w, other)
    ensures Remembers(Attempt(c, k, w, e), other)
  {
    hide Receipts, Refusals, Stored, AnchorsAfter, Kinds, Map;
    var after := Attempt(c, k, w, e);
    assert after.tries[..|after.tries| - 1] == w.tries;
  }

  lemma AttemptKeeps(c: Config, k: Clock, w: World, e: StoredEpoch)
    requires Ok(c, w) && Untouched(w.state, e) && Misses(c, e)
    ensures Ok(c, Attempt(c, k, w, e))
  {
    hide Valid, ReportedOnce, Remembers, Attempt, Misses;
    AttemptState(c, k, w, e);
    forall other: nat ensures ReportedOnce(c, Attempt(c, k, w, e), other) && Remembers(Attempt(c, k, w, e), other) {
      AttemptReports(c, k, w, e, other);
      AttemptRemembers(c, k, w, e, other);
    }
  }

  // ----- all pending epochs -----

  function Asks(c: Config, k: Clock, failedAt: map<nat, int>): StoredEpoch -> bool {
    (e: StoredEpoch) => !Waits(c, k.now, failedAt, e.head.epoch)
  }

  function TryOf(c: Config, k: Clock): StoredEpoch -> Try {
    (e: StoredEpoch) => Try(e.head.epoch, At(k, e.head.epoch), Refusals(c, k.ask, e.head.epoch, e.anchors) == [])
  }

  /** Missing epochs as they are stored, each once. */
  ghost predicate Pending(c: Config, s: State, pending: seq<StoredEpoch>) {
    && (forall i :: 0 <= i < |pending| ==> Untouched(s, pending[i]) && Misses(c, pending[i]))
    && (forall i, j :: 0 <= i < j < |pending| ==> pending[i].head.epoch != pending[j].head.epoch)
  }

  /** The world after the first `n` pending epochs. */
  ghost predicate Visited(c: Config, k: Clock, w: World, pending: seq<StoredEpoch>, n: nat, v: World)
    requires n <= |pending|
  {
    && Ok(c, v) && Extends(w.state, v.state) && |v.state.epochs| == |w.state.epochs|
      && v.state.decisions == w.state.decisions
    && (forall i :: n <= i < |pending| ==> Untouched(v.state, pending[i]))
    && (forall i :: n <= i < |pending| ==> SameMemory(w.failedAt, v.failedAt, pending[i].head.epoch))
    && v.tries == w.tries + Map(TryOf(c, k), Filter(Asks(c, k, w.failedAt), pending[..n]))
  }

  predicate SameMemory(a: map<nat, int>, b: map<nat, int>, epoch: nat) {
    (epoch in a <==> epoch in b) && (epoch in a ==> a[epoch] == b[epoch])
  }

  lemma VisitKeeps(c: Config, k: Clock, w: World, pending: seq<StoredEpoch>, n: nat, v: World)
    requires Pending(c, w.state, pending) && n < |pending| && Visited(c, k, w, pending, n, v)
    ensures Visited(c, k, w, pending, n + 1, Visit(c, k, v, pending[n]))
  {
    hide Ok, Misses, Attempt, Map, Filter, Extends;
    var e := pending[n];
    var v' := Visit(c, k, v, e);
    assert SameMemory(w.failedAt, v.failedAt, e.head.epoch);
    assert Waits(c, k.now, v.failedAt, e.head.epoch) == Waits(c, k.now, w.failedAt, e.head.epoch);
    FilterNext(Asks(c, k, w.failedAt), pending, n);
    if !Waits(c, k.now, v.failedAt, e.head.epoch) {
      AttemptKeeps(c, k, v, e);
      OkValid(c, v);
      AttemptState(c, k, v, e);
      AttemptMemory(c, k, v, e);
      ExtendsTransitive(w.state, v.state, v'.state);
      assert Asks(c, k, w.failedAt)(e);
      var asked := Filter(Asks(c, k, w.failedAt), pending[..n]);
      MapOneMore(TryOf(c, k), asked, e);
      ConcatAssociates(w.tries, Map(TryOf(c, k), asked), [TryOf(c, k)(e)]);
      forall i | n + 1 <= i < |pending|
        ensures Untouched(v'.state, pending[i]) && SameMemory(w.failedAt, v'.failedAt, pending[i].head.epoch)
      {
        assert Untouched(v.state, pending[i]) && pending[i].head.epoch != e.head.epoch;
        assert SameMemory(w.failedAt, v.failedAt, pending[i].head.epoch);
        assert SameMemory(v.failedAt, v'.failedAt, pending[i].head.epoch);
      }
    }
  }

  lemma OkValid(c: Config, w: World)
    requires Ok(c, w)
    ensures Valid(c.env, w.state)
  {
  }

  lemma MapOneMore<T, U>(f: T -> U, s: seq<T>, x: T)
    ensures Map(f, s + [x]) == Map(f, s) + [f(x)]
  {
    MapConcat(f, s, [x]);
  }

  lemma AttemptMemory(c: Config, k: Clock, w: World, e: StoredEpoch)
    ensures var v := Attempt(c, k, w, e);
            v.tries == w.tries + [TryOf(c, k)(e)]
            && forall other :: other != e.head.epoch ==> SameMemory(w.failedAt, v.failedAt, other)
  {
    hide Receipts, Refusals, Stored, AnchorsAfter, Kinds, Map;
  }

  lemma NoneVisited(c: Config, k: Clock, w: World, pending: seq<StoredEpoch>)
    requires Ok(c, w) && Pending(c, w.state, pending)
    ensures Visited(c, k, w, pending, 0, VisitAll(c, k, w, pending[..0]))
  {
    hide Ok, Misses, Visit;
    assert Filter(Asks(c, k, w.failedAt), pending[..0]) == [];
  }

  lemma {:induction false} VisitAllKeeps(c: Config, k: Clock, w: World, pending: seq<StoredEpoch>, n: nat)
    requires Ok(c, w) && Pending(c, w.state, pending) && n <= |pending|
    ensures Visited(c, k, w, pending, n, VisitAll(c, k, w, pending[..n]))
  {
    hide *;
    if n > 0 {
      VisitAllKeeps(c, k, w, pending, n - 1);
      VisitNext(c, k, w, pending, n - 1);
      VisitKeeps(c, k, w, pending, n - 1, VisitAll(c, k, w, pending[..n - 1]));
    } else {
      NoneVisited(c, k, w, pending);
    }
  }

  ghost predicate Ascending(s: seq<StoredEpoch>) {
    forall i, j :: 0 <= i < j < |s| ==> s[i].head.epoch < s[j].head.epoch
  }

  lemma PrependAscends(e: StoredEpoch, rest: seq<StoredEpoch>)
    requires Ascending(rest) && forall x :: x in rest ==> e.head.epoch < x.head.epoch
    ensures Ascending([e] + rest)
  {
    var s := [e] + rest;
    forall i, j | 0 <= i < j < |s| ensures s[i].head.epoch < s[j].head.epoch {
      assert s[j] == rest[j - 1] && (i > 0 ==> s[i] == rest[i - 1]);
    }
  }

  lemma AscendingTail(s: seq<StoredEpoch>)
    requires s != [] && Ascending(s)
    ensures Ascending(s[1..]) && forall x :: x in s[1..] ==> s[0].head.epoch < x.head.epoch
  {
    var rest := s[1..];
    assert forall i :: 0 <= i < |rest| ==> rest[i] == s[i + 1];
  }

  lemma {:induction false} FilterAscends(p: StoredEpoch -> bool, s: seq<StoredEpoch>)
    requires Ascending(s)
    ensures Ascending(Filter(p, s))
  {
    if s != [] {
      AscendingTail(s);
      hide Ascending;
      FilterAscends(p, s[1..]);
      PrependIfAscends(p, s[0], Filter(p, s[1..]));
    }
  }

  lemma PrependIfAscends(p: StoredEpoch -> bool, e: StoredEpoch, rest: seq<StoredEpoch>)
    requires Ascending(rest) && forall x :: x in rest ==> e.head.epoch < x.head.epoch
    ensures Ascending((if p(e) then [e] else []) + rest)
  {
    PrependAscends(e, rest);
    assert [] + rest == rest;
  }

  lemma PendingIs(c: Config, s: State)
    requires Valid(c.env, s)
    ensures Pending(c, s, Filter(MissesOf(c), s.epochs))
  {
    forall i | 0 <= i < |s.epochs| ensures s.epochs[i].head.epoch == i {
      EpochNumbers(c.env, s, i);
    }
    hide Valid, Misses;
    assert Ascending(s.epochs);
    FilterAscends(MissesOf(c), s.epochs);
    var pending := Filter(MissesOf(c), s.epochs);
    hide Filter;
    forall i | 0 <= i < |pending| ensures Untouched(s, pending[i]) && Misses(c, pending[i]) {
      assert pending[i] in s.epochs;
    }
  }

  /** Exactly the missing epochs whose retry time has come are asked about, each
      once, with everything else kept. */
  lemma AnchorPendingKeeps(c: Config, k: Clock, w: World)
    requires Ok(c, w)
    ensures var v := AnchorPending(c, k, w);
            Ok(c, v) && Extends(w.state, v.state) && |v.state.epochs| == |w.state.epochs|
            && v.state.decisions == w.state.decisions
            && v.tries == w.tries
              + Map(TryOf(c, k), Filter(Asks(c, k, w.failedAt), Filter(MissesOf(c), w.state.epochs)))
  {
    hide Ok, Misses, Filter, Map, VisitAll, Extends, Pending;
    OkValid(c, w);
    PendingIs(c, w.state);
    var pending := Filter(MissesOf(c), w.state.epochs);
    VisitAllKeeps(c, k, w, pending, |pending|);
    assert pending[..|pending|] == pending;
  }

  // ----- sealing and appending -----

  lemma AppendsKeep(c: Config, w: World, late: seq<Arrival>)
    requires Ok(c, w)
    ensures var s := AllAppended(c.env, w.state, late);
            Ok(c, w.(state := s)) && Extends(w.state, s) && s.epochs == w.state.epochs
            && |s.decisions| == |w.state.decisions| + |late|
  {
    hide Valid, Misses, LastTry, Count;
    AppendsKeepValid(c.env, w.state, late);
    AppendsCount(c.env, w.state, late);
    var v := w.(state := AllAppended(c.env, w.state, late));
    forall e: nat ensures ReportedOnce(c, v, e) && Remembers(v, e) {
      assert ReportedOnce(c, w, e) && Remembers(w, e);
    }
  }

  lemma {:induction false} AppendsCount(env: Env, s: State, late: seq<Arrival>)
    ensures |AllAppended(env, s, late).decisions| == |s.decisions| + |late|
  {
    if late != [] {
      AppendsCount(env, s, late[..|late| - 1]);
      hide AllAppended;
      OneAppended(env, AllAppended(env, s, late[..|late| - 1]), late[|late| - 1]);
      AllAppendedNext(env, s, late);
    }
  }

  lemma OneAppended(env: Env, s: State, a: Arrival)
    ensures |Appended(env, s, a).decisions| == |s.decisions| + 1
  {
  }

  lemma AllAppendedNext(env: Env, s: State, late: seq<Arrival>)
    requires late != []
    ensures AllAppended(env, s, late) == Appended(env, AllAppended(env, s, late[..|late| - 1]), late[|late| - 1])
  {
    hide Appended;
  }

  lemma SealKeeps(c: Config, w: World, now: int, sealedAt: string)
    requires Ok(c, w)
    ensures var v := SealNow(c, w, now, sealedAt);
            Ok(c, v) && Extends(w.state, v.state) && Unsealed(v.state) == 0 && v.tries == w.tries
              && v.failedAt == w.failedAt
  {
    hide Misses, NextHead, LastTry, Valid;
    SealKeepsValid(c.env, w.state, sealedAt);
    var v := SealNow(c, w, now, sealedAt);
    SealsAll(c.env, w.state, sealedAt);
    forall e: nat ensures ReportedOnce(c, v, e) && Remembers(v, e) {
      assert ReportedOnce(c, w, e) && Remembers(w, e);
      if HasUnsealed(w.state) {
        var event := v.events[|w.events|];
        assert v.events == w.events + [event];
        CountMore(IsAnchored(e), w.events, [event]);
        NoReports([event], e);
      }
    }
  }

  lemma SealsAll(env: Env, s: State, sealedAt: string)
    requires Valid(env, s)
    ensures Unsealed(Sealed(env, s, sealedAt)) == 0
  {
    SealKeepsValid(env, s, sealedAt);
    NextAfterLast(env, Sealed(env, s, sealedAt));
    hide Valid, NextUnsealed, NextHead;
  }

  lemma SameNext(env: Env, s: State, t: State)
    requires Valid(env, s) && Valid(env, t) && Extends(s, t) && |s.epochs| == |t.epochs| && s.decisions == t.decisions
    ensures Unsealed(t) == Unsealed(s)
  {
    NextAfterLast(env, s);
    NextAfterLast(env, t);
    hide Valid, NextUnsealed;
  }

  // ----- one step -----

  lemma TickKeeps(c: Config, w: World, now: int, late: seq<Arrival>, sealedAt: string, ask: Authority)
    requires Ok(c, w)
    ensures var v := Ticked(c, w, now, late, sealedAt, ask);
            Ok(c, v) && Extends(w.state, v.state)
  {
    hide Ok, Extends, AllAppended, SealNow, AnchorPending, Unsealed;
    AppendsKeep(c, w, late);
    var w' := w.(state := AllAppended(c.env, w.state, late));
    SealKeeps(c, w', now, sealedAt);
    var due := IsDue(c.policy, Unsealed(w.state), now, w.lastSeal);
    var w'' := if due then SealNow(c, w', now, sealedAt) else w';
    ExtendsSelf(w'.state);
    AnchorPendingKeeps(c, Clock(Some(now), ask, _ => now), w'');
    ExtendsTransitive(w.state, w'.state, w''.state);
    ExtendsTransitive(w.state, w''.state, Ticked(c, w, now, late, sealedAt, ask).state);
  }

  lemma ExtendsSelf(s: State)
    ensures Extends(s, s)
  {
  }

  lemma FlushKeeps(c: Config, w: World, now: int, late: seq<Arrival>, sealedAt: string, ask: Authority,
                   later: nat -> int)
    requires Ok(c, w)
    ensures var v := Flushed(c, w, now, late, sealedAt, ask, later);
            Ok(c, v) && Extends(w.state, v.state)
  {
    hide Ok, Extends, AllAppended, SealNow, AnchorPending, Unsealed;
    AppendsKeep(c, w, late);
    var w' := w.(state := AllAppended(c.env, w.state, late));
    SealKeeps(c, w', now, sealedAt);
    var w'' := if Unsealed(w.state) > 0 then SealNow(c, w', now, sealedAt) else w';
    ExtendsSelf(w'.state);
    AnchorPendingKeeps(c, Clock(None, ask, later), w'');
    ExtendsTransitive(w.state, w'.state, w''.state);
    ExtendsTransitive(w.state, w''.state, Flushed(c, w, now, late, sealedAt, ask, later).state);
  }

  lemma RestartKeeps(c: Config, w: World, started: int)
    requires Ok(c, w)
    ensures Ok(c, After(c, w, RestartStep(started)))
  {
    hide Valid, Misses, Count;
    var v := After(c, w, RestartStep(started));
    forall e: nat ensures ReportedOnce(c, v, e) && Remembers(v, e) {
      assert ReportedOnce(c, w, e);
    }
  }

  lemma AppendKeeps(c: Config, w: World, a: Arrival)
    requires Ok(c, w)
    ensures Ok(c, After(c, w, AppendStep(a))) && Extends(w.state, After(c, w, AppendStep(a)).state)
  {
    hide Ok, Extends, Appended;
    AppendsKeep(c, w, [a]);
    assert [a][..0] == [] && AllAppended(c.env, w.state, []) == w.state;
  }

  lemma StepKeeps(c: Config, w: World, step: Step)
    requires Ok(c, w)
    ensures Ok(c, After(c, w, step)) && Extends(w.state, After(c, w, step).state)
  {
    hide Ok, Ticked, Flushed, Appended;
    match step
    case AppendStep(a) => AppendKeeps(c, w, a);
    case TickStep(now, late, sealedAt, ask) => TickKeeps(c, w, now, late, sealedAt, ask);
    case FlushStep(now, late, sealedAt, ask, later) => FlushKeeps(c, w, now, late, sealedAt, ask, later);
    case RestartStep(started) => RestartKeeps(c, w, started);
  }

  // ----- whole runs -----

  lemma NothingYet(c: Config, started: int)
    ensures Ok(c, Run(c, started, []))
  {
  }

  lemma {:induction false} RunOk(c: Config, started: int, steps: seq<Step>)
    ensures Ok(c, Run(c, started, steps))
  {
    hide Ok, After;
    if steps == [] {
      NothingYet(c, started);
    } else {
      var init := steps[..|steps| - 1];
      RunOk(c, started, init);
      StepKeeps(c, Run(c, started, init), steps[|steps| - 1]);
    }
  }

  /** In every run: the ledger is valid, its epochs cover the entries before the
      first unsealed one, each exactly once, an epoch holds at most one receipt
      of a kind, and is reported anchored at most once, and then holds every
      kind wanted. */
  lemma EveryRun(c: Config, started: int, steps: seq<Step>, epoch: nat, seqNo: nat)
    ensures var w := Run(c, started, steps);
            Valid(c.env, w.state)
            && (seqNo < NextUnsealed(w.state.epochs) <==>
                exists i :: 0 <= i < |w.state.epochs| && InEpoch(w.state, i, seqNo))
            && (forall i, j ::
                  0 <= i < |w.state.epochs| && 0 <= j < |w.state.epochs| && InEpoch(w.state, i, seqNo)
                    && InEpoch(w.state, j, seqNo)
                  ==> i == j)
            && Count(IsAnchored(epoch), w.events) <= 1
            && (epoch < |w.state.epochs| ==> OncePerKind(w.state.epochs[epoch].anchors))
            && (Count(IsAnchored(epoch), w.events) == 1 ==>
                  epoch < |w.state.epochs| && forall k :: k in Wanted(c) ==> Holds(w.state.epochs[epoch].anchors, k))
  {
    RunOk(c, started, steps);
    hide Run, Valid, NextUnsealed, InEpoch, Remembers, OncePerKind, Count;
    var w := Run(c, started, steps);
    assert ReportedOnce(c, w, epoch);
    EpochsPartition(c.env, w.state, seqNo);
    if epoch < |w.state.epochs| {
      Once(c.env, w.state, epoch);
    }
  }

  /** Nothing stored at any point of a run is lost or changed later on. */
  lemma {:induction false} NothingLost(c: Config, started: int, steps: seq<Step>, n: nat)
    requires n <= |steps|
    ensures Extends(Run(c, started, steps[..n]).state, Run(c, started, steps).state)
    decreases |steps|
  {
    hide Extends, After;
    if n == |steps| {
      assert steps[..n] == steps;
      ExtendsSelf(Run(c, started, steps).state);
    } else {
      var init := steps[..|steps| - 1];
      assert init[..n] == steps[..n];
      NothingLost(c, started, init, n);
      RunOk(c, started, init);
      StepKeeps(c, Run(c, started, init), steps[|steps| - 1]);
      ExtendsTransitive(Run(c, started, steps[..n]).state, Run(c, started, init).state, Run(c, started, steps).state);
    }
  }

  /** A tick with `every = n` leaves fewer than `max(n, 1)` entries unsealed, not
      counting those that arrive during the tick. */
  lemma TickBoundsUnsealed(c: Config, w: World, now: int, late: seq<Arrival>, sealedAt: string, ask: Authority)
    requires Ok(c, w) && c.policy.every.Some?
    ensures var n := c.policy.every.value;
            Unsealed(Ticked(c, w, now, late, sealedAt, ask).state) < (if n < 1 then 1 else n) + |late|
  {
    hide Ok, AllAppended, SealNow, AnchorPending, Unsealed, Valid, Extends;
    AppendsKeep(c, w, late);
    var w' := w.(state := AllAppended(c.env, w.state, late));
    SealKeeps(c, w', now, sealedAt);
    OkValid(c, w);
    LateUnsealed(c.env, w.state, w'.state, |late|);
    var due := IsDue(c.policy, Unsealed(w.state), now, w.lastSeal);
    var w'' := if due then SealNow(c, w', now, sealedAt) else w';
    var k := Clock(Some(now), ask, _ => now);
    AnchorPendingKeeps(c, k, w'');
    OkValid(c, w'');
    OkValid(c, AnchorPending(c, k, w''));
    SameNext(c.env, w''.state, AnchorPending(c, k, w'').state);
  }

  lemma LateUnsealed(env: Env, s: State, t: State, n: nat)
    requires Valid(env, s) && s.epochs == t.epochs && |t.decisions| == |s.decisions| + n
    ensures Unsealed(t) <= Unsealed(s) + n
  {
    NextAfterLast(env, s);
    hide Valid, NextUnsealed;
  }

  /** What a tick tries: the epochs that miss a wanted kind once it has sealed,
      unless their last try in this run failed less than `retry` ago. */
  lemma TickTries(c: Config, w: World, now: int, late: seq<Arrival>, sealedAt: string, ask: Authority)
    requires Ok(c, w)
    ensures var v := Ticked(c, w, now, late, sealedAt, ask);
            |w.tries| <= |v.tries| && v.tries[..|w.tries|] == w.tries
            && forall i :: |w.tries| <= i < |v.tries| ==>
                 v.tries[i].at == now && RetryCame(c, w, v.tries[i].epoch, now)
  {
    hide Ok, AllAppended, SealNow, AnchorPending, Unsealed, Filter, Map, Misses, Refusals;
    AppendsKeep(c, w, late);
    var w' := w.(state := AllAppended(c.env, w.state, late));
    SealKeeps(c, w', now, sealedAt);
    var due := IsDue(c.policy, Unsealed(w.state), now, w.lastSeal);
    var w'' := if due then SealNow(c, w', now, sealedAt) else w';
    var k := Clock(Some(now), ask, _ => now);
    AnchorPendingKeeps(c, k, w'');
    var asked := Filter(Asks(c, k, w.failedAt), Filter(MissesOf(c), w''.state.epochs));
    var v := Ticked(c, w, now, late, sealedAt, ask);
    forall i | |w.tries| <= i < |v.tries| ensures v.tries[i].at == now && RetryCame(c, w, v.tries[i].epoch, now) {
      var e := asked[i - |w.tries|];
      assert v.tries[i] == TryOf(c, k)(e) && e in asked;
      Remembered(c, w, e.head.epoch, now);
    }
  }

  /** The last try of the epoch in this run, if it failed, was at least `retry` ago. */
  predicate RetryCame(c: Config, w: World, epoch: nat, now: int) {
    var last := LastTry(w.tries, epoch);
    last.Some? && !last.value.ok ==> now - last.value.at >= c.policy.retry || c.policy.retry == 0
  }

  lemma Remembered(c: Config, w: World, epoch: nat, now: int)
    requires Ok(c, w)
    ensures RetryCame(c, w, epoch, now) <==> !Waits(c, Some(now), w.failedAt, epoch)
  {
    assert Remembers(w, epoch);
  }

  // ----- progress -----

  /** An attempt leaves a wanted kind missing exactly when an authority refused. */
  lemma CompleteExactly(c: Config, ask: Authority, epoch: nat, e: StoredEpoch, after: StoredEpoch)
    requires OncePerKind(e.anchors)
    requires after.anchors == WithReceipts(e.anchors, Receipts(c, ask, epoch, e.anchors))
    ensures Misses(c, after) <==> Refusals(c, ask, epoch, e.anchors) != []
  {
    if Refusals(c, ask, epoch, e.anchors) == [] {
      CompleteWithoutRefusal(c, ask, epoch, e, after);
    } else {
      ReceiptsKept(e.anchors, Receipts(c, ask, epoch, e.anchors));
      hide WithReceipts, OncePerKind;
      var k := if Refused(c.tsa, Rfc3161, ask, epoch, e.anchors) != [] then Rfc3161 else Rekor;
      assert k in Wanted(c) && !Holds(e.anchors, k);
      assert forall r :: r in Receipts(c, ask, epoch, e.anchors) ==> r.kind != k;
      assert !Holds(after.anchors, k);
    }
  }

  /** Epoch `e` will still miss a kind: its retry time has not come, or it is refused. */
  predicate StaysMissing(c: Config, k: Clock, failedAt: map<nat, int>, e: StoredEpoch) {
    Misses(c, e) && (Waits(c, k.now, failedAt, e.head.epoch) || Refusals(c, k.ask, e.head.epoch, e.anchors) != [])
  }

  lemma VisitOutcome(c: Config, k: Clock, w: World, v: World, e: StoredEpoch)
    requires Valid(c.env, v.state) && Untouched(v.state, e) && Misses(c, e)
    requires SameMemory(w.failedAt, v.failedAt, e.head.epoch)
    ensures var s := Visit(c, k, v, e).state;
            && e.head.epoch < |s.epochs| == |v.state.epochs|
            && (Misses(c, s.epochs[e.head.epoch]) <==> StaysMissing(c, k, w.failedAt, e))
            && forall i :: 0 <= i < |s.epochs| && i != e.head.epoch ==> s.epochs[i] == v.state.epochs[i]
  {
    hide Misses, Receipts, Refusals, WithReceipts, Valid, Attempt;
    if !Waits(c, k.now, v.failedAt, e.head.epoch) {
      AttemptState(c, k, v, e);
      Once(c.env, v.state, e.head.epoch);
      CompleteExactly(c, k.ask, e.head.epoch, e, Attempt(c, k, v, e).state.epochs[e.head.epoch]);
    }
  }

  lemma {:induction false} PendingOutcome(c: Config, k: Clock, w: World, pending: seq<StoredEpoch>, n: nat, j: nat)
    requires Ok(c, w) && Pending(c, w.state, pending) && j < n <= |pending|
    ensures var s := VisitAll(c, k, w, pending[..n]).state;
            pending[j].head.epoch < |s.epochs|
            && (Misses(c, s.epochs[pending[j].head.epoch]) <==> StaysMissing(c, k, w.failedAt, pending[j]))
  {
    hide Ok, Misses, VisitAll, Visit, Extends, StaysMissing, Filter, Map;
    var v, e := VisitAll(c, k, w, pending[..n - 1]), pending[n - 1];
    VisitAllKeeps(c, k, w, pending, n - 1);
    VisitNext(c, k, w, pending, n - 1);
    OkValid(c, v);
    assert Untouched(v.state, e) && SameMemory(w.failedAt, v.failedAt, e.head.epoch);
    VisitOutcome(c, k, w, v, e);
    if j < n - 1 {
      PendingOutcome(c, k, w, pending, n - 1, j);
    }
  }

  lemma StaysComplete(c: Config, s: State, t: State, i: nat)
    requires Extends(s, t) && i < |s.epochs| && !Misses(c, s.epochs[i])
    ensures !Misses(c, t.epochs[i])
  {
    forall k | k in Wanted(c) ensures k in Kinds(t.epochs[i].anchors) {
      HeldMore(s.epochs[i].anchors, t.epochs[i].anchors, k);
    }
  }

  lemma HeldMore(some: seq<Receipt>, more: seq<Receipt>, k: Kind)
    requires some <= more && k in Kinds(some)
    ensures k in Kinds(more)
  {
    var r :| r in some && r.kind == k;
    assert r in more;
  }

  /** After all pending epochs were visited an epoch misses a kind exactly when it did
      before and its retry time has not come or an authority refused. */
  lemma MissingAfter(c: Config, k: Clock, w: World, i: nat)
    requires Ok(c, w) && i < |w.state.epochs|
    ensures var s := AnchorPending(c, k, w).state;
            |s.epochs| == |w.state.epochs|
            && (Misses(c, s.epochs[i]) <==> StaysMissing(c, k, w.failedAt, w.state.epochs[i]))
  {
    hide Ok, Filter, Map, VisitAll, Extends, Pending, Refusals, Valid;
    OkValid(c, w);
    PendingIs(c, w.state);
    AnchorPendingKeeps(c, k, w);
    EpochNumbers(c.env, w.state, i);
    var pending := Filter(MissesOf(c), w.state.epochs);
    var e := w.state.epochs[i];
    hide Misses;
    if Misses(c, e) {
      assert MissesOf(c)(e) && e in pending;
      var j :| 0 <= j < |pending| && pending[j] == e;
      PendingOutcome(c, k, w, pending, |pending|, j);
      assert pending[..|pending|] == pending;
    } else {
      StaysComplete(c, w.state, AnchorPending(c, k, w).state, i);
    }
  }

  lemma AllAfter(c: Config, k: Clock, w: World)
    requires Ok(c, w)
    ensures (forall e :: e in AnchorPending(c, k, w).state.epochs ==> !Misses(c, e)) <==>
            forall e :: e in w.state.epochs ==> !StaysMissing(c, k, w.failedAt, e)
  {
    hide Ok, Misses, StaysMissing, AnchorPending;
    AnchorPendingKeeps(c, k, w);
    var s := AnchorPending(c, k, w).state;
    forall i | 0 <= i < |w.state.epochs|
      ensures Misses(c, s.epochs[i]) <==> StaysMissing(c, k, w.failedAt, w.state.epochs[i])
    {
      MissingAfter(c, k, w, i);
    }
    hide Extends;
    SameAll(c, k, w.failedAt, w.state.epochs, s.epochs);
  }

  lemma SameAll(c: Config, k: Clock, failedAt: map<nat, int>, before: seq<StoredEpoch>, after: seq<StoredEpoch>)
    requires |before| == |after|
    requires forall i :: 0 <= i < |before| ==> (Misses(c, after[i]) <==> StaysMissing(c, k, failedAt, before[i]))
    ensures (forall e :: e in after ==> !Misses(c, e)) <==> forall e :: e in before ==> !StaysMissing(c, k, failedAt, e)
  {
    hide Misses, StaysMissing;
    if forall e :: e in after ==> !Misses(c, e) {
      forall e | e in before ensures !StaysMissing(c, k, failedAt, e) {
        var i :| 0 <= i < |before| && before[i] == e;
        assert after[i] in after;
      }
    }
    if forall e :: e in before ==> !StaysMissing(c, k, failedAt, e) {
      forall e | e in after ensures !Misses(c, e) {
        var i :| 0 <= i < |after| && after[i] == e;
        assert before[i] in before;
      }
    }
  }

  /** What a flush has sealed when it starts to ask. */
  function FlushStart(c: Config, w: World, now: int, late: seq<Arrival>, sealedAt: string): World {
    var w' := w.(state := AllAppended(c.env, w.state, late));
    if Unsealed(w.state) > 0 then SealNow(c, w', now, sealedAt) else w'
  }

  /** No configured authority refuses. */
  ghost predicate NoneRefuses(c: Config, ask: Authority) {
    forall epoch: nat, k :: k in Wanted(c) ==> ask(epoch, k).Ok?
  }

  lemma NoRefusals(c: Config, ask: Authority, epoch: nat, have: seq<Receipt>)
    requires NoneRefuses(c, ask)
    ensures Refusals(c, ask, epoch, have) == []
  {
    assert c.tsa ==> Rfc3161 in Wanted(c);
    assert c.rekor ==> Rekor in Wanted(c);
  }

  /** A flush leaves only late arrivals unsealed, and no epoch without a wanted receipt
      exactly when no epoch is refused; so when no authority refuses, none. */
  lemma FlushCompletes(c: Config, w: World, now: int, late: seq<Arrival>, sealedAt: string, ask: Authority,
                       later: nat -> int)
    requires Ok(c, w)
    ensures var start, v := FlushStart(c, w, now, late, sealedAt), Flushed(c, w, now, late, sealedAt, ask, later);
            && Unsealed(v.state) <= |late|
            && ((forall e :: e in v.state.epochs ==> !Misses(c, e)) <==>
                forall e :: e in start.state.epochs && Misses(c, e) ==> Refusals(c, ask, e.head.epoch, e.anchors) == [])
            && (NoneRefuses(c, ask) ==> forall e :: e in v.state.epochs ==> !Misses(c, e))
  {
    hide Ok, Misses, Refusals, AllAppended, SealNow, AnchorPending, Unsealed, Valid, Extends, NoneRefuses;
    AppendsKeep(c, w, late);
    var w' := w.(state := AllAppended(c.env, w.state, late));
    SealKeeps(c, w', now, sealedAt);
    OkValid(c, w);
    LateUnsealed(c.env, w.state, w'.state, |late|);
    var start, k := FlushStart(c, w, now, late, sealedAt), Clock(None, ask, later);
    OkValid(c, start);
    AnchorPendingKeeps(c, k, start);
    OkValid(c, AnchorPending(c, k, start));
    SameNext(c.env, start.state, AnchorPending(c, k, start).state);
    AllAfter(c, k, start);
    forall e: StoredEpoch | NoneRefuses(c, ask) ensures Refusals(c, ask, e.head.epoch, e.anchors) == [] {
      NoRefusals(c, ask, e.head.epoch, e.anchors);
    }
  }

  /** What a tick has sealed when it starts to ask. */
  function TickStart(c: Config, w: World, now: int, late: seq<Arrival>, sealedAt: string): World {
    var w' := w.(state := AllAppended(c.env, w.state, late));
    if IsDue(c.policy, Unsealed(w.state), now, w.lastSeal) then SealNow(c, w', now, sealedAt) else w'
  }

  /** A tick leaves no epoch without a wanted receipt exactly when for each that misses one
      the retry time has come and no authority refuses. */
  lemma TickCompletes(c: Config, w: World, now: int, late: seq<Arrival>, sealedAt: string, ask: Authority)
    requires Ok(c, w)
    ensures var start, v := TickStart(c, w, now, late, sealedAt), Ticked(c, w, now, late, sealedAt, ask);
            (forall e :: e in v.state.epochs ==> !Misses(c, e)) <==>
            forall e :: e in start.state.epochs && Misses(c, e) ==>
              RetryCame(c, w, e.head.epoch, now) && Refusals(c, ask, e.head.epoch, e.anchors) == []
  {
    hide Ok, Misses, Refusals, AllAppended, SealNow, AnchorPending, Unsealed, Waits, IsDue, RetryCame;
    AppendsKeep(c, w, late);
    SealKeeps(c, w.(state := AllAppended(c.env, w.state, late)), now, sealedAt);
    var start := TickStart(c, w, now, late, sealedAt);
    AllAfter(c, Clock(Some(now), ask, _ => now), start);
    forall epoch: nat ensures RetryCame(c, w, epoch, now) <==> !Waits(c, Some(now), w.failedAt, epoch) {
      Remembered(c, w, epoch, now);
    }
  }
}
