/** What one tick does, told from the ledger before it: when it seals, which epochs
    it asks about, and which receipts are then held. */
module AnchoringTicks {
  import opened Text
  import opened Lists
  import opened Epochs
  import opened Ledger
  import opened Anchoring
  import opened AnchoringRuns

  // ----- the terms -----

  predicate IsOpen(s: State, n: nat) {
    n < |s.decisions| && forall i :: 0 <= i < |s.epochs| ==> !InEpoch(s, i, n)
  }

  /** The entries that no epoch holds. */
  ghost function Open(s: State): set<nat> {
    set n: nat | n < |s.decisions| && IsOpen(s, n)
  }

  predicate InSpan(from: nat, to: nat, n: nat) {
    from <= n < to
  }

  function Span(from: nat, to: nat): set<nat> {
    set n: nat | n < to && InSpan(from, to, n)
  }

  lemma {:induction false} SpanSize(from: nat, to: nat)
    requires from <= to
    ensures |Span(from, to)| == to - from
  {
    if from < to {
      SpanSize(from, to - 1);
      assert Span(from, to) == Span(from, to - 1) + {to - 1};
    }
  }

  lemma OpenIs(env: Env, s: State)
    requires Valid(env, s)
    ensures Open(s) == Span(NextUnsealed(s.epochs), |s.decisions|) && |Open(s)| == Unsealed(s)
  {
    hide Valid, NextUnsealed, InEpoch;
    forall n: nat ensures n in Open(s) <==> n in Span(NextUnsealed(s.epochs), |s.decisions|) {
      EpochsPartition(env, s, n);
    }
    NextAfterLast(env, s);
    SpanSize(NextUnsealed(s.epochs), |s.decisions|);
  }

  /** No receipt of the kind is among them. */
  predicate Without(receipts: seq<Receipt>, kind: Kind) {
    forall i :: 0 <= i < |receipts| ==> receipts[i].kind != kind
  }

  /** An authority that is set up has given no receipt yet. */
  predicate LacksReceipt(c: Config, receipts: seq<Receipt>) {
    (c.tsa && Without(receipts, Rfc3161)) || (c.rekor && Without(receipts, Rekor))
  }

  lemma MissesIs(c: Config, e: StoredEpoch)
    ensures Misses(c, e) <==> LacksReceipt(c, e.anchors)
  {
    WithoutIs(e.anchors, Rekor);
    WithoutIs(e.anchors, Rfc3161);
    hide Holds, Without;
    assert c.tsa ==> Rfc3161 in Wanted(c);
    assert c.rekor ==> Rekor in Wanted(c);
  }

  lemma WithoutIs(receipts: seq<Receipt>, kind: Kind)
    ensures Without(receipts, kind) <==> !Holds(receipts, kind)
  {
  }

  // ----- sealing -----

  lemma {:induction false} VisitsKeepSeal(c: Config, k: Clock, w: World, pending: seq<StoredEpoch>)
    ensures VisitAll(c, k, w, pending).lastSeal == w.lastSeal
  {
    if pending != [] {
      VisitsKeepSeal(c, k, w, pending[..|pending| - 1]);
      hide Receipts, Refusals, Stored, Kinds, Map;
    }
  }

  lemma SealsOne(env: Env, s: State, sealedAt: string)
    requires Valid(env, s) && Unsealed(s) > 0
    ensures |Sealed(env, s, sealedAt).epochs| == |s.epochs| + 1
    ensures Sealed(env, s, sealedAt).epochs[|s.epochs|].anchors == []
    ensures Sealed(env, s, sealedAt).epochs[..|s.epochs|] == s.epochs
    ensures Sealed(env, s, sealedAt).decisions == s.decisions
  {
    hide Valid, NextUnsealed, NextHead;
    NextAfterLast(env, s);
    var head := NextHead(env, s, sealedAt);
    assert Sealed(env, s, sealedAt).epochs == s.epochs + [StoredEpoch(head, [], None)];
  }

  lemma StillUnsealed(env: Env, s: State, t: State)
    requires Valid(env, s) && Valid(env, t) && s.epochs == t.epochs && |s.decisions| <= |t.decisions|
    ensures Unsealed(s) > 0 ==> Unsealed(t) > 0
  {
    hide Valid, NextUnsealed;
    NextAfterLast(env, s);
    NextAfterLast(env, t);
  }

  /** What is stored when the authorities are asked. */
  function StartOf(c: Config, w: World, due: bool, now: int, late: seq<Arrival>, sealedAt: string): World {
    var w' := w.(state := AllAppended(c.env, w.state, late));
    if due then SealNow(c, w', now, sealedAt) else w'
  }

  /** Sealing makes one epoch more, without receipts, and leaves nothing open. */
  lemma SealStart(c: Config, w: World, due: bool, now: int, late: seq<Arrival>, sealedAt: string)
    requires AnchoringRuns.Ok(c, w) && (due ==> Unsealed(w.state) > 0)
    ensures var start := StartOf(c, w, due, now, late, sealedAt);
            && AnchoringRuns.Ok(c, start) && start.tries == w.tries && start.failedAt == w.failedAt
            && start.lastSeal == (if due then now else w.lastSeal)
            && |start.state.decisions| == |w.state.decisions| + |late|
            && |start.state.epochs| == |w.state.epochs| + (if due then 1 else 0)
            && start.state.epochs[..|w.state.epochs|] == w.state.epochs
            && (due ==> start.state.epochs[|w.state.epochs|].anchors == [])
            && NextUnsealed(start.state.epochs) ==
               (if due then |start.state.decisions| else NextUnsealed(w.state.epochs))
  {
    hide AnchoringRuns.Ok, AllAppended, Unsealed, NextUnsealed, Valid, Extends, Sealed, HasUnsealed, NextHead;
    AppendsKeep(c, w, late);
    var w' := w.(state := AllAppended(c.env, w.state, late));
    if due {
      OkValid(c, w);
      OkValid(c, w');
      SealKeeps(c, w', now, sealedAt);
      StillUnsealed(c.env, w.state, w'.state);
      SealsOne(c.env, w'.state, sealedAt);
      OkValid(c, SealNow(c, w', now, sealedAt));
      NextIs(c.env, SealNow(c, w', now, sealedAt).state);
    }
  }

  lemma NextIs(env: Env, s: State)
    requires Valid(env, s)
    ensures NextUnsealed(s.epochs) == |s.decisions| - Unsealed(s)
  {
    NextAfterLast(env, s);
    hide Valid, NextUnsealed;
  }

  /** Asking the authorities changes no range. */
  lemma PendingKeepsRanges(c: Config, k: Clock, w: World)
    requires AnchoringRuns.Ok(c, w)
    ensures var v := AnchorPending(c, k, w);
            && AnchoringRuns.Ok(c, v) && v.lastSeal == w.lastSeal && v.state.decisions == w.state.decisions
            && |v.state.epochs| == |w.state.epochs|
            && NextUnsealed(v.state.epochs) == NextUnsealed(w.state.epochs)
  {
    hide AnchoringRuns.Ok, AnchorPending;
    AnchorPendingKeeps(c, k, w);
    PendingKeepSeal(c, k, w);
    var v := AnchorPending(c, k, w);
    OkValid(c, w);
    OkValid(c, v);
    NextAfterLast(c.env, w.state);
    NextAfterLast(c.env, v.state);
    hide Valid, NextUnsealed;
  }

  /** One epoch more and nothing open, or the same epochs and the late arrivals open too. */
  lemma SealedOrNot(c: Config, k: Clock, w: World, due: bool, now: int, late: seq<Arrival>, sealedAt: string)
    requires AnchoringRuns.Ok(c, w) && (due ==> Unsealed(w.state) > 0)
    ensures var v := AnchorPending(c, k, StartOf(c, w, due, now, late, sealedAt));
            && |v.state.epochs| == |w.state.epochs| + (if due then 1 else 0)
            && v.lastSeal == (if due then now else w.lastSeal)
            && |v.state.decisions| == |w.state.decisions| + |late|
            && Open(v.state) == (if due then {} else Open(w.state) + Span(|w.state.decisions|, |v.state.decisions|))
  {
    hide AnchoringRuns.Ok, Unsealed, AnchorPending, StartOf, Open, NextUnsealed, Valid, Span;
    var start := StartOf(c, w, due, now, late, sealedAt);
    var v := AnchorPending(c, k, start);
    SealStart(c, w, due, now, late, sealedAt);
    PendingKeepsRanges(c, k, start);
    OkValid(c, w);
    OkValid(c, v);
    OpenIs(c.env, w.state);
    OpenIs(c.env, v.state);
    NextIs(c.env, w.state);
    SpansJoin(NextUnsealed(w.state.epochs), |w.state.decisions|, |v.state.decisions|);
  }

  lemma OpenSize(c: Config, w: World)
    requires AnchoringRuns.Ok(c, w)
    ensures |Open(w.state)| == Unsealed(w.state)
  {
    hide Unsealed, Open, Valid;
    OkValid(c, w);
    OpenIs(c.env, w.state);
  }

  /** A tick seals exactly when something was open and either at least `max(n, 1)`
      entries were under `every = n`, or at least `d` went by since the last seal under
      `interval = d`; a clock that went back counts as no time. Sealing adds one epoch
      and restarts the interval; without it only late arrivals are added. */
  lemma TickSeals(c: Config, w: World, now: int, late: seq<Arrival>, sealedAt: string, ask: Authority)
    requires AnchoringRuns.Ok(c, w)
    ensures var v, open := Ticked(c, w, now, late, sealedAt, ask), |Open(w.state)|;
            var many := c.policy.every.Some? && open >= c.policy.every.value;
            var long := c.policy.interval.Some?
              && (now - w.lastSeal >= c.policy.interval.value || c.policy.interval.value == 0);
            var due := open >= 1 && (many || long);
            && |v.state.epochs| == |w.state.epochs| + (if due then 1 else 0)
            && v.lastSeal == (if due then now else w.lastSeal)
            && |v.state.decisions| == |w.state.decisions| + |late|
            && Open(v.state) == (if due then {} else Open(w.state) + Span(|w.state.decisions|, |v.state.decisions|))
  {
    hide AnchoringRuns.Ok, Unsealed, AnchorPending, Open, Span, AllAppended, SealNow;
    OpenSize(c, w);
    var due := IsDue(c.policy, Unsealed(w.state), now, w.lastSeal);
    SealedOrNot(c, Clock(Some(now), ask, _ => now), w, due, now, late, sealedAt);
  }

  /** A flush seals exactly when something was open. */
  lemma FlushSeals(c: Config, w: World, now: int, late: seq<Arrival>, sealedAt: string, ask: Authority,
                   later: nat -> int)
    requires AnchoringRuns.Ok(c, w)
    ensures var v, due := Flushed(c, w, now, late, sealedAt, ask, later), Open(w.state) != {};
            && |v.state.epochs| == |w.state.epochs| + (if due then 1 else 0)
            && v.lastSeal == (if due then now else w.lastSeal)
            && |v.state.decisions| == |w.state.decisions| + |late|
            && Open(v.state) == (if due then {} else Span(|w.state.decisions|, |v.state.decisions|))
  {
    hide AnchoringRuns.Ok, Unsealed, AnchorPending, Open, Span, AllAppended, SealNow;
    OpenSize(c, w);
    SealedOrNot(c, Clock(None, ask, later), w, Unsealed(w.state) > 0, now, late, sealedAt);
  }

  lemma SpansJoin(a: nat, b: nat, c: nat)
    requires a <= b <= c
    ensures Span(a, c) == Span(a, b) + Span(b, c) && Span(c, c) == {}
  {
    forall n: nat ensures n in Span(a, c) <==> n in Span(a, b) + Span(b, c) {
      assert InSpan(a, c, n) <==> InSpan(a, b, n) || InSpan(b, c, n);
    }
  }

  lemma PendingKeepSeal(c: Config, k: Clock, w: World)
    ensures AnchorPending(c, k, w).lastSeal == w.lastSeal
  {
    hide VisitAll, Filter;
    VisitsKeepSeal(c, k, w, Filter(MissesOf(c), w.state.epochs));
  }

  // ----- asking -----

  /** The epochs asked about: stored, without a wanted receipt, and not tried too recently. */
  predicate IsAsked(c: Config, k: Clock, w: World, i: nat) {
    i < |w.state.epochs| && LacksReceipt(c, w.state.epochs[i].anchors)
    && (k.now.Some? ==> RetryCame(c, w, i, k.now.value))
  }

  lemma AskedIs(c: Config, k: Clock, w: World, i: nat)
    requires AnchoringRuns.Ok(c, w)
    ensures i < |w.state.epochs| ==> w.state.epochs[i].head.epoch == i
    ensures IsAsked(c, k, w, i) <==>
            i < |w.state.epochs| && Misses(c, w.state.epochs[i]) && !Waits(c, k.now, w.failedAt, i)
  {
    hide AnchoringRuns.Ok, Misses, RetryCame, LacksReceipt, Valid;
    OkValid(c, w);
    if i < |w.state.epochs| {
      EpochNumbers(c.env, w.state, i);
      MissesIs(c, w.state.epochs[i]);
      if k.now.Some? {
        Remembered(c, w, i, k.now.value);
      }
    }
  }

  /** Every authority that is set up and has given no receipt answers. */
  predicate AllAnswer(c: Config, ask: Authority, epoch: nat, have: seq<Receipt>) {
    (c.tsa && Without(have, Rfc3161) ==> ask(epoch, Rfc3161).Ok?)
    && (c.rekor && Without(have, Rekor) ==> ask(epoch, Rekor).Ok?)
  }

  lemma AllAnswerIs(c: Config, ask: Authority, epoch: nat, have: seq<Receipt>)
    ensures AllAnswer(c, ask, epoch, have) <==> Refusals(c, ask, epoch, have) == []
  {
    WithoutIs(have, Rfc3161);
    WithoutIs(have, Rekor);
    hide Without, Holds;
  }

  /** The tries made: one for each epoch asked about and no other, and it is marked as a
      success exactly when every authority still to be heard answers. */
  lemma AsksExactly(c: Config, k: Clock, w: World)
    requires AnchoringRuns.Ok(c, w)
    ensures var v, n := AnchorPending(c, k, w), |w.tries|;
            && n <= |v.tries| && v.tries[..n] == w.tries
            && (forall i: nat :: TriedSince(v.tries, n, i) <==> IsAsked(c, k, w, i))
            && (forall j, l :: n <= j < l < |v.tries| ==> v.tries[j].epoch != v.tries[l].epoch)
            && (forall j :: n <= j < |v.tries| ==> IsTry(c, k, w, v.tries[j]))
  {
    hide *;
    AnchorPendingKeeps(c, k, w);
    var v, n := AnchorPending(c, k, w), |w.tries|;
    var asked := Filter(Asks(c, k, w.failedAt), Filter(MissesOf(c), w.state.epochs));
    AskedEpochs(c, k, w, asked);
    AscendingDiffer(asked);
    forall j | 0 <= j < |asked|
      ensures v.tries[n + j].epoch == asked[j].head.epoch && IsTry(c, k, w, v.tries[n + j])
    {
      TryIs(c, k, w, asked[j]);
    }
    EpochsTried(v.tries, n, asked);
    assert forall j :: n <= j < |v.tries| ==> v.tries[j] == v.tries[n + (j - n)];
  }

  lemma AscendingDiffer(s: seq<StoredEpoch>)
    requires Ascending(s)
    ensures forall i, j :: 0 <= i < j < |s| ==> s[i].head.epoch != s[j].head.epoch
  {
  }

  lemma EpochsTried(tries: seq<Try>, n: nat, asked: seq<StoredEpoch>)
    requires |tries| == n + |asked| && forall j :: 0 <= j < |asked| ==> tries[n + j].epoch == asked[j].head.epoch
    requires forall i, j :: 0 <= i < j < |asked| ==> asked[i].head.epoch != asked[j].head.epoch
    ensures forall i: nat :: TriedSince(tries, n, i) <==> exists j :: 0 <= j < |asked| && asked[j].head.epoch == i
    ensures forall j, l :: n <= j < l < |tries| ==> tries[j].epoch != tries[l].epoch
  {
    forall j | n <= j < |tries| ensures tries[j].epoch == asked[j - n].head.epoch {
      assert tries[n + (j - n)].epoch == asked[j - n].head.epoch;
    }
    forall i: nat ensures TriedSince(tries, n, i) <==> exists j :: 0 <= j < |asked| && asked[j].head.epoch == i {
      if j :| 0 <= j < |asked| && asked[j].head.epoch == i {
        assert tries[n + j].epoch == i;
      }
    }
  }

  predicate TriedSince(tries: seq<Try>, n: nat, epoch: nat) {
    exists j :: n <= j < |tries| && tries[j].epoch == epoch
  }

  /** A try at a stored epoch: when it was made and whether it succeeded. */
  predicate IsTry(c: Config, k: Clock, w: World, t: Try) {
    && t.epoch < |w.state.epochs|
    && t.at == (if k.now.Some? then k.now.value else k.later(t.epoch))
    && (t.ok <==> AllAnswer(c, k.ask, t.epoch, w.state.epochs[t.epoch].anchors))
  }

  lemma TryIs(c: Config, k: Clock, w: World, e: StoredEpoch)
    requires e.head.epoch < |w.state.epochs| && w.state.epochs[e.head.epoch] == e
    ensures TryOf(c, k)(e).epoch == e.head.epoch && IsTry(c, k, w, TryOf(c, k)(e))
  {
    AllAnswerIs(c, k.ask, e.head.epoch, e.anchors);
    hide AllAnswer, Refusals;
  }

  lemma AskedEpochs(c: Config, k: Clock, w: World, asked: seq<StoredEpoch>)
    requires AnchoringRuns.Ok(c, w)
    requires asked == Filter(Asks(c, k, w.failedAt), Filter(MissesOf(c), w.state.epochs))
    ensures forall j :: 0 <= j < |asked| ==>
              && IsAsked(c, k, w, asked[j].head.epoch)
              && asked[j].head.epoch < |w.state.epochs| && w.state.epochs[asked[j].head.epoch] == asked[j]
    ensures forall i: nat :: IsAsked(c, k, w, i) ==> exists j :: 0 <= j < |asked| && asked[j].head.epoch == i
    ensures Ascending(asked)
  {
    hide AnchoringRuns.Ok, Misses, Waits, Valid, IsAsked, Filter;
    forall i | 0 <= i < |w.state.epochs|
      ensures w.state.epochs[i].head.epoch == i
      ensures IsAsked(c, k, w, i) <==> MissesOf(c)(w.state.epochs[i]) && Asks(c, k, w.failedAt)(w.state.epochs[i])
    {
      AskedIs(c, k, w, i);
    }
    FilterAscends(MissesOf(c), w.state.epochs);
    FilterAscends(Asks(c, k, w.failedAt), Filter(MissesOf(c), w.state.epochs));
    hide Ascending;
    forall j | 0 <= j < |asked|
      ensures IsAsked(c, k, w, asked[j].head.epoch)
      ensures asked[j].head.epoch < |w.state.epochs| && w.state.epochs[asked[j].head.epoch] == asked[j]
    {
      assert asked[j] in Filter(MissesOf(c), w.state.epochs) && asked[j] in w.state.epochs;
      var i :| 0 <= i < |w.state.epochs| && w.state.epochs[i] == asked[j];
    }
    forall i: nat | IsAsked(c, k, w, i) ensures exists j :: 0 <= j < |asked| && asked[j].head.epoch == i {
      AskedIs(c, k, w, i);
      var e := w.state.epochs[i];
      assert e in Filter(MissesOf(c), w.state.epochs) && e in asked;
      var j :| 0 <= j < |asked| && asked[j] == e;
    }
  }

  // ----- receipts -----

  lemma {:induction false} NewReceipts(held: seq<Receipt>, more: seq<Receipt>)
    requires OncePerKind(more) && forall r :: r in more ==> !Holds(held, r.kind)
    ensures WithReceipts(held, more) == held + more
    decreases more
  {
    if more != [] {
      var next := held + [more[0]];
      forall r | r in more[1..] ensures !Holds(next, r.kind) {
        var i :| 0 <= i < |more[1..]| && more[1..][i] == r;
        assert more[i + 1] == r && r.kind != more[0].kind;
        assert r in more;
      }
      NewReceipts(next, more[1..]);
      assert next + more[1..] == held + more;
      assert more[0] in more;
    } else {
      assert held + [] == held;
    }
  }

  /** What the authorities that are set up and were not heard yet answer. */
  predicate IsAnswer(c: Config, ask: Authority, epoch: nat, have: seq<Receipt>, r: Receipt) {
    && (if r.kind == Rfc3161 then c.tsa else c.rekor) && Without(have, r.kind)
    && ask(epoch, r.kind) == Result.Ok(r.body)
  }

  lemma ReceiptsAre(c: Config, ask: Authority, epoch: nat, have: seq<Receipt>)
    ensures var got := Receipts(c, ask, epoch, have);
            && WithReceipts(have, got) == have + got
            && forall r :: r in got <==> IsAnswer(c, ask, epoch, have, r)
  {
    WithoutIs(have, Rfc3161);
    WithoutIs(have, Rekor);
    hide Holds, Without;
    NewReceipts(have, Receipts(c, ask, epoch, have));
  }

  function Anchors(s: State, i: nat): seq<Receipt> {
    if i < |s.epochs| then s.epochs[i].anchors else []
  }

  /** What an epoch holds once its turn came. */
  function AnchorsThen(c: Config, k: Clock, w: World, e: StoredEpoch): seq<Receipt> {
    if Waits(c, k.now, w.failedAt, e.head.epoch) then e.anchors
    else WithReceipts(e.anchors, Receipts(c, k.ask, e.head.epoch, e.anchors))
  }

  lemma VisitAnchors(c: Config, k: Clock, w: World, v: World, e: StoredEpoch, i: nat)
    requires Valid(c.env, v.state) && Untouched(v.state, e) && SameMemory(w.failedAt, v.failedAt, e.head.epoch)
    ensures Anchors(Visit(c, k, v, e).state, i) ==
            if i == e.head.epoch then AnchorsThen(c, k, w, e) else Anchors(v.state, i)
  {
    hide Receipts, Refusals, WithReceipts, Valid, Attempt;
    if !Waits(c, k.now, v.failedAt, e.head.epoch) {
      AttemptState(c, k, v, e);
    }
  }

  lemma {:induction false} VisitsAnchors(c: Config, k: Clock, w: World, pending: seq<StoredEpoch>, n: nat, i: nat)
    requires AnchoringRuns.Ok(c, w) && Pending(c, w.state, pending) && n <= |pending|
    ensures var after := Anchors(VisitAll(c, k, w, pending[..n]).state, i);
            && ((forall j :: 0 <= j < n ==> pending[j].head.epoch != i) ==> after == Anchors(w.state, i))
            && (forall j :: 0 <= j < n && pending[j].head.epoch == i ==> after == AnchorsThen(c, k, w, pending[j]))
  {
    hide *;
    if n == 0 {
      PendingStart(c, k, w, pending);
    } else {
      VisitsAnchors(c, k, w, pending, n - 1, i);
      VisitNext(c, k, w, pending, n - 1);
      Turn(c, k, w, pending, n - 1);
      VisitAnchors(c, k, w, VisitAll(c, k, w, pending[..n - 1]), pending[n - 1], i);
    }
  }

  /** When its turn comes a pending epoch is as it was. */
  lemma Turn(c: Config, k: Clock, w: World, pending: seq<StoredEpoch>, n: nat)
    requires AnchoringRuns.Ok(c, w) && Pending(c, w.state, pending) && n < |pending|
    ensures var v := VisitAll(c, k, w, pending[..n]);
            && Valid(c.env, v.state) && Untouched(v.state, pending[n])
            && SameMemory(w.failedAt, v.failedAt, pending[n].head.epoch)
    ensures forall j :: 0 <= j < n ==> pending[j].head.epoch != pending[n].head.epoch
  {
    hide AnchoringRuns.Ok, VisitAll, Extends, Filter, Map, Misses, Untouched, SameMemory;
    VisitAllKeeps(c, k, w, pending, n);
    OkValid(c, VisitAll(c, k, w, pending[..n]));
  }

  /** Once the authorities were asked an epoch holds what it held and, if it was asked
      about, what the authorities still to be heard answered. */
  lemma ReceiptsExactly(c: Config, k: Clock, w: World, i: nat, r: Receipt)
    requires AnchoringRuns.Ok(c, w) && i < |w.state.epochs|
    ensures var before, after := w.state.epochs[i].anchors, AnchorPending(c, k, w).state;
            && i < |after.epochs| && before <= after.epochs[i].anchors
            && (r in after.epochs[i].anchors <==>
                r in before || (IsAsked(c, k, w, i) && IsAnswer(c, k.ask, i, before, r)))
  {
    hide AnchoringRuns.Ok, VisitAll, Extends, Pending, Valid, Filter, Map, Misses, Waits, Receipts, WithReceipts,
      IsAsked, IsAnswer;
    var e, pending := w.state.epochs[i], Filter(MissesOf(c), w.state.epochs);
    OkValid(c, w);
    PendingIs(c, w.state);
    AnchorPendingKeeps(c, k, w);
    assert |AnchorPending(c, k, w).state.epochs| == |w.state.epochs|;
    VisitsAnchors(c, k, w, pending, |pending|, i);
    assert pending[..|pending|] == pending;
    AskedIs(c, k, w, i);
    ReceiptsAre(c, k.ask, i, e.anchors);
    PendingNames(c, w, pending, i);
    if Misses(c, e) {
      var j :| 0 <= j < |pending| && pending[j] == e;
    }
  }

  lemma PendingNames(c: Config, w: World, pending: seq<StoredEpoch>, i: nat)
    requires AnchoringRuns.Ok(c, w) && i < |w.state.epochs| && pending == Filter(MissesOf(c), w.state.epochs)
    ensures Misses(c, w.state.epochs[i]) ==> w.state.epochs[i] in pending
    ensures !Misses(c, w.state.epochs[i]) ==> forall j :: 0 <= j < |pending| ==> pending[j].head.epoch != i
  {
    hide AnchoringRuns.Ok, Misses, Filter, Valid;
    OkValid(c, w);
    forall j | 0 <= j < |pending| ensures Misses(c, w.state.epochs[i]) || pending[j].head.epoch != i {
      assert pending[j] in w.state.epochs && MissesOf(c)(pending[j]);
      var l :| 0 <= l < |w.state.epochs| && w.state.epochs[l] == pending[j];
      EpochNumbers(c.env, w.state, l);
    }
    assert Misses(c, w.state.epochs[i]) ==> MissesOf(c)(w.state.epochs[i]);
  }

  // ----- reports -----

  /** What visiting an epoch reports. */
  function EventsOf(c: Config, k: Clock, w: World): StoredEpoch -> seq<AnchorEvent> {
    (e: StoredEpoch) =>
      if Waits(c, k.now, w.failedAt, e.head.epoch) then []
      else if Refusals(c, k.ask, e.head.epoch, e.anchors) == []
        then [Anchored(e.head.epoch, e.head.firstSeq, e.head.lastSeq, Kinds(AnchorsThen(c, k, w, e)))]
      else Map(FailedEventOf(e.head), Refusals(c, k.ask, e.head.epoch, e.anchors))
  }

  lemma VisitEvents(c: Config, k: Clock, w: World, v: World, e: StoredEpoch)
    requires Valid(c.env, v.state) && Untouched(v.state, e) && SameMemory(w.failedAt, v.failedAt, e.head.epoch)
    ensures Visit(c, k, v, e).events == v.events + EventsOf(c, k, w)(e)
  {
    hide Receipts, Refusals, WithReceipts, Valid, Map, Kinds, Stored, AnchorsAfter;
    if !Waits(c, k.now, v.failedAt, e.head.epoch) {
      AttemptState(c, k, v, e);
    } else {
      assert v.events + [] == v.events;
    }
  }

  lemma {:induction false} VisitsEvents(c: Config, k: Clock, w: World, pending: seq<StoredEpoch>, n: nat)
    requires AnchoringRuns.Ok(c, w) && Pending(c, w.state, pending) && n <= |pending|
    ensures VisitAll(c, k, w, pending[..n]).events == w.events + FlatMap(EventsOf(c, k, w), pending[..n])
  {
    hide *;
    if n == 0 {
      PendingStart(c, k, w, pending);
      NoEvents(EventsOf(c, k, w), pending[..0]);
      assert w.events + [] == w.events;
    } else {
      VisitsEvents(c, k, w, pending, n - 1);
      VisitNext(c, k, w, pending, n - 1);
      Turn(c, k, w, pending, n - 1);
      VisitEvents(c, k, w, VisitAll(c, k, w, pending[..n - 1]), pending[n - 1]);
      FlatMapNext(EventsOf(c, k, w), pending, n - 1);
      ConcatAssociates(w.events, FlatMap(EventsOf(c, k, w), pending[..n - 1]), EventsOf(c, k, w)(pending[n - 1]));
    }
  }

  lemma NoEvents(f: StoredEpoch -> seq<AnchorEvent>, s: seq<StoredEpoch>)
    requires s == []
    ensures FlatMap(f, s) == []
  {
  }

  /** What asking the authorities reports: an epoch asked about is reported anchored, with
      the kinds it then holds, exactly when every authority still to be heard answers;
      otherwise one failure for each that does not. */
  predicate IsReport(c: Config, k: Clock, w: World, event: AnchorEvent) {
    !event.SealedEpoch? && IsAsked(c, k, w, event.epoch) &&
    var e := w.state.epochs[event.epoch];
    && event.firstSeq == e.head.firstSeq && event.lastSeq == e.head.lastSeq
    && match event
       case Anchored(i, _, _, kinds) =>
         && AllAnswer(c, k.ask, i, e.anchors)
         && kinds == (if c.rekor || !Without(e.anchors, Rekor) then [Rekor] else [])
                   + (if c.tsa || !Without(e.anchors, Rfc3161) then [Rfc3161] else [])
       case Failed(i, _, _, kind, error) =>
         && (if kind == Rfc3161 then c.tsa else c.rekor) && Without(e.anchors, kind)
         && k.ask(i, kind) == Err(error)
       case _ => false
  }

  lemma KindsThen(c: Config, ask: Authority, epoch: nat, have: seq<Receipt>)
    requires AllAnswer(c, ask, epoch, have)
    ensures Kinds(WithReceipts(have, Receipts(c, ask, epoch, have))) ==
            (if c.rekor || !Without(have, Rekor) then [Rekor] else [])
            + (if c.tsa || !Without(have, Rfc3161) then [Rfc3161] else [])
  {
    ReceiptsAre(c, ask, epoch, have);
    var got := Receipts(c, ask, epoch, have);
    HoldsThen(c, ask, epoch, have, got, Rekor);
    HoldsThen(c, ask, epoch, have, got, Rfc3161);
    hide Receipts, WithReceipts, Without, Holds;
  }

  lemma HoldsThen(c: Config, ask: Authority, epoch: nat, have: seq<Receipt>, got: seq<Receipt>, kind: Kind)
    requires AllAnswer(c, ask, epoch, have) && forall r :: r in got <==> IsAnswer(c, ask, epoch, have, r)
    ensures Holds(have + got, kind) <==> (if kind == Rfc3161 then c.tsa else c.rekor) || !Without(have, kind)
  {
    WithoutIs(have, kind);
    hide Without;
    if !Holds(have, kind) && (if kind == Rfc3161 then c.tsa else c.rekor) {
      assert IsAnswer(c, ask, epoch, have, Receipt(kind, ask(epoch, kind).value));
      assert Receipt(kind, ask(epoch, kind).value) in have + got;
    }
    if Holds(have, kind) {
      var r :| r in have && r.kind == kind;
      assert r in have + got;
    }
  }

  lemma RefusalsAre(c: Config, ask: Authority, epoch: nat, have: seq<Receipt>, r: Refusal)
    ensures r in Refusals(c, ask, epoch, have) <==>
            && (if r.kind == Rfc3161 then c.tsa else c.rekor) && Without(have, r.kind)
            && ask(epoch, r.kind) == Err(r.error)
  {
    WithoutIs(have, r.kind);
    hide Without, Holds;
  }

  /** The reports about one stored epoch. */
  lemma EventIs(c: Config, k: Clock, w: World, e: StoredEpoch, event: AnchorEvent)
    requires e.head.epoch < |w.state.epochs| && w.state.epochs[e.head.epoch] == e && AnchoringRuns.Ok(c, w)
    requires Misses(c, e)
    ensures event in EventsOf(c, k, w)(e) <==> IsReport(c, k, w, event) && event.epoch == e.head.epoch
  {
    hide AnchoringRuns.Ok, Misses, Receipts, Refusals, WithReceipts, Without, Kinds, IsAsked, AllAnswer, Map;
    AskedIs(c, k, w, e.head.epoch);
    AllAnswerIs(c, k.ask, e.head.epoch, e.anchors);
    if AllAnswer(c, k.ask, e.head.epoch, e.anchors) {
      KindsThen(c, k.ask, e.head.epoch, e.anchors);
      forall r: Refusal ensures !(r in Refusals(c, k.ask, e.head.epoch, e.anchors)) {}
      if event.Failed? {
        RefusalsAre(c, k.ask, e.head.epoch, e.anchors, Refusal(event.kind, event.error));
      }
    } else {
      FailureIs(c, k, e, event);
    }
  }

  lemma FailureIs(c: Config, k: Clock, e: StoredEpoch, event: AnchorEvent)
    ensures event in Map(FailedEventOf(e.head), Refusals(c, k.ask, e.head.epoch, e.anchors)) <==>
            && event.Failed? && event.epoch == e.head.epoch
            && event.firstSeq == e.head.firstSeq && event.lastSeq == e.head.lastSeq
            && (if event.kind == Rfc3161 then c.tsa else c.rekor) && Without(e.anchors, event.kind)
            && k.ask(e.head.epoch, event.kind) == Err(event.error)
  {
    hide Refusals, Without;
    var refused := Refusals(c, k.ask, e.head.epoch, e.anchors);
    var events := Map(FailedEventOf(e.head), refused);
    hide Map;
    if event in events {
      var i :| 0 <= i < |events| && events[i] == event;
      assert refused[i] in refused;
      RefusalsAre(c, k.ask, e.head.epoch, e.anchors, refused[i]);
    }
    if event.Failed? {
      var r := Refusal(event.kind, event.error);
      RefusalsAre(c, k.ask, e.head.epoch, e.anchors, r);
      if r in refused {
        var i :| 0 <= i < |refused| && refused[i] == r;
        assert events[i] == FailedEventOf(e.head)(r);
      }
    }
  }

  /** Asking the authorities reports exactly that. */
  lemma ReportsExactly(c: Config, k: Clock, w: World, event: AnchorEvent)
    requires AnchoringRuns.Ok(c, w)
    ensures var v := AnchorPending(c, k, w);
            && |w.events| <= |v.events| && v.events[..|w.events|] == w.events
            && (event in v.events[|w.events|..] <==> IsReport(c, k, w, event))
  {
    hide *;
    OkValid(c, w);
    PendingIs(c, w.state);
    var pending := Filter(MissesOf(c), w.state.epochs);
    VisitsEvents(c, k, w, pending, |pending|);
    PendingStart(c, k, w, pending);
    assert pending[..|pending|] == pending;
    var v, more := AnchorPending(c, k, w), FlatMap(EventsOf(c, k, w), pending);
    assert v.events == w.events + more && v.events[|w.events|..] == more;
    FlatMapMember(EventsOf(c, k, w), pending, event);
    ReportMember(c, k, w, pending, event);
  }

  lemma ReportMember(c: Config, k: Clock, w: World, pending: seq<StoredEpoch>, event: AnchorEvent)
    requires AnchoringRuns.Ok(c, w) && pending == Filter(MissesOf(c), w.state.epochs)
    ensures (exists e :: e in pending && event in EventsOf(c, k, w)(e)) <==> IsReport(c, k, w, event)
  {
    hide AnchoringRuns.Ok, Misses, EventsOf, Filter, IsReport, Pending;
    OkValid(c, w);
    hide Valid;
    PendingIs(c, w.state);
    forall e | e in pending
      ensures event in EventsOf(c, k, w)(e) <==> IsReport(c, k, w, event) && event.epoch == e.head.epoch
    {
      PendingAsStored(c, w.state, pending, e);
      EventIs(c, k, w, e, event);
    }
    if IsReport(c, k, w, event) {
      ReportAsked(c, k, w, event);
      AskedIs(c, k, w, event.epoch);
      var e := w.state.epochs[event.epoch];
      assert MissesOf(c)(e) && e in pending;
    }
  }

  lemma PendingAsStored(c: Config, s: State, pending: seq<StoredEpoch>, e: StoredEpoch)
    requires Pending(c, s, pending) && e in pending
    ensures e.head.epoch < |s.epochs| && s.epochs[e.head.epoch] == e && Misses(c, e)
  {
    hide Misses;
  }

  lemma ReportAsked(c: Config, k: Clock, w: World, event: AnchorEvent)
    requires IsReport(c, k, w, event)
    ensures IsAsked(c, k, w, event.epoch)
  {
  }

  lemma NextRange(env: Env, s: State, sealedAt: string)
    requires Valid(env, s) && s.decisions != []
    ensures var head := NextHead(env, s, sealedAt);
            && head.epoch == |s.epochs| && head.firstSeq == NextUnsealed(s.epochs)
            && head.lastSeq == |s.decisions| - 1
  {
    NextAfterLast(env, s);
    if s.epochs != [] {
      EpochNumbers(env, s, |s.epochs| - 1);
    }
    hide Valid, NextUnsealed, ComputeEpochHash;
  }

  /** A seal reports the new epoch's number and its range: from the first open entry to the
      last late arrival. */
  lemma SealReports(c: Config, w: World, due: bool, now: int, late: seq<Arrival>, sealedAt: string)
    requires AnchoringRuns.Ok(c, w) && (due ==> Unsealed(w.state) > 0)
    ensures var events, n := StartOf(c, w, due, now, late, sealedAt).events, |w.events|;
            if !due then events == w.events
            else
              && |events| == n + 1 && events[..n] == w.events && events[n].SealedEpoch?
              && events[n].epoch == |w.state.epochs|
              && events[n].firstSeq + |Open(w.state)| == |w.state.decisions|
              && events[n].lastSeq + 1 == |w.state.decisions| + |late|
  {
    hide AnchoringRuns.Ok, AllAppended, Unsealed, NextUnsealed, Valid, Extends, NextHead, Open;
    AppendsKeep(c, w, late);
    var w' := w.(state := AllAppended(c.env, w.state, late));
    if due {
      OkValid(c, w);
      OkValid(c, w');
      StillUnsealed(c.env, w.state, w'.state);
      SealsOne(c.env, w'.state, sealedAt);
      NextRange(c.env, w'.state, sealedAt);
      NextIs(c.env, w.state);
      OpenSize(c, w);
    }
  }

  // ----- a tick and a flush -----

  predicate MayTry(c: Config, k: Clock, w: World, i: nat) {
    k.now.Some? ==> RetryCame(c, w, i, k.now.value)
  }

  lemma StartAnchors(c: Config, w: World, due: bool, now: int, late: seq<Arrival>, sealedAt: string, i: nat)
    requires AnchoringRuns.Ok(c, w) && (due ==> Unsealed(w.state) > 0)
    ensures var start := StartOf(c, w, due, now, late, sealedAt);
            AnchoringRuns.Ok(c, start) && start.tries == w.tries && Anchors(start.state, i) == Anchors(w.state, i)
  {
    hide AnchoringRuns.Ok, StartOf, Unsealed, NextUnsealed;
    SealStart(c, w, due, now, late, sealedAt);
    var start := StartOf(c, w, due, now, late, sealedAt);
    if i < |w.state.epochs| {
      assert start.state.epochs[..|w.state.epochs|][i] == w.state.epochs[i];
    }
  }

  /** Which epochs are tried, and what they then hold, told from before the sealing. */
  lemma AsksAfterSealing(c: Config, k: Clock, w: World, due: bool, now: int, late: seq<Arrival>, sealedAt: string,
                         i: nat, r: Receipt)
    requires AnchoringRuns.Ok(c, w) && (due ==> Unsealed(w.state) > 0)
    ensures var v, have := AnchorPending(c, k, StartOf(c, w, due, now, late, sealedAt)), Anchors(w.state, i);
            && (TriedSince(v.tries, |w.tries|, i) <==>
                i < |v.state.epochs| && LacksReceipt(c, have) && MayTry(c, k, w, i))
            && (r in Anchors(v.state, i) <==>
                r in have || (i < |v.state.epochs| && MayTry(c, k, w, i) && IsAnswer(c, k.ask, i, have, r)))
  {
    hide AnchoringRuns.Ok, StartOf, AnchorPending, Unsealed, RetryCame, TriedSince, IsTry, Valid, NextUnsealed;
    var start := StartOf(c, w, due, now, late, sealedAt);
    StartAnchors(c, w, due, now, late, sealedAt, i);
    AsksExactly(c, k, start);
    PendingKeepsRanges(c, k, start);
    SameRetry(c, w, start, i);
    AnswerLacks(c, k.ask, i, Anchors(w.state, i), r);
    if i < |start.state.epochs| {
      ReceiptsExactly(c, k, start, i, r);
    }
    hide LacksReceipt, IsAnswer;
  }

  lemma SameRetry(c: Config, w: World, v: World, i: nat)
    requires w.tries == v.tries
    ensures forall now :: RetryCame(c, w, i, now) <==> RetryCame(c, v, i, now)
  {
  }

  lemma AnswerLacks(c: Config, ask: Authority, epoch: nat, have: seq<Receipt>, r: Receipt)
    ensures IsAnswer(c, ask, epoch, have, r) ==> LacksReceipt(c, have)
  {
    hide Without;
  }

  /** A tick tries exactly the epochs, the new one among them, that lack a receipt and
      were not refused within the last `retry`; each then holds what it held and what the
      authorities still to be heard answer. */
  lemma TickAsks(c: Config, w: World, now: int, late: seq<Arrival>, sealedAt: string, ask: Authority, i: nat,
                 r: Receipt)
    requires AnchoringRuns.Ok(c, w)
    ensures var v, have := Ticked(c, w, now, late, sealedAt, ask), Anchors(w.state, i);
            && (TriedSince(v.tries, |w.tries|, i) <==>
                i < |v.state.epochs| && LacksReceipt(c, have) && RetryCame(c, w, i, now))
            && (r in Anchors(v.state, i) <==>
                r in have || (i < |v.state.epochs| && RetryCame(c, w, i, now) && IsAnswer(c, ask, i, have, r)))
  {
    hide AnchoringRuns.Ok, Unsealed, AnchorPending, AllAppended, SealNow, Anchors, RetryCame, TriedSince, IsAnswer,
      LacksReceipt;
    var due := IsDue(c.policy, Unsealed(w.state), now, w.lastSeal);
    AsksAfterSealing(c, Clock(Some(now), ask, _ => now), w, due, now, late, sealedAt, i, r);
  }

  /** A flush tries every epoch that lacks a receipt. */
  lemma FlushAsks(c: Config, w: World, now: int, late: seq<Arrival>, sealedAt: string, ask: Authority,
                  later: nat -> int, i: nat, r: Receipt)
    requires AnchoringRuns.Ok(c, w)
    ensures var v, have := Flushed(c, w, now, late, sealedAt, ask, later), Anchors(w.state, i);
            && (TriedSince(v.tries, |w.tries|, i) <==> i < |v.state.epochs| && LacksReceipt(c, have))
            && (r in Anchors(v.state, i) <==>
                r in have || (i < |v.state.epochs| && IsAnswer(c, ask, i, have, r)))
  {
    hide AnchoringRuns.Ok, Unsealed, AnchorPending, AllAppended, SealNow, Anchors, RetryCame, TriedSince, IsAnswer,
      LacksReceipt;
    AsksAfterSealing(c, Clock(None, ask, later), w, Unsealed(w.state) > 0, now, late, sealedAt, i, r);
  }
}
