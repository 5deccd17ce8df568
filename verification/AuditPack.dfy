/** What an audit pack contains: the entries in a time range, widened to whole
    epochs, and those epochs. */
module AuditPack {
  import opened Text
  import opened Lists
  import opened HashLinks
  import opened DecisionChain
  import opened Epochs
  import opened Ledger

  datatype ExportError = Empty | BadTime(seqNo: nat)

  /** Inclusive bounds on the time of an entry. */
  datatype PackRange = PackRange(since: Option<int>, until: Option<int>)

  datatype Pack = Pack(entries: seq<Entry>, epochs: seq<StoredEpoch>)

  /** How an RFC 3339 timestamp reads, if it does. */
  type Clock = string -> Option<int>

  datatype Interval = Interval(lo: nat, hi: nat)

  predicate InRange(range: PackRange, ts: int) {
    (range.since.Some? ==> ts >= range.since.value) && (range.until.Some? ==> ts <= range.until.value)
  }

  predicate IsSelected(time: Clock, range: PackRange, e: Entry) {
    time(e.ts).Some? && InRange(range, time(e.ts).value)
  }

  /** An entry is left out exactly when its time cannot be read, is before `since`, or is
      after `until`; both bounds belong to the range. */
  lemma LeftOutExactly(time: Clock, range: PackRange, e: Entry)
    ensures !IsSelected(time, range, e) <==>
            match time(e.ts)
            case None => true
            case Some(at) =>
              (range.since.Some? && at < range.since.value) || (range.until.Some? && range.until.value < at)
  {
  }

  predicate Meets(e: StoredEpoch, i: Interval) {
    e.head.firstSeq <= i.hi && e.head.lastSeq >= i.lo
  }

  predicate Inside(e: StoredEpoch, i: Interval) {
    i.lo <= e.head.firstSeq && e.head.lastSeq <= i.hi
  }

  function Join(i: Interval, e: StoredEpoch): Interval {
    Interval(if e.head.firstSeq < i.lo then e.head.firstSeq else i.lo,
             if e.head.lastSeq > i.hi then e.head.lastSeq else i.hi)
  }

  /** One pass over the epochs, widening to each one met. */
  function Widened(i: Interval, epochs: seq<StoredEpoch>): Interval {
    if epochs == [] then i
    else
      var w, last := Widened(i, epochs[..|epochs| - 1]), epochs[|epochs| - 1];
      if Meets(last, w) then Join(w, last) else w
  }

  function SeqsOf(time: Clock, range: PackRange): Entry -> seq<nat> {
    (e: Entry) => if IsSelected(time, range, e) then [e.seqNo] else []
  }

  function MeetsOf(i: Interval): StoredEpoch -> bool {
    (e: StoredEpoch) => Meets(e, i)
  }

  function WithinOf(i: Interval): Entry -> bool {
    (e: Entry) => i.lo <= e.seqNo <= i.hi
  }

  function PackOf(all: seq<Entry>, epochs: seq<StoredEpoch>, selected: seq<nat>): Pack {
    if selected == [] then Pack([], [])
    else
      var i := Widened(Interval(selected[0], selected[|selected| - 1]), epochs);
      Pack(Filter(WithinOf(i), all), Filter(MeetsOf(i), epochs))
  }

  /** `all` and `epochs` are read from the store one after the other. */
  method ExportPack(all: seq<Entry>, epochs: seq<StoredEpoch>, time: Clock, range: PackRange)
    returns (result: Result<Pack, ExportError>)
    ensures result == Err(Empty) <==>
            (forall e :: e in all ==> time(e.ts).Some? && !IsSelected(time, range, e))
              && (range.since.Some? || range.until.Some?)
    ensures result.Err? && result.error.BadTime? ==>
              exists n :: 0 <= n < |all| && time(all[n].ts).None? && result.error.seqNo == all[n].seqNo
                          && forall k :: 0 <= k < n ==> time(all[k].ts).Some?
    ensures result.Ok? ==> (forall e :: e in all ==> time(e.ts).Some?)
                           && result.value == PackOf(all, epochs, FlatMap(SeqsOf(time, range), all))
  {
    hide Filter, FlatMap;
    var selected := [];
    NothingSelected(time, range, all);
    for n := 0 to |all|
      invariant selected == FlatMap(SeqsOf(time, range), all[..n])
      invariant forall k :: 0 <= k < n ==> time(all[k].ts).Some?
    {
      FlatMapNext(SeqsOf(time, range), all, n);
      var ts := time(all[n].ts);
      if ts.None? {
        assert all[n] in all;
        return Err(BadTime(all[n].seqNo));
      }
      if InRange(range, ts.value) {
        selected := selected + [all[n].seqNo];
      }
    }
    assert all[..|all|] == all;
    SelectedEmpty(time, range, all);
    if selected == [] {
      if range.since.Some? || range.until.Some? {
        return Err(Empty);
      }
      return Ok(Pack([], []));
    }
    var i := Widen(Interval(selected[0], selected[|selected| - 1]), epochs);
    result := Ok(Pack(Filter(WithinOf(i), all), Filter(MeetsOf(i), epochs)));
  }

  lemma NothingSelected(time: Clock, range: PackRange, all: seq<Entry>)
    ensures FlatMap(SeqsOf(time, range), all[..0]) == []
  {
  }

  lemma SelectedEmpty(time: Clock, range: PackRange, all: seq<Entry>)
    ensures FlatMap(SeqsOf(time, range), all) == [] <==> forall e :: e in all ==> !IsSelected(time, range, e)
  {
    hide FlatMap;
    FlatMapEmpty(SeqsOf(time, range), all);
    forall e ensures SeqsOf(time, range)(e) == [] <==> !IsSelected(time, range, e) {}
  }

  method Widen(start: Interval, epochs: seq<StoredEpoch>) returns (i: Interval)
    ensures i == Widened(start, epochs)
  {
    i := start;
    for n := 0 to |epochs|
      invariant i == Widened(start, epochs[..n])
    {
      assert epochs[..n + 1][..n] == epochs[..n];
      if Meets(epochs[n], i) {
        i := Join(i, epochs[n]);
      }
    }
    assert epochs[..|epochs|] == epochs;
  }

  // ----- the widened interval -----

  ghost predicate Contains(i: Interval, j: Interval) {
    i.lo <= j.lo && j.hi <= i.hi
  }

  /** No epoch is cut: those the interval meets are inside it. */
  ghost predicate Closed(i: Interval, epochs: seq<StoredEpoch>) {
    forall n :: 0 <= n < |epochs| && Meets(epochs[n], i) ==> Inside(epochs[n], i)
  }

  /** Nonempty and ascending, as the epochs of a ledger are. */
  ghost predicate Ascending(epochs: seq<StoredEpoch>) {
    && (forall n :: 0 <= n < |epochs| ==> epochs[n].head.firstSeq <= epochs[n].head.lastSeq)
    && (forall m, n :: 0 <= m < n < |epochs| ==> epochs[m].head.lastSeq < epochs[n].head.firstSeq)
  }

  lemma LedgerAscends(env: Env, s: State)
    requires Valid(env, s)
    ensures Ascending(s.epochs)
  {
    forall n | 0 <= n < |s.epochs| ensures s.epochs[n].head.firstSeq <= s.epochs[n].head.lastSeq {
      EpochNonEmpty(env, s, n);
    }
    forall m, n | 0 <= m < n < |s.epochs| ensures s.epochs[m].head.lastSeq < s.epochs[n].head.firstSeq {
      EpochsAscend(env, s, m, n);
    }
  }

  /** `w` is closed, and inside every closed interval that contains `start`. */
  ghost predicate IsLeastClosed(start: Interval, epochs: seq<StoredEpoch>, w: Interval) {
    && Contains(w, start) && Closed(w, epochs)
    && forall other :: Contains(other, start) && Closed(other, epochs) ==> Contains(other, w)
  }

  /** `w` ends where the start does or where an epoch the start meets does. */
  ghost predicate EndsWithEpochs(start: Interval, epochs: seq<StoredEpoch>, w: Interval) {
    && (w.lo < start.lo ==> exists n :: 0 <= n < |epochs| && w.lo == epochs[n].head.firstSeq && Meets(epochs[n], start))
    && (w.hi > start.hi ==> exists n :: 0 <= n < |epochs| && w.hi == epochs[n].head.lastSeq && Meets(epochs[n], start))
  }

  /** Such a `w` meets an epoch exactly when the start does. */
  lemma SameMet(start: Interval, epochs: seq<StoredEpoch>, init: seq<StoredEpoch>, w: Interval, e: StoredEpoch)
    requires start.lo <= start.hi && Ascending(epochs) && init <= epochs && e in epochs
    requires Contains(w, start) && EndsWithEpochs(start, init, w)
    ensures Meets(e, w) <==> Meets(e, start)
  {
    var k :| 0 <= k < |epochs| && epochs[k] == e;
    if w.lo < start.lo {
      var n :| 0 <= n < |init| && w.lo == init[n].head.firstSeq && Meets(init[n], start);
      assert epochs[n] == init[n];
    }
    if w.hi > start.hi {
      var n :| 0 <= n < |init| && w.hi == init[n].head.lastSeq && Meets(init[n], start);
      assert epochs[n] == init[n];
    }
  }

  lemma WidenedNext(start: Interval, epochs: seq<StoredEpoch>, n: nat)
    requires n < |epochs|
    ensures var w := Widened(start, epochs[..n]);
            Widened(start, epochs[..n + 1]) == if Meets(epochs[n], w) then Join(w, epochs[n]) else w
  {
    assert epochs[..n + 1][..n] == epochs[..n];
  }

  lemma EndsMore(start: Interval, epochs: seq<StoredEpoch>, n: nat, w: Interval)
    requires n < |epochs| && EndsWithEpochs(start, epochs[..n], w) && Contains(w, start) && Meets(epochs[n], start)
    ensures EndsWithEpochs(start, epochs[..n + 1], Join(w, epochs[n]))
  {
    var more, w' := epochs[..n + 1], Join(w, epochs[n]);
    EndsLonger(start, epochs, n, w);
    assert more[n] == epochs[n];
  }

  lemma EndsLonger(start: Interval, epochs: seq<StoredEpoch>, n: nat, w: Interval)
    requires n < |epochs| && EndsWithEpochs(start, epochs[..n], w)
    ensures EndsWithEpochs(start, epochs[..n + 1], w)
  {
    var init, more := epochs[..n], epochs[..n + 1];
    assert forall m :: 0 <= m < n ==> more[m] == init[m];
  }

  lemma ClosedMore(start: Interval, epochs: seq<StoredEpoch>, n: nat, w: Interval, w': Interval)
    requires start.lo <= start.hi && Ascending(epochs) && n < |epochs|
    requires EndsWithEpochs(start, epochs[..n], w) && IsLeastClosed(start, epochs[..n], w)
    requires w' == if Meets(epochs[n], w) then Join(w, epochs[n]) else w
    ensures IsLeastClosed(start, epochs[..n + 1], w')
  {
    var init, more := epochs[..n], epochs[..n + 1];
    assert forall m :: 0 <= m < n ==> more[m] == init[m];
    assert more[n] == epochs[n];
    assert Closed(w', more) by {
      forall m | 0 <= m <= n && Meets(more[m], w') ensures Inside(more[m], w') {
        if m < n {
          assert epochs[m].head.lastSeq < epochs[n].head.firstSeq;
          assert Meets(init[m], w);
        }
      }
    }
    forall other | Contains(other, start) && Closed(other, more) ensures Contains(other, w') {
      assert Closed(other, init);
      if Meets(epochs[n], w) {
        assert Meets(more[n], other);
      }
    }
  }

  lemma {:induction false} WidenedUpTo(start: Interval, epochs: seq<StoredEpoch>, n: nat)
    requires start.lo <= start.hi && Ascending(epochs) && n <= |epochs|
    ensures IsLeastClosed(start, epochs[..n], Widened(start, epochs[..n]))
    ensures EndsWithEpochs(start, epochs[..n], Widened(start, epochs[..n]))
  {
    if n > 0 {
      hide IsLeastClosed, EndsWithEpochs, Widened, Ascending, Meets, Join;
      WidenedUpTo(start, epochs, n - 1);
      WidenedNext(start, epochs, n - 1);
      var w := Widened(start, epochs[..n - 1]);
      LeastContains(start, epochs[..n - 1], w);
      SameMet(start, epochs, epochs[..n - 1], w, epochs[n - 1]);
      ClosedMore(start, epochs, n - 1, w, Widened(start, epochs[..n]));
      if Meets(epochs[n - 1], w) {
        EndsMore(start, epochs, n - 1, w);
      } else {
        EndsLonger(start, epochs, n - 1, w);
      }
    }
  }

  lemma LeastContains(start: Interval, epochs: seq<StoredEpoch>, w: Interval)
    requires IsLeastClosed(start, epochs, w)
    ensures Contains(w, start)
  {
  }

  /** One pass is enough: the result is the least interval of whole epochs around
      the start, and it meets an epoch exactly when the start does. */
  lemma WidenedIsLeast(start: Interval, epochs: seq<StoredEpoch>)
    requires start.lo <= start.hi && Ascending(epochs)
    ensures IsLeastClosed(start, epochs, Widened(start, epochs))
    ensures forall e :: e in epochs ==> (Meets(e, Widened(start, epochs)) <==> Meets(e, start))
    ensures Widened(start, epochs).hi <= start.hi
            || exists e :: e in epochs && Widened(start, epochs).hi == e.head.lastSeq
  {
    assert epochs[..|epochs|] == epochs;
    WidenedUpTo(start, epochs, |epochs|);
    hide Widened, Meets, Ascending;
    forall e | e in epochs ensures Meets(e, Widened(start, epochs)) <==> Meets(e, start) {
      SameMet(start, epochs, epochs, Widened(start, epochs), e);
    }
  }

  // ----- the exported audit pack -----

  /** Entries are numbered by their position. */
  lemma Numbered(env: Env, s: State, k: nat)
    requires Valid(env, s) && k < |s.decisions|
    ensures s.decisions[k].seqNo == k
  {
    hide ComputeHash, EpochAt;
    assert LinkedAt(HashOf, PrevOf, SeqOf, GENESIS, s.decisions, k);
  }

  ghost predicate Rising(s: seq<nat>) {
    forall i, j :: 0 <= i < j < |s| ==> s[i] < s[j]
  }

  lemma AppendedRises(before: seq<nat>, n: nat, keep: bool)
    requires Rising(before) && forall x :: x in before ==> x < n
    ensures var after := before + (if keep then [n] else []);
            Rising(after) && forall x: nat :: x in after <==> x in before || (keep && x == n)
  {
    var after := before + (if keep then [n] else []);
    forall i, j | 0 <= i < j < |after| ensures after[i] < after[j] {
      assert after[i] == before[i] && before[i] in before;
    }
  }

  lemma SelectedNext(time: Clock, range: PackRange, all: seq<Entry>)
    requires all != [] && all[|all| - 1].seqNo == |all| - 1
    ensures var n: nat := |all| - 1;
            FlatMap(SeqsOf(time, range), all) ==
            FlatMap(SeqsOf(time, range), all[..n]) + (if IsSelected(time, range, all[n]) then [n] else [])
  {
    hide FlatMap, IsSelected;
    var n: nat := |all| - 1;
    FlatMapNext(SeqsOf(time, range), all, n);
    assert all[..n + 1] == all;
    assert SeqsOf(time, range)(all[n]) == if IsSelected(time, range, all[n]) then [n] else [];
    assert FlatMap(SeqsOf(time, range), all[..n + 1]) == FlatMap(SeqsOf(time, range), all);
    assert FlatMap(SeqsOf(time, range), all) == FlatMap(SeqsOf(time, range), all[..n]) + SeqsOf(time, range)(all[n]);
  }

  /** Exactly the positions of the selected entries, ascending. */
  ghost predicate IsSelection(time: Clock, range: PackRange, all: seq<Entry>, selected: seq<nat>) {
    Rising(selected) && forall x: nat :: x in selected <==> x < |all| && IsSelected(time, range, all[x])
  }

  lemma SelectionNext(time: Clock, range: PackRange, all: seq<Entry>, before: seq<nat>)
    requires all != [] && IsSelection(time, range, all[..|all| - 1], before)
    ensures var n: nat := |all| - 1;
            IsSelection(time, range, all, before + (if IsSelected(time, range, all[n]) then [n] else []))
  {
    hide IsSelected, Rising;
    var n: nat := |all| - 1;
    var init := all[..n];
    var keep := IsSelected(time, range, all[n]);
    AppendedRises(before, n, keep);
    var after := before + (if keep then [n] else []);
    forall x: nat ensures x in after <==> x < |all| && IsSelected(time, range, all[x]) {
      if x < n {
        assert init[x] == all[x];
      }
    }
  }

  lemma NoSelection(time: Clock, range: PackRange)
    ensures IsSelection(time, range, [], FlatMap(SeqsOf(time, range), []))
  {
    hide IsSelected;
  }

  lemma {:induction false} SelectedAscend(time: Clock, range: PackRange, all: seq<Entry>)
    requires forall k :: 0 <= k < |all| ==> all[k].seqNo == k
    ensures IsSelection(time, range, all, FlatMap(SeqsOf(time, range), all))
    decreases |all|
  {
    hide *;
    if all == [] {
      NoSelection(time, range);
    } else {
      var init := all[..|all| - 1];
      assert forall k :: 0 <= k < |init| ==> init[k] == all[k];
      SelectedAscend(time, range, init);
      SelectedNext(time, range, all);
      SelectionNext(time, range, all, FlatMap(SeqsOf(time, range), init));
    }
  }

  /** Entry `k` is exported. */
  predicate Exported(s: State, pack: Pack, k: nat) {
    k < |s.decisions| && s.decisions[k] in pack.entries
  }

  /** Every included epoch comes with all its entries. */
  ghost predicate IsWhole(s: State, pack: Pack) {
    forall e, k: nat :: e in pack.epochs && e.head.firstSeq <= k <= e.head.lastSeq ==> Exported(s, pack, k)
  }

  /** The first and the last selected entry. */
  function Start(selected: seq<nat>): Interval
    requires selected != []
  {
    Interval(selected[0], selected[|selected| - 1])
  }

  lemma StartIs(env: Env, s: State, time: Clock, range: PackRange)
    requires Valid(env, s) && FlatMap(SeqsOf(time, range), s.decisions) != []
    ensures var selected := FlatMap(SeqsOf(time, range), s.decisions);
            Start(selected).lo <= Start(selected).hi < |s.decisions|
            && (forall x :: x in selected ==> Start(selected).lo <= x <= Start(selected).hi)
            && (forall x: nat :: x in selected <==> x < |s.decisions| && IsSelected(time, range, s.decisions[x]))
  {
    hide *;
    AllNumbered(env, s);
    SelectedAscend(time, range, s.decisions);
    StartOfSelection(time, range, s.decisions, FlatMap(SeqsOf(time, range), s.decisions));
  }

  lemma StartOfSelection(time: Clock, range: PackRange, all: seq<Entry>, selected: seq<nat>)
    requires selected != [] && IsSelection(time, range, all, selected)
    ensures Start(selected).lo <= Start(selected).hi < |all|
    ensures forall x :: x in selected ==> Start(selected).lo <= x <= Start(selected).hi
    ensures forall x: nat :: x in selected <==> x < |all| && IsSelected(time, range, all[x])
  {
    hide IsSelected;
    StartBounds(selected);
    assert selected[|selected| - 1] in selected;
  }

  lemma AllNumbered(env: Env, s: State)
    requires Valid(env, s)
    ensures forall k :: 0 <= k < |s.decisions| ==> s.decisions[k].seqNo == k
  {
    hide Valid;
    forall k | 0 <= k < |s.decisions| ensures s.decisions[k].seqNo == k {
      Numbered(env, s, k);
    }
  }

  /** Exactly the entries in the widened interval are exported. */
  lemma EntriesExported(env: Env, s: State, epochs: seq<StoredEpoch>, selected: seq<nat>, k: nat)
    requires Valid(env, s) && selected != [] && k < |s.decisions|
    ensures var w := Widened(Start(selected), epochs);
            Exported(s, PackOf(s.decisions, epochs, selected), k) <==> w.lo <= k <= w.hi
  {
    Numbered(env, s, k);
    hide Valid, Widened;
    assert s.decisions[k] in s.decisions;
  }

  lemma PackEpochs(all: seq<Entry>, epochs: seq<StoredEpoch>, selected: seq<nat>)
    requires selected != []
    ensures forall e :: e in PackOf(all, epochs, selected).epochs <==>
              e in epochs && Meets(e, Widened(Start(selected), epochs))
  {
    hide Widened;
  }

  lemma MetInside(start: Interval, epochs: seq<StoredEpoch>, w: Interval, e: StoredEpoch)
    requires IsLeastClosed(start, epochs, w) && e in epochs && Meets(e, w)
    ensures Inside(e, w)
  {
    var n :| 0 <= n < |epochs| && epochs[n] == e;
  }

  /** What an export from two reads contains: the epochs the start meets, each
      inside `w`, and the entries in `w`. */
  ghost predicate IsPackOf(s: State, epochs: seq<StoredEpoch>, start: Interval, w: Interval, pack: Pack) {
    && (forall e :: e in pack.epochs <==> e in epochs && Meets(e, start))
    && (forall e :: e in pack.epochs ==> Inside(e, w))
    && (forall k: nat :: k < |s.decisions| ==> (Exported(s, pack, k) <==> w.lo <= k <= w.hi))
  }

  lemma PackIs(env: Env, s: State, t: State, selected: seq<nat>)
    requires Valid(env, s) && Valid(env, t) && selected != [] && Start(selected).lo <= Start(selected).hi
    ensures IsPackOf(s, t.epochs, Start(selected), Widened(Start(selected), t.epochs),
                     PackOf(s.decisions, t.epochs, selected))
  {
    hide Valid, Widened, Ascending, Exported, Start, Meets, PackOf, Inside, IsLeastClosed, Filter;
    LedgerAscends(env, t);
    var w, pack := Widened(Start(selected), t.epochs), PackOf(s.decisions, t.epochs, selected);
    WidenedIsLeast(Start(selected), t.epochs);
    PackEpochs(s.decisions, t.epochs, selected);
    forall e | e in pack.epochs ensures Inside(e, w) {
      MetInside(Start(selected), t.epochs, w, e);
    }
    forall k: nat | k < |s.decisions| ensures Exported(s, pack, k) <==> w.lo <= k <= w.hi {
      EntriesExported(env, s, t.epochs, selected, k);
    }
  }

  lemma WholeIfRead(s: State, epochs: seq<StoredEpoch>, start: Interval, w: Interval, pack: Pack)
    requires IsPackOf(s, epochs, start, w, pack)
    requires forall e :: e in epochs ==> e.head.firstSeq <= e.head.lastSeq
    ensures IsWhole(s, pack) <==> forall e :: e in epochs && Meets(e, start) ==> e.head.lastSeq < |s.decisions|
  {
    hide Meets;
    if IsWhole(s, pack) {
      forall e | e in epochs && Meets(e, start) ensures e.head.lastSeq < |s.decisions| {
        assert Exported(s, pack, e.head.lastSeq);
      }
    }
  }

  /** Entries are read from one state of the ledger and epochs from another: every
      included epoch comes with all its entries exactly when each epoch around the
      selection ends among the entries read. */
  lemma WholeExactly(env: Env, s: State, t: State, time: Clock, range: PackRange)
    requires Valid(env, s) && Valid(env, t) && FlatMap(SeqsOf(time, range), s.decisions) != []
    ensures var selected := FlatMap(SeqsOf(time, range), s.decisions);
            IsWhole(s, PackOf(s.decisions, t.epochs, selected)) <==>
            forall e :: e in t.epochs && Meets(e, Start(selected)) ==> e.head.lastSeq < |s.decisions|
  {
    StartIs(env, s, time, range);
    hide Valid, FlatMap, Widened, Filter, IsSelected, Start, Meets, PackOf, IsPackOf, IsWhole;
    var selected := FlatMap(SeqsOf(time, range), s.decisions);
    var start := Start(selected);
    PackIs(env, s, t, selected);
    forall e | e in t.epochs ensures e.head.firstSeq <= e.head.lastSeq {
      var n :| 0 <= n < |t.epochs| && t.epochs[n] == e;
      EpochNonEmpty(env, t, n);
    }
    WholeIfRead(s, t.epochs, start, Widened(start, t.epochs), PackOf(s.decisions, t.epochs, selected));
  }

  /** The audit pack of one consistent view of the ledger: its entries are those in
      the least interval of whole epochs around the selected ones, whatever the
      order of their times; its epochs are exactly those with an entry between the
      first and the last selected one, and all their entries are exported. */
  lemma PackIsWhole(env: Env, s: State, time: Clock, range: PackRange)
    requires Valid(env, s) && FlatMap(SeqsOf(time, range), s.decisions) != []
    ensures var selected := FlatMap(SeqsOf(time, range), s.decisions);
            var w := Widened(Start(selected), s.epochs);
            var pack := PackOf(s.decisions, s.epochs, selected);
            && (forall k: nat :: k < |s.decisions| && IsSelected(time, range, s.decisions[k]) ==>
                  Start(selected).lo <= k <= Start(selected).hi)
            && IsLeastClosed(Start(selected), s.epochs, w)
            && (forall k: nat :: k < |s.decisions| ==> (Exported(s, pack, k) <==> w.lo <= k <= w.hi))
            && (forall e :: e in pack.epochs <==> e in s.epochs && Meets(e, Start(selected)))
            && IsWhole(s, pack)
  {
    LedgerAscends(env, s);
    StartIs(env, s, time, range);
    hide Valid, FlatMap, Widened, Filter, IsSelected, Ascending, Exported, Start, IsWhole, IsLeastClosed, PackOf, Meets;
    var selected := FlatMap(SeqsOf(time, range), s.decisions);
    WidenedIsLeast(Start(selected), s.epochs);
    PackIs(env, s, s, selected);
    EpochsInChain(env, s);
    WholeExactly(env, s, s, time, range);
  }

  lemma EpochsInChain(env: Env, s: State)
    requires Valid(env, s)
    ensures forall e :: e in s.epochs ==> e.head.lastSeq < |s.decisions|
  {
    hide Valid;
    forall e | e in s.epochs ensures e.head.lastSeq < |s.decisions| {
      var n :| 0 <= n < |s.epochs| && s.epochs[n] == e;
      EpochNonEmpty(env, s, n);
    }
  }

  lemma StartBounds(selected: seq<nat>)
    requires selected != [] && Rising(selected)
    ensures Start(selected).lo <= Start(selected).hi == selected[|selected| - 1]
    ensures forall x :: x in selected ==> Start(selected).lo <= x <= Start(selected).hi
  {
  }

  /** The two reads are not one transaction: an epoch sealed between them can be
      exported without all its entries. */
  lemma SealBetweenReadsCutsEpoch(env: Env, a: Arrival, b: Arrival, sealedAt: string, time: Clock)
    requires time(Appended(env, State([], []), a).decisions[0].ts).Some?
    ensures var s1 := Appended(env, State([], []), a);
            var s2 := Sealed(env, Appended(env, s1, b), sealedAt);
            var pack := PackOf(s1.decisions, s2.epochs, FlatMap(SeqsOf(time, PackRange(None, None)), s1.decisions));
            Valid(env, s1) && Valid(env, s2) && |s2.decisions| == 2 && pack.epochs == s2.epochs && pack.epochs != []
            && InEpoch(s2, 0, 1) && |pack.entries| == 1
  {
    var s0 := State([], []);
    var s1, all := Appended(env, s0, a), PackRange(None, None);
    var s2 := Appended(env, s1, b);
    AppendKeepsValid(env, s0, a);
    AppendKeepsValid(env, s1, b);
    SealKeepsValid(env, s2, sealedAt);
    Numbered(env, s1, 0);
    TwoAppended(env, a, b);
    hide Appended, Valid, ComputeEpochHash;
    var epochs := Sealed(env, s2, sealedAt).epochs;
    assert |epochs| == 1 && epochs[0].head.firstSeq == 0 && epochs[0].head.lastSeq == 1;
    hide Sealed;
    OneEntryOneEpoch(s1.decisions[0], epochs[0], time);
    assert s1.decisions == [s1.decisions[0]] && epochs == [epochs[0]];
  }

  lemma OneEntryOneEpoch(entry: Entry, e: StoredEpoch, time: Clock)
    requires time(entry.ts).Some? && entry.seqNo == 0 && e.head.firstSeq == 0 && e.head.lastSeq == 1
    ensures PackOf([entry], [e], FlatMap(SeqsOf(time, PackRange(None, None)), [entry])) == Pack([entry], [e])
  {
    FlatMapOne(SeqsOf(time, PackRange(None, None)), entry);
    assert [e][..0] == [];
    var w := Interval(0, 1);
    assert Widened(Interval(0, 0), [e]) == w;
    FilterAll(WithinOf(w), [entry]);
    FilterAll(MeetsOf(w), [e]);
  }

  lemma TwoAppended(env: Env, a: Arrival, b: Arrival)
    ensures var s1 := Appended(env, State([], []), a);
            |s1.decisions| == 1 && |Appended(env, s1, b).decisions| == 2 && Appended(env, s1, b).epochs == []
  {
    hide ComputeHash, Unhashed;
  }
}
