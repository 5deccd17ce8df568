/** The store that decisions are appended to and epochs sealed in: one write
    transaction per method. */
module Ledger {
  import opened Text
  import opened HashLinks
  import opened DecisionChain
  import opened Epochs

  /** The hash, the gate's key and its name. */
  datatype Env = Env(h: TextHash, sign: string -> string, signer: string)

  datatype State = State(decisions: seq<Entry>, epochs: seq<StoredEpoch>)

  datatype Arrival = Arrival(draft: Draft, now: string)

  // ----- what the transactions do -----

  function Appended(env: Env, s: State, a: Arrival): State {
    s.(decisions := Append(env.h, env.sign, s.decisions, a.draft, env.signer, a.now))
  }

  function AllAppended(env: Env, s: State, arrivals: seq<Arrival>): State {
    if arrivals == [] then s
      else Appended(env, AllAppended(env, s, arrivals[..|arrivals| - 1]), arrivals[|arrivals| - 1])
  }

  /** `MAX(last_seq) + 1`, 0 without epochs. */
  function NextUnsealed(epochs: seq<StoredEpoch>): nat {
    if epochs == [] then 0
    else
      var rest, last := NextUnsealed(epochs[..|epochs| - 1]), epochs[|epochs| - 1].head.lastSeq + 1;
      if rest > last then rest else last
  }

  function HeadSeq(s: State): Option<nat> {
    if s.decisions == [] then None else Some(|s.decisions| - 1)
  }

  function Unsealed(s: State): nat {
    var next := NextUnsealed(s.epochs);
    if HeadSeq(s).Some? && HeadSeq(s).value >= next then HeadSeq(s).value - next + 1 else 0
  }

  /** The next head over everything not sealed yet, signed. */
  function NextHead(env: Env, s: State, now: string): EpochHead
    requires s.decisions != []
  {
    var n, last := |s.epochs|, |s.decisions| - 1;
    var head := EpochHead(
      EPOCH_KIND,
      if n == 0 then 0 else s.epochs[n - 1].head.epoch + 1,
      if n == 0 then 0 else s.epochs[n - 1].head.lastSeq + 1,
      last,
      s.decisions[last].entryHash,
      if n == 0 then GENESIS else s.epochs[n - 1].head.epochHash,
      now, env.signer, "", "");
    var hash := ComputeEpochHash(env.h, head);
    head.(epochHash := hash, sig := env.sign(hash))
  }

  predicate HasUnsealed(s: State) {
    s.decisions != [] && (s.epochs == [] || s.epochs[|s.epochs| - 1].head.lastSeq < |s.decisions| - 1)
  }

  function Sealed(env: Env, s: State, now: string): State {
    if HasUnsealed(s) then s.(epochs := s.epochs + [StoredEpoch(NextHead(env, s, now), [], None)]) else s
  }

  /** The row of the epoch with this number. */
  function Row(epochs: seq<StoredEpoch>, epoch: nat): Option<nat> {
    if epochs == [] then None
    else if epochs[|epochs| - 1].head.epoch == epoch then Some(|epochs| - 1)
    else Row(epochs[..|epochs| - 1], epoch)
  }

  lemma {:induction false} RowIs(epochs: seq<StoredEpoch>, epoch: nat)
    ensures var row := Row(epochs, epoch);
            (row.Some? ==> row.value < |epochs| && epochs[row.value].head.epoch == epoch)
            && (row.None? ==> forall i :: 0 <= i < |epochs| ==> epochs[i].head.epoch != epoch)
  {
    if epochs != [] {
      RowIs(epochs[..|epochs| - 1], epoch);
    }
  }

  function WithAnchors(s: State, row: nat, receipts: seq<Receipt>, error: Option<seq<Refusal>>): State
    requires row < |s.epochs|
  {
    var e := s.epochs[row];
    s.(epochs := s.epochs[row := e.(anchors := WithReceipts(e.anchors, receipts), lastError := error)])
  }

  // ----- the store -----

  class LedgerStore {
    var decisions: seq<Entry>
    var epochs: seq<StoredEpoch>

    constructor ()
      ensures Contents() == State([], [])
    {
      decisions, epochs := [], [];
    }

    function Contents(): State
      reads this
    {
      State(decisions, epochs)
    }

    method AppendDecision(env: Env, a: Arrival) returns (entry: Entry)
      modifies this
      ensures Contents() == Appended(env, old(Contents()), a)
      ensures entry == decisions[|decisions| - 1]
    {
      hide ComputeHash;
      var prevHash := if decisions == [] then GENESIS else decisions[|decisions| - 1].entryHash;
      entry := Link(env.h, a.draft, |decisions|, prevHash, env.signer, a.now);
      UnhashedSeal(env, a, |decisions|, prevHash, entry);
      entry := entry.(sig := env.sign(entry.entryHash));
      decisions := decisions + [entry];
    }

    /** Appends that other connections commit in between. */
    method AppendAll(env: Env, arrivals: seq<Arrival>)
      modifies this
      ensures Contents() == AllAppended(env, old(Contents()), arrivals)
    {
      hide Appended;
      ghost var before := Contents();
      for i := 0 to |arrivals|
        invariant Contents() == AllAppended(env, before, arrivals[..i])
      {
        assert arrivals[..i + 1][..i] == arrivals[..i];
        var _ := AppendDecision(env, arrivals[i]);
      }
      assert arrivals[..|arrivals|] == arrivals;
    }

    method DecisionHeadSeq() returns (head: Option<nat>)
      ensures head == HeadSeq(Contents())
    {
      head := if decisions == [] then None else Some(|decisions| - 1);
    }

    method NextUnsealedSeq() returns (next: nat)
      ensures next == NextUnsealed(epochs)
    {
      next := 0;
      for i := 0 to |epochs|
        invariant next == NextUnsealed(epochs[..i])
      {
        assert epochs[..i + 1][..i] == epochs[..i];
        if epochs[i].head.lastSeq + 1 > next {
          next := epochs[i].head.lastSeq + 1;
        }
      }
      assert epochs[..|epochs|] == epochs;
    }

    /** Seal every entry no epoch covers yet into the next epoch. */
    method SealEpoch(env: Env, now: string) returns (head: Option<EpochHead>)
      modifies this
      ensures Contents() == Sealed(env, old(Contents()), now)
      ensures head == if HasUnsealed(old(Contents())) then Some(NextHead(env, old(Contents()), now)) else None
    {
      hide ComputeEpochHash;
      var n := |epochs|;
      var epoch, firstSeq, prevEpoch := 0, 0, GENESIS;
      if n > 0 {
        var prev := epochs[n - 1].head;
        epoch, firstSeq, prevEpoch := prev.epoch + 1, prev.lastSeq + 1, prev.epochHash;
      }
      if decisions == [] || |decisions| - 1 < firstSeq {
        return None;
      }
      var last := |decisions| - 1;
      var sealed := EpochHead(EPOCH_KIND, epoch, firstSeq, last, decisions[last].entryHash, prevEpoch, now, env.signer,
                              "", "");
      var hash := ComputeEpochHash(env.h, sealed);
      sealed := sealed.(epochHash := hash, sig := env.sign(hash));
      epochs := epochs + [StoredEpoch(sealed, [], None)];
      head := Some(sealed);
    }

    /** Add receipts to an epoch and record the outcome; false when there is no
        such epoch. */
    method AddEpochAnchors(epoch: nat, receipts: seq<Receipt>, error: Option<seq<Refusal>>) returns (found: bool)
      modifies this
      ensures found == Row(old(epochs), epoch).Some?
      ensures !found ==> Contents() == old(Contents())
      ensures found ==> Row(old(epochs), epoch).value < |old(epochs)|
                        && Contents() == WithAnchors(old(Contents()), Row(old(epochs), epoch).value, receipts, error)
    {
      var row := Row(epochs, epoch);
      RowIs(epochs, epoch);
      if row.None? {
        return false;
      }
      var stored := epochs[row.value];
      var anchors := stored.anchors;
      for i := 0 to |receipts|
        invariant WithReceipts(anchors, receipts[i..]) == WithReceipts(stored.anchors, receipts)
      {
        assert receipts[i..][1..] == receipts[i + 1..];
        if !Holds(anchors, receipts[i].kind) {
          anchors := anchors + [receipts[i]];
        }
      }
      assert receipts[|receipts|..] == [];
      epochs := epochs[row.value := stored.(anchors := anchors, lastError := error)];
      found := true;
    }
  }

  lemma UnhashedSeal(env: Env, a: Arrival, n: nat, prevHash: string, entry: Entry)
    requires WithoutSeal(entry) == Unhashed(a.draft, n, prevHash, env.signer, a.now)
    requires entry.entryHash == ComputeHash(env.h, entry)
    ensures ComputeHash(env.h, entry) == ComputeHash(env.h, Unhashed(a.draft, n, prevHash, env.signer, a.now))
    ensures entry == Unhashed(a.draft, n, prevHash, env.signer, a.now).(entryHash := entry.entryHash, sig := entry.sig)
  {
    hide EntryText;
    var u := Unhashed(a.draft, n, prevHash, env.signer, a.now);
    assert entry == u.(entryHash := entry.entryHash, sig := entry.sig);
    SealNotHashed(u, entry.entryHash, entry.sig);
  }

  // ----- what every transaction keeps -----

  ghost predicate EpochAt(env: Env, s: State, i: nat)
    requires i < |s.epochs|
  {
    var head := s.epochs[i].head;
    && head.epoch == i
    && head.firstSeq == (if i == 0 then 0 else s.epochs[i - 1].head.lastSeq + 1)
    && head.firstSeq <= head.lastSeq < |s.decisions|
    && head.entriesHead == s.decisions[head.lastSeq].entryHash
    && head.prevEpoch == (if i == 0 then GENESIS else s.epochs[i - 1].head.epochHash)
    && head.epochHash == ComputeEpochHash(env.h, head)
    && OncePerKind(s.epochs[i].anchors)
  }

  /** The decisions are a chain, and the epochs are numbered from 0, each starting
      where the one before ends, each naming its last entry and the epoch before,
      with at most one receipt of a kind. */
  ghost predicate Valid(env: Env, s: State) {
    IsChain(env.h, s.decisions) && forall i :: 0 <= i < |s.epochs| ==> EpochAt(env, s, i)
  }

  lemma AppendKeepsValid(env: Env, s: State, a: Arrival)
    requires Valid(env, s)
    ensures Valid(env, Appended(env, s, a))
    ensures Appended(env, s, a).epochs == s.epochs && s.decisions <= Appended(env, s, a).decisions
  {
    hide IsChain, ComputeEpochHash, OncePerKind;
    AppendKeepsChain(env.h, env.sign, s.decisions, a.draft, env.signer, a.now);
    AppendExtends(env, s, a);
    var s' := Appended(env, s, a);
    forall i | 0 <= i < |s'.epochs| ensures EpochAt(env, s', i) {
      assert EpochAt(env, s, i);
    }
  }

  lemma AppendExtends(env: Env, s: State, a: Arrival)
    ensures s.decisions <= Append(env.h, env.sign, s.decisions, a.draft, env.signer, a.now)
  {
    hide ComputeHash, Unhashed;
  }

  lemma {:induction false} AppendsKeepValid(env: Env, s: State, arrivals: seq<Arrival>)
    requires Valid(env, s)
    ensures Valid(env, AllAppended(env, s, arrivals))
    ensures AllAppended(env, s, arrivals).epochs == s.epochs && s.decisions <= AllAppended(env, s, arrivals).decisions
  {
    hide Valid, Appended;
    if arrivals != [] {
      var init := arrivals[..|arrivals| - 1];
      AppendsKeepValid(env, s, init);
      AppendKeepsValid(env, AllAppended(env, s, init), arrivals[|arrivals| - 1]);
    }
  }

  lemma NextHeadHash(env: Env, s: State, now: string)
    requires s.decisions != []
    ensures NextHead(env, s, now).epochHash == ComputeEpochHash(env.h, NextHead(env, s, now))
  {
    hide EpochText;
    var head := NextHead(env, s, now);
    EpochSealNotHashed(head.(epochHash := "", sig := ""), head.epochHash, head.sig);
  }

  lemma SealKeepsValid(env: Env, s: State, now: string)
    requires Valid(env, s)
    ensures Valid(env, Sealed(env, s, now))
  {
    hide IsChain, ComputeEpochHash, OncePerKind, NextHead;
    if HasUnsealed(s) {
      var s' := Sealed(env, s, now);
      var n := |s.epochs|;
      assert n > 0 ==> EpochAt(env, s, n - 1);
      NextHeadFits(env, s, now);
      forall i | 0 <= i < |s'.epochs| ensures EpochAt(env, s', i) {
        if i < n {
          assert EpochAt(env, s, i);
        }
      }
    }
  }

  lemma NextHeadFits(env: Env, s: State, now: string)
    requires HasUnsealed(s) && (s.epochs != [] ==> s.epochs[|s.epochs| - 1].head.epoch == |s.epochs| - 1)
    ensures EpochAt(env, Sealed(env, s, now), |s.epochs|)
  {
    NextHeadHash(env, s, now);
    hide ComputeEpochHash;
  }

  lemma AnchorsKeepValid(env: Env, s: State, row: nat, receipts: seq<Receipt>, error: Option<seq<Refusal>>)
    requires Valid(env, s) && row < |s.epochs|
    ensures Valid(env, WithAnchors(s, row, receipts, error))
  {
    hide IsChain, ComputeEpochHash, OncePerKind;
    var s' := WithAnchors(s, row, receipts, error);
    assert EpochAt(env, s, row);
    ReceiptsKept(s.epochs[row].anchors, receipts);
    forall i | 0 <= i < |s'.epochs| ensures EpochAt(env, s', i) {
      assert EpochAt(env, s, i);
      assert i > 0 ==> s'.epochs[i - 1].head == s.epochs[i - 1].head;
    }
  }

  // ----- what validity means -----

  lemma {:induction false} NextAfterLast(env: Env, s: State)
    requires Valid(env, s)
    ensures NextUnsealed(s.epochs) == if s.epochs == [] then 0 else s.epochs[|s.epochs| - 1].head.lastSeq + 1
    ensures NextUnsealed(s.epochs) <= |s.decisions|
    decreases |s.epochs|
  {
    var n := |s.epochs|;
    if n > 0 {
      hide Valid;
      FewerEpochs(env, s);
      NextAfterLast(env, s.(epochs := s.epochs[..n - 1]));
    }
  }

  /** Without its last epoch a valid ledger is valid, and that epoch starts after the others. */
  lemma FewerEpochs(env: Env, s: State)
    requires Valid(env, s) && s.epochs != []
    ensures var n := |s.epochs| - 1;
            && Valid(env, s.(epochs := s.epochs[..n]))
            && s.epochs[n].head.firstSeq == (if n == 0 then 0 else s.epochs[n - 1].head.lastSeq + 1)
            && s.epochs[n].head.firstSeq <= s.epochs[n].head.lastSeq < |s.decisions|
  {
    hide IsChain, ComputeEpochHash, OncePerKind;
    var n := |s.epochs| - 1;
    var s' := s.(epochs := s.epochs[..n]);
    assert EpochAt(env, s, n);
    forall i | 0 <= i < n ensures EpochAt(env, s', i) {
      assert EpochAt(env, s, i);
    }
  }

  predicate InEpoch(s: State, i: nat, seqNo: nat)
    requires i < |s.epochs|
  {
    s.epochs[i].head.firstSeq <= seqNo <= s.epochs[i].head.lastSeq
  }

  lemma {:induction false} EpochsAscend(env: Env, s: State, i: nat, j: nat)
    requires Valid(env, s) && i < j < |s.epochs|
    ensures s.epochs[i].head.lastSeq < s.epochs[j].head.firstSeq
    decreases j
  {
    hide IsChain, ComputeEpochHash, OncePerKind;
    assert EpochAt(env, s, j) && EpochAt(env, s, j - 1);
    if i < j - 1 {
      EpochsAscend(env, s, i, j - 1);
    }
  }

  lemma {:induction false} SealedIsInSome(env: Env, s: State, n: nat, seqNo: nat) returns (i: nat)
    requires Valid(env, s) && 0 < n <= |s.epochs| && seqNo <= s.epochs[n - 1].head.lastSeq
    ensures i < n && InEpoch(s, i, seqNo)
  {
    hide IsChain, ComputeEpochHash, OncePerKind;
    assert EpochAt(env, s, n - 1);
    if seqNo >= s.epochs[n - 1].head.firstSeq {
      i := n - 1;
    } else {
      i := SealedIsInSome(env, s, n - 1, seqNo);
    }
  }

  /** The epochs cover exactly the entries before `NextUnsealed`, each once. */
  lemma EpochsPartition(env: Env, s: State, seqNo: nat)
    requires Valid(env, s)
    ensures seqNo < NextUnsealed(s.epochs) <==> exists i :: 0 <= i < |s.epochs| && InEpoch(s, i, seqNo)
    ensures forall i, j ::
              0 <= i < |s.epochs| && 0 <= j < |s.epochs| && InEpoch(s, i, seqNo) && InEpoch(s, j, seqNo) ==> i == j
  {
    NextAfterLast(env, s);
    hide NextUnsealed;
    var n := |s.epochs|;
    if n > 0 && seqNo <= s.epochs[n - 1].head.lastSeq {
      var i := SealedIsInSome(env, s, n, seqNo);
      assert InEpoch(s, i, seqNo);
    }
    hide Valid;
    if i :| 0 <= i < n && InEpoch(s, i, seqNo) && i < n - 1 {
      EpochsAscend(env, s, i, n - 1);
      EpochNonEmpty(env, s, n - 1);
    }
    forall i, j | 0 <= i < n && 0 <= j < n && InEpoch(s, i, seqNo) && InEpoch(s, j, seqNo) ensures i == j {
      if i < j {
        EpochsAscend(env, s, i, j);
      } else if j < i {
        EpochsAscend(env, s, j, i);
      }
    }
  }

  lemma EpochNonEmpty(env: Env, s: State, i: nat)
    requires Valid(env, s) && i < |s.epochs|
    ensures s.epochs[i].head.firstSeq <= s.epochs[i].head.lastSeq < |s.decisions|
  {
    hide IsChain, ComputeEpochHash, OncePerKind;
    assert EpochAt(env, s, i);
  }

  function Texts(s: State): set<string> {
    ChainTexts(s.decisions) + set i | 0 <= i < |s.epochs| :: EpochText(s.epochs[i].head)
  }

  lemma ChainPrefix(h: TextHash, entries: seq<Entry>, n: nat)
    requires IsChain(h, entries) && n <= |entries|
    ensures IsChain(h, entries[..n])
  {
    hide ComputeHash;
    LinkedPrefix(HashOf, PrevOf, SeqOf, GENESIS, entries, n);
  }

  lemma WiderCollision(h: TextHash, few: set<string>, many: set<string>)
    requires TextCollision(h, few) && few <= many
    ensures TextCollision(h, many)
  {
  }

  lemma EpochFacts(env: Env, s: State, i: nat)
    requires Valid(env, s) && i < |s.epochs|
    ensures var head := s.epochs[i].head;
            head.lastSeq < |s.decisions| && head.entriesHead == s.decisions[head.lastSeq].entryHash
            && head.epochHash == ComputeEpochHash(env.h, head) && EpochText(head) in Texts(s)
            && IsChain(env.h, s.decisions[..head.lastSeq + 1])
            && ChainTexts(s.decisions[..head.lastSeq + 1]) <= Texts(s)
  {
    hide IsChain, ComputeEpochHash, EpochText, ChainTexts, OncePerKind;
    assert EpochAt(env, s, i);
    hide EpochAt;
    EpochTextHashed(s, i);
    FewerTexts(s.decisions, s.epochs[i].head.lastSeq + 1);
    ChainPrefix(env.h, s.decisions, s.epochs[i].head.lastSeq + 1);
  }

  lemma FewerTexts(entries: seq<Entry>, n: nat)
    requires n <= |entries|
    ensures ChainTexts(entries[..n]) <= ChainTexts(entries)
  {
    hide EntryText;
  }

  lemma EpochTextHashed(s: State, i: nat)
    requires i < |s.epochs|
    ensures EpochText(s.epochs[i].head) in Texts(s) && ChainTexts(s.decisions) <= Texts(s)
  {
    hide EpochText, ChainTexts;
  }

  /** An epoch hash commits to the epoch's number, range and predecessor, and to
      every covered field of every decision up to its end, or hashed texts collide. */
  lemma EpochCommits(env: Env, s: State, t: State, i: nat, j: nat)
    requires Valid(env, s) && Valid(env, t) && i < |s.epochs| && j < |t.epochs|
    requires s.epochs[i].head.epochHash == t.epochs[j].head.epochHash
    ensures TextCollision(env.h, Texts(s) + Texts(t)) ||
            (WithoutEpochSeal(s.epochs[i].head) == WithoutEpochSeal(t.epochs[j].head)
             && s.epochs[i].head.lastSeq < |s.decisions| && t.epochs[j].head.lastSeq < |t.decisions|
             && forall k :: 0 <= k <= s.epochs[i].head.lastSeq ==> SameEntry(s.decisions[k], t.decisions[k]))
  {
    hide Valid, Texts, ChainTexts, IsChain, ComputeEpochHash, EpochText, TextCollision, SameEntry;
    var all := Texts(s) + Texts(t);
    var x, y := s.epochs[i].head, t.epochs[j].head;
    EpochFacts(env, s, i);
    EpochFacts(env, t, j);
    if !TextCollision(env.h, all) {
      EpochHashCovers(env.h, x, y);
      if TextCollision(env.h, {EpochText(x), EpochText(y)}) {
        WiderCollision(env.h, {EpochText(x), EpochText(y)}, all);
        assert false;
      }
      SameRange(x, y);
      var a, b := s.decisions[..x.lastSeq + 1], t.decisions[..y.lastSeq + 1];
      HeadCommits(env.h, a, b);
      if TextCollision(env.h, ChainTexts(a) + ChainTexts(b)) {
        WiderCollision(env.h, ChainTexts(a) + ChainTexts(b), all);
        assert false;
      }
      forall k | 0 <= k <= x.lastSeq ensures SameEntry(s.decisions[k], t.decisions[k]) {
        assert SameEntry(a[k], b[k]);
      }
    }
  }

  lemma SameRange(x: EpochHead, y: EpochHead)
    requires WithoutEpochSeal(x) == WithoutEpochSeal(y)
    ensures x.lastSeq == y.lastSeq && x.entriesHead == y.entriesHead && x.epoch == y.epoch && x.prevEpoch == y.prevEpoch
  {
    var a, b := WithoutEpochSeal(x), WithoutEpochSeal(y);
    assert a.lastSeq == x.lastSeq && a.entriesHead == x.entriesHead && a.epoch == x.epoch && a.prevEpoch == x.prevEpoch;
    assert b.lastSeq == y.lastSeq && b.entriesHead == y.entriesHead && b.epoch == y.epoch && b.prevEpoch == y.prevEpoch;
  }

  lemma EpochStepCommits(env: Env, s: State, t: State, i: nat, j: nat)
    requires Valid(env, s) && Valid(env, t) && i < |s.epochs| && j < |t.epochs|
    requires s.epochs[i].head.epochHash == t.epochs[j].head.epochHash
    ensures TextCollision(env.h, Texts(s) + Texts(t)) ||
            (i == j && WithoutEpochSeal(s.epochs[i].head) == WithoutEpochSeal(t.epochs[j].head)
             && (i > 0 ==> s.epochs[i - 1].head.epochHash == t.epochs[i - 1].head.epochHash))
  {
    EpochNumbers(env, s, i);
    EpochNumbers(env, t, j);
    hide *;
    EpochCommits(env, s, t, i, j);
    if !TextCollision(env.h, Texts(s) + Texts(t)) {
      SameRange(s.epochs[i].head, t.epochs[j].head);
    }
  }

  /** Through `prevEpoch` an epoch hash also commits to every epoch before it. */
  lemma {:induction false} EpochHistoryCommits(env: Env, s: State, t: State, i: nat, j: nat, k: nat)
    requires Valid(env, s) && Valid(env, t) && k <= i < |s.epochs| && j < |t.epochs|
    requires s.epochs[i].head.epochHash == t.epochs[j].head.epochHash
    ensures TextCollision(env.h, Texts(s) + Texts(t)) ||
            (i == j && WithoutEpochSeal(s.epochs[k].head) == WithoutEpochSeal(t.epochs[k].head))
    decreases i
  {
    hide *;
    EpochStepCommits(env, s, t, i, j);
    if !TextCollision(env.h, Texts(s) + Texts(t)) && k < i {
      EpochHistoryCommits(env, s, t, i - 1, j - 1, k);
    }
  }

  lemma EpochNumbers(env: Env, s: State, i: nat)
    requires Valid(env, s) && i < |s.epochs|
    ensures s.epochs[i].head.epoch == i
    ensures i > 0 ==> s.epochs[i].head.prevEpoch == s.epochs[i - 1].head.epochHash
  {
    hide IsChain, ComputeEpochHash, OncePerKind;
    assert EpochAt(env, s, i);
  }
}
