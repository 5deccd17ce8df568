/** The chain of ledger records: each names the hash of the one before it. */
module RecordChain {
  import opened Text
  import opened HashLinks
  import opened LedgerRecord
  import opened CanonicalRecord
  import opened RecordFields
  import opened RecordTwins

  const GENESIS_HASH := ZERO_DIGEST

  datatype ChainLinkError = SeqMismatch(expected: nat, actual: nat) | PrevHashMismatch

  function ComputeHash(h: TextHash, r: Record): Digest {
    h(Canonical(r))
  }

  /** The record's own hash is not part of what is hashed. */
  lemma OwnHashNotHashed(r: Record, hash: Digest)
    ensures Canonical(r.(recordHash := hash)) == Canonical(r)
  {
    hide JoinLines, DetectionsText, ActionsText, PolicyText, IdentityText, EgressText, MetadataText, HopTag, Hex,
      Decimal;
    assert Lines(r.(recordHash := hash)) == Lines(r);
  }

  /** `r` linked after a record whose hash is `prev`. */
  function LinkRecord(h: TextHash, prev: Digest, r: Record): Record {
    var linked := r.(prevHash := prev);
    linked.(recordHash := ComputeHash(h, linked))
  }

  /** A record that is being completed in place. */
  class OpenRecord {
    var record: Record

    constructor (staged: Record)
      ensures record == staged
    {
      record := staged;
    }

    method LinkAndHash(h: TextHash, prev: Digest) returns (hash: Digest)
      modifies this
      ensures record.prevHash == prev && record.recordHash == hash == ComputeHash(h, record)
      ensures record == old(record).(prevHash := prev, recordHash := hash)
    {
      hide Canonical;
      record := record.(prevHash := prev);
      hash := ComputeHash(h, record);
      OwnHashNotHashed(record, hash);
      record := record.(recordHash := hash);
    }
  }

  // ----- what a chain is -----

  function HashOf(r: Record): Digest { r.recordHash }

  function PrevOf(r: Record): Digest { r.prevHash }

  function SeqOf(r: Record): int { r.seqNo }

  ghost predicate Hashed(h: TextHash, records: seq<Record>) {
    forall i :: 0 <= i < |records| ==> records[i].recordHash == ComputeHash(h, records[i])
  }

  ghost predicate IsChain(h: TextHash, records: seq<Record>) {
    Linked(HashOf, PrevOf, SeqOf, GENESIS_HASH, records) && Hashed(h, records)
  }

  function Tip(records: seq<Record>): Digest {
    if records == [] then GENESIS_HASH else records[|records| - 1].recordHash
  }

  /** What stops record `i`, given that the records before it are a chain. */
  function Fault(h: TextHash, records: seq<Record>, i: nat): Option<ChainLinkError>
    requires i < |records|
  {
    var r := records[i];
    if r.seqNo != i then Some(SeqMismatch(i, r.seqNo))
    else if r.prevHash != Tip(records[..i]) || r.recordHash != ComputeHash(h, r) then Some(PrevHashMismatch)
    else None
  }

  lemma LastFits(h: TextHash, records: seq<Record>)
    requires records != [] && IsChain(h, records)
    ensures Fault(h, records, |records| - 1).None?
  {
    hide ComputeHash;
    assert LinkedAt(HashOf, PrevOf, SeqOf, GENESIS_HASH, records, |records| - 1);
  }

  lemma ChainGrows(h: TextHash, records: seq<Record>, i: nat)
    requires i < |records| && IsChain(h, records[..i])
    ensures IsChain(h, records[..i + 1]) <==> Fault(h, records, i).None?
  {
    hide ComputeHash;
    var before, more := records[..i], records[..i + 1];
    assert forall j :: 0 <= j < i ==> more[j] == before[j];
    assert LinkedAt(HashOf, PrevOf, SeqOf, GENESIS_HASH, more, i) <==>
           records[i].seqNo == i && records[i].prevHash == Tip(before);
    if Fault(h, records, i).None? {
      forall j | 0 <= j <= i
        ensures LinkedAt(HashOf, PrevOf, SeqOf, GENESIS_HASH, more, j) && more[j].recordHash == ComputeHash(h, more[j])
      {
        if j < i {
          assert LinkedAt(HashOf, PrevOf, SeqOf, GENESIS_HASH, before, j);
        }
      }
    } else if IsChain(h, more) {
      LastFits(h, more);
      assert false;
    }
  }

  lemma ChainPrefix(h: TextHash, records: seq<Record>, n: nat)
    requires n <= |records| && IsChain(h, records)
    ensures IsChain(h, records[..n])
  {
    LinkedPrefix(HashOf, PrevOf, SeqOf, GENESIS_HASH, records, n);
  }

  /** Accepts exactly the chains, with their tip; otherwise reports the first
      record that does not fit and why. */
  method VerifyChain(h: TextHash, records: seq<Record>) returns (result: Result<Digest, ChainLinkError>)
    ensures result.Ok? <==> IsChain(h, records)
    ensures result.Ok? ==> result.value == Tip(records)
    ensures result.Err? ==> exists i ::
                              0 <= i < |records| && IsChain(h, records[..i])
                                && Fault(h, records, i) == Some(result.error)
  {
    hide IsChain, ComputeHash;
    var prev := GENESIS_HASH;
    assert IsChain(h, records[..0]) by { EmptyChain(h, records[..0]); }
    for i := 0 to |records|
      invariant IsChain(h, records[..i]) && prev == Tip(records[..i])
    {
      var r := records[i];
      ChainGrows(h, records, i);
      if !Fault(h, records, i).None? && IsChain(h, records) {
        ChainPrefix(h, records, i + 1);
        assert false;
      }
      if r.seqNo != i {
        return Err(SeqMismatch(i, r.seqNo));
      }
      if r.prevHash != prev {
        return Err(PrevHashMismatch);
      }
      var hash := ComputeHash(h, r);
      if hash != r.recordHash {
        return Err(PrevHashMismatch);
      }
      prev := hash;
    }
    assert records[..|records|] == records;
    result := Ok(prev);
  }

  lemma EmptyChain(h: TextHash, records: seq<Record>)
    requires records == []
    ensures IsChain(h, records)
  {
  }

  // ----- chains are what linking makes -----

  /** Records linked one after the other, starting after `prev`. */
  function LinkAll(h: TextHash, prev: Digest, drafts: seq<Record>): (linked: seq<Record>)
    ensures |linked| == |drafts|
    decreases drafts
  {
    if drafts == [] then []
    else
      var first := LinkRecord(h, prev, drafts[0]);
      [first] + LinkAll(h, first.recordHash, drafts[1..])
  }

  ghost predicate Numbered(records: seq<Record>) {
    forall i :: 0 <= i < |records| ==> records[i].seqNo == i
  }

  function LinkBefore(prev: Digest, linked: seq<Record>, i: nat): Digest
    requires i < |linked|
  {
    if i == 0 then prev else linked[i - 1].recordHash
  }

  /** Each linked record is its draft with the two hashes set. */
  lemma {:induction false} LinkAllAt(h: TextHash, prev: Digest, drafts: seq<Record>, i: nat)
    requires i < |drafts|
    ensures var linked := LinkAll(h, prev, drafts);
            linked[i] == LinkRecord(h, LinkBefore(prev, linked, i), drafts[i])
    decreases drafts
  {
    hide LinkRecord;
    if i > 0 {
      LinkAllAt(h, LinkRecord(h, prev, drafts[0]).recordHash, drafts[1..], i - 1);
    }
  }

  lemma LinkedHash(h: TextHash, prev: Digest, r: Record)
    ensures LinkRecord(h, prev, r).recordHash == ComputeHash(h, LinkRecord(h, prev, r))
  {
    hide Canonical;
    var linked := r.(prevHash := prev);
    OwnHashNotHashed(linked, ComputeHash(h, linked));
  }

  /** Linking numbered drafts always makes a chain. */
  lemma LinkingMakesChain(h: TextHash, drafts: seq<Record>)
    requires Numbered(drafts)
    ensures IsChain(h, LinkAll(h, GENESIS_HASH, drafts))
  {
    hide ComputeHash;
    var linked := LinkAll(h, GENESIS_HASH, drafts);
    forall i | 0 <= i < |linked|
      ensures LinkedAt(HashOf, PrevOf, SeqOf, GENESIS_HASH, linked, i)
              && linked[i].recordHash == ComputeHash(h, linked[i])
    {
      LinkAllAt(h, GENESIS_HASH, drafts, i);
      LinkedHash(h, LinkBefore(GENESIS_HASH, linked, i), drafts[i]);
    }
  }

  lemma {:induction false} LinkAllFixed(h: TextHash, prev: Digest, records: seq<Record>)
    requires forall i :: 0 <= i < |records| ==> records[i].prevHash == LinkBefore(prev, records, i)
    requires Hashed(h, records)
    ensures LinkAll(h, prev, records) == records
    decreases records
  {
    if records != [] {
      hide ComputeHash;
      var rest := records[1..];
      assert records[0].prevHash == LinkBefore(prev, records, 0);
      assert records[0].(prevHash := prev) == records[0];
      assert LinkRecord(h, prev, records[0]) == records[0];
      forall i | 0 <= i < |rest| ensures rest[i].prevHash == LinkBefore(records[0].recordHash, rest, i) {
        assert records[i + 1].prevHash == LinkBefore(prev, records, i + 1);
      }
      LinkAllFixed(h, records[0].recordHash, rest);
    }
  }

  lemma ChainIsFold(h: TextHash, records: seq<Record>)
    requires IsChain(h, records)
    ensures Numbered(records) && records == LinkAll(h, GENESIS_HASH, records)
  {
    hide ComputeHash, LinkAll;
    forall i | 0 <= i < |records|
      ensures records[i].seqNo == i && records[i].prevHash == LinkBefore(GENESIS_HASH, records, i)
    {
      assert LinkedAt(HashOf, PrevOf, SeqOf, GENESIS_HASH, records, i);
    }
    LinkAllFixed(h, GENESIS_HASH, records);
  }

  /** The lists `VerifyChain` accepts are exactly those obtained by linking
      records numbered 0, 1, 2, ... from the genesis hash. */
  lemma ChainsAreFolds(h: TextHash, records: seq<Record>)
    ensures IsChain(h, records) <==> exists drafts :: Numbered(drafts) && records == LinkAll(h, GENESIS_HASH, drafts)
  {
    hide IsChain, Numbered, LinkAll;
    if IsChain(h, records) {
      ChainIsFold(h, records);
    }
    if drafts :| Numbered(drafts) && records == LinkAll(h, GENESIS_HASH, drafts) {
      LinkingMakesChain(h, drafts);
    }
  }

  // ----- the tip commits to the chain -----

  function HashedTexts(records: seq<Record>): set<string> {
    set i | 0 <= i < |records| :: Canonical(records[i])
  }

  predicate SameText(x: Record, y: Record) {
    Canonical(x) == Canonical(y) && x.seqNo == y.seqNo && x.prevHash == y.prevHash && x.metadata == y.metadata
  }

  /** Every record came through the builder's metadata check. */
  ghost predicate MetadataChecked(records: seq<Record>) {
    forall r :: r in records ==> ValidMetadata(r.metadata)
  }

  lemma SameOrCollide(h: TextHash, x: Record, y: Record, texts: set<string>)
    requires ComputeHash(h, x) == ComputeHash(h, y) && Canonical(x) in texts && Canonical(y) in texts
    requires ValidMetadata(x.metadata) && ValidMetadata(y.metadata)
    ensures SameText(x, y) || TextCollision(h, texts)
  {
    hide Canonical, ValidMetadata;
    if Canonical(x) == Canonical(y) {
      CanonicalDetermines(x, y);
    }
  }

  lemma SameTextLinks()
    ensures forall x, y :: SameText(x, y) ==> PrevOf(x) == PrevOf(y) && SeqOf(x) == SeqOf(y)
  {
  }

  /** Two chains with the same tip have the same length and the same canonical
      text, seq, link and metadata record by record, or two hashed texts collide;
      free strings may contain anything. */
  lemma TipDetermines(h: TextHash, a: seq<Record>, b: seq<Record>)
    requires IsChain(h, a) && IsChain(h, b) && a != [] && b != [] && Tip(a) == Tip(b)
    requires MetadataChecked(a) && MetadataChecked(b)
    ensures (|a| == |b| && forall i :: 0 <= i < |a| ==> SameText(a[i], b[i])) ||
            TextCollision(h, HashedTexts(a) + HashedTexts(b))
  {
    hide Canonical, SameText, ValidMetadata, TextCollision;
    var texts := HashedTexts(a) + HashedTexts(b);
    if !TextCollision(h, texts) {
      forall x, y | x in a && y in b && HashOf(x) == HashOf(y) ensures SameText(x, y) {
        assert Canonical(x) in texts && Canonical(y) in texts;
        SameOrCollide(h, x, y, texts);
      }
      SameTextLinks();
      TipCommits(HashOf, PrevOf, SeqOf, SameText, GENESIS_HASH, a, b);
    }
  }

  /** The tip of a chain of unambiguous records without newlines determines every
      field: whatever chain of accepted records has that tip shows the same. */
  lemma TipDeterminesFields(h: TextHash, a: seq<Record>, b: seq<Record>)
    requires IsChain(h, a) && IsChain(h, b) && a != [] && b != [] && Tip(a) == Tip(b)
    requires MetadataChecked(a) && MetadataChecked(b)
    requires forall r :: r in a ==> LineRecord(r) && IsUnambiguous(r)
    ensures (|a| == |b| && forall i :: 0 <= i < |a| ==> Visible(a[i]) == Visible(b[i])) ||
            TextCollision(h, HashedTexts(a) + HashedTexts(b))
  {
    hide Canonical, Visible, LineRecord, IsUnambiguous, ValidMetadata, TextCollision;
    TipDetermines(h, a, b);
    if !TextCollision(h, HashedTexts(a) + HashedTexts(b)) {
      forall i | 0 <= i < |a| ensures Visible(a[i]) == Visible(b[i]) {
        assert SameText(a[i], b[i]) && a[i] in a && b[i] in b;
        OneSided(a[i], b[i]);
      }
    }
  }

  /** A chain with an ambiguous record does not: another chain, of the same length and
      with the same hashes, shows something else there. */
  lemma AmbiguousChainHasTwin(h: TextHash, a: seq<Record>, n: nat)
    requires IsChain(h, a) && MetadataChecked(a) && n < |a| && !IsUnambiguous(a[n])
    ensures exists b :: IsTwinChain(h, a, b, n)
  {
    hide Canonical, Visible, IsUnambiguous, ValidMetadata;
    var q := Twin(a[n]);
    var b := a[n := q];
    assert ComputeHash(h, q) == ComputeHash(h, a[n]);
    forall i | 0 <= i < |b|
      ensures LinkedAt(HashOf, PrevOf, SeqOf, GENESIS_HASH, b, i) && b[i].recordHash == ComputeHash(h, b[i])
    {
      assert LinkedAt(HashOf, PrevOf, SeqOf, GENESIS_HASH, a, i);
    }
    forall r | r in b ensures ValidMetadata(r.metadata) {
      assert a[n] in a;
    }
    assert IsTwinChain(h, a, b, n);
  }

  /** `b` is accepted with the same hash at every place, and differs in what record
      `n` shows. */
  ghost predicate IsTwinChain(h: TextHash, a: seq<Record>, b: seq<Record>, n: nat) {
    && IsChain(h, b) && MetadataChecked(b) && |b| == |a| && n < |a| && Visible(b[n]) != Visible(a[n])
    && forall i :: 0 <= i < |a| ==> b[i].recordHash == a[i].recordHash && Canonical(b[i]) == Canonical(a[i])
  }

  ghost predicate SameVisible(a: seq<Record>, b: seq<Record>) {
    |a| == |b| && forall i :: 0 <= i < |a| ==> Visible(a[i]) == Visible(b[i])
  }

  /** Every accepted chain with this tip shows the same, collisions aside. */
  ghost predicate TipSuffices(h: TextHash, a: seq<Record>) {
    forall b ::
      && IsChain(h, b) && MetadataChecked(b) && b != [] && Tip(b) == Tip(a)
      && !TextCollision(h, HashedTexts(a) + HashedTexts(b))
      ==> SameVisible(a, b)
  }

  lemma TwinHasTip(h: TextHash, a: seq<Record>, b: seq<Record>, n: nat)
    requires IsTwinChain(h, a, b, n)
    ensures b != [] && Tip(b) == Tip(a) && HashedTexts(a) + HashedTexts(b) == HashedTexts(a) && !SameVisible(a, b)
  {
    hide Canonical, Visible;
    forall t | t in HashedTexts(b) ensures t in HashedTexts(a) {
      var i :| 0 <= i < |b| && t == Canonical(b[i]);
      assert t == Canonical(a[i]);
    }
  }

  /** The tip determines every field exactly of the chains of unambiguous records. */
  lemma TipDeterminesExactly(h: TextHash, a: seq<Record>)
    requires IsChain(h, a) && MetadataChecked(a) && a != [] && !TextCollision(h, HashedTexts(a))
    requires forall r :: r in a ==> LineRecord(r)
    ensures TipSuffices(h, a) <==> forall r :: r in a ==> IsUnambiguous(r)
  {
    hide IsChain, MetadataChecked, Tip, HashedTexts, TextCollision, SameVisible, IsUnambiguous, LineRecord, IsTwinChain;
    if forall r :: r in a ==> IsUnambiguous(r) {
      forall b | IsChain(h, b) && MetadataChecked(b) && b != [] && Tip(b) == Tip(a)
          && !TextCollision(h, HashedTexts(a) + HashedTexts(b))
        ensures SameVisible(a, b)
      {
        TipDeterminesFields(h, a, b);
        ShowSame(a, b);
      }
    } else {
      var n :| 0 <= n < |a| && !IsUnambiguous(a[n]);
      AmbiguousChainHasTwin(h, a, n);
      var b :| IsTwinChain(h, a, b, n);
      TwinHasTip(h, a, b, n);
      TwinAccepted(h, a, b, n);
    }
  }

  lemma ShowSame(a: seq<Record>, b: seq<Record>)
    requires |a| == |b| && forall i :: 0 <= i < |a| ==> Visible(a[i]) == Visible(b[i])
    ensures SameVisible(a, b)
  {
  }

  lemma TwinAccepted(h: TextHash, a: seq<Record>, b: seq<Record>, n: nat)
    requires IsTwinChain(h, a, b, n)
    ensures IsChain(h, b) && MetadataChecked(b)
  {
  }

  /** Between two chains whose free strings hold no delimiter the tip determines every
      field as well, with any number of detections and actions. */
  lemma TipDeterminesPlainFields(h: TextHash, a: seq<Record>, b: seq<Record>)
    requires IsChain(h, a) && IsChain(h, b) && a != [] && b != [] && Tip(a) == Tip(b)
    requires MetadataChecked(a) && MetadataChecked(b)
    requires (forall r :: r in a ==> PlainRecord(r)) && (forall r :: r in b ==> PlainRecord(r))
    ensures (|a| == |b| && forall i :: 0 <= i < |a| ==> Visible(a[i]) == Visible(b[i])) ||
            TextCollision(h, HashedTexts(a) + HashedTexts(b))
  {
    hide Canonical, Visible, PlainRecord, ValidMetadata, TextCollision;
    TipDetermines(h, a, b);
    if !TextCollision(h, HashedTexts(a) + HashedTexts(b)) {
      forall i | 0 <= i < |a| ensures Visible(a[i]) == Visible(b[i]) {
        assert SameText(a[i], b[i]) && a[i] in a && b[i] in b;
        CanonicalInjective(a[i], b[i]);
      }
    }
  }
}
