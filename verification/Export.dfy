/** The exported bundle: sealing its records under a signed batch head, attaching
    receipts, and keeping the signed manifest in step. The signer's algorithm,
    clock readings and the `ts` line of a canonical text are parameters. */
module Export {
  import opened Text
  import opened Lists
  import opened Merkle
  import opened HexText

  datatype BundleRecord = BundleRecord(seqNo: nat, tenantId: string, canonicalBytes: string, recordHash: string,
                                       prevHash: string)

  datatype Signature = Signature(keyId: string, algorithm: string, value: string)

  datatype BatchHead = BatchHead(
    batchId: string, firstSeq: nat, lastSeq: nat, merkleRoot: string, algorithm: string, signedTime: Option<string>,
    signature: Signature)

  datatype SignerKey = SignerKey(keyId: string, algorithm: string, publicKey: string)

  datatype StepRef = StepRef(position: string, hash: string)

  datatype ProofRef = ProofRef(batchId: string, leafIndex: nat, totalLeaves: nat, steps: seq<StepRef>)

  datatype PolicyPackRef = PolicyPackRef(packId: string, packVersion: string, activeFrom: string,
                                         activeUntil: Option<string>)

  /** A receipt as the bundle holds it; `rest` is what the manifest does not name. */
  datatype ReceiptRef =
    | Tsa(batchId: string, backendRef: string, rest: string)
    | Log(batchId: string, logIndex: nat, rest: string)
    | Rfc3161(batchId: string, nonce: string, rest: string)
    | Rekor(batchId: string, entryUuid: string, rest: string)

  /** A receipt as an external authority gives it. */
  datatype ExternalReceipt =
    | ExternalRfc3161(batchId: string, nonce: string, rest: string)
    | ExternalRekor(batchId: string, entryUuid: string, rest: string)

  datatype Manifest = Manifest(
    bundleId: string, rangeStart: string, rangeEnd: string, recordCount: nat, firstSeq: nat, lastSeq: nat,
    batchHeadIds: seq<string>, anchorReceiptRefs: seq<string>, policyPackVersions: seq<string>, operator: string,
    createdAt: string, chainTip: Option<string>, signature: Signature)

  /** The signing key: what it signs is the manifest or head without its signature. */
  datatype Signer = Signer(algorithm: string, publicKey: string, signManifest: Manifest -> string,
                           signHead: BatchHead -> string)

  datatype Stamp = NoTs | Unreadable | Seconds(at: int)

  datatype ExportError =
    | NoManifest | UnknownOperator(operator: string) | WrongKey(operator: string) | AlreadySealed | NoRecords
    | SeqBreaks(seqNo: nat) | MissingTs(seqNo: nat) | UnreadableTs(seqNo: nat) | StampedLater(seqNo: nat)
    | BadHash(seqNo: nat) | UnknownBatch(batchId: string)

  datatype State = State(
    tenantId: string, createdAt: string, rangeStart: Option<string>, rangeEnd: Option<string>,
      records: seq<BundleRecord>,
    inclusionProofs: seq<Option<ProofRef>>, batchHeads: seq<BatchHead>, signerKeys: seq<SignerKey>,
    anchorReceipts: seq<ReceiptRef>, manifest: Option<Manifest>, policyPacks: seq<PolicyPackRef>)

  // ----- the manifest -----

  const GENESIS_TIP := "0000000000000000000000000000000000000000000000000000000000000000"

  function HeadId(head: BatchHead): string { head.batchId }

  function PackVersion(p: PolicyPackRef): string { p.packVersion }

  function RefText(r: ReceiptRef): string {
    match r
    case Tsa(id, backend, _) => "tsa:" + id + ":" + backend
    case Log(id, index, _) => "log:" + id + ":" + Decimal(index)
    case Rfc3161(id, nonce, _) => "rfc3161:" + id + ":" + nonce
    case Rekor(id, uuid, _) => "rekor:" + id + ":" + uuid
  }

  const NO_SIGNATURE := Signature("", "", "")

  /** The manifest lists exactly what the bundle holds, and is signed by `signer`. */
  ghost predicate Describes(m: Manifest, s: State, signer: Signer) {
    && m.recordCount == |s.records|
    && m.firstSeq == (if s.records == [] then 0 else s.records[0].seqNo)
    && m.lastSeq == (if s.records == [] then 0 else s.records[|s.records| - 1].seqNo)
    && m.chainTip == Some(if s.records == [] then GENESIS_TIP else s.records[|s.records| - 1].recordHash)
    && m.batchHeadIds == Map(HeadId, s.batchHeads)
    && m.anchorReceiptRefs == Map(RefText, s.anchorReceipts)
    && m.policyPackVersions == Map(PackVersion, s.policyPacks)
    && m.signature == Signature(m.operator, signer.algorithm, signer.signManifest(m.(signature := NO_SIGNATURE)))
  }

  ghost predicate InSync(s: State, signer: Signer) {
    s.manifest.Some? && Describes(s.manifest.value, s, signer)
  }

  /** What stops `signer` from acting as the bundle's operator. */
  function OperatorError(s: State, signer: Signer): Option<ExportError> {
    if s.manifest.None? then Some(NoManifest)
    else
      var operator := s.manifest.value.operator;
      var declared := Find(HasKeyId(operator), s.signerKeys);
      if declared == [] then Some(UnknownOperator(operator))
      else if declared[0].publicKey != signer.publicKey || declared[0].algorithm != signer.algorithm
        then Some(WrongKey(operator))
      else None
  }

  function HasKeyId(id: string): SignerKey -> bool {
    (k: SignerKey) => k.keyId == id
  }

  // ----- sealing -----

  /** What stops record `i` from being sealed in a batch that starts at `first`. */
  function RecordError(first: nat, i: nat, r: BundleRecord, stamp: string -> Stamp,
                       sealTime: int): Option<ExportError> {
    if r.seqNo != first + i then Some(SeqBreaks(r.seqNo))
    else
      match stamp(r.canonicalBytes)
      case NoTs => Some(MissingTs(r.seqNo))
      case Unreadable => Some(UnreadableTs(r.seqNo))
      case Seconds(at) =>
        if at > sealTime then Some(StampedLater(r.seqNo))
        else if ReadHash(r.recordHash).None? then Some(BadHash(r.seqNo))
        else None
  }

  function FirstRecordError(records: seq<BundleRecord>, n: nat, stamp: string -> Stamp,
                            sealTime: int): Option<ExportError>
    requires n <= |records|
  {
    if n == 0 then None
    else
      var before := FirstRecordError(records, n - 1, stamp, sealTime);
      if before.Some? then before else RecordError(records[0].seqNo, n - 1, records[n - 1], stamp, sealTime)
  }

  function SealError(s: State, signer: Signer, stamp: string -> Stamp, sealTime: int): Option<ExportError> {
    var operator := OperatorError(s, signer);
    if operator.Some? then operator
    else if s.batchHeads != [] || s.anchorReceipts != [] then Some(AlreadySealed)
    else if s.records == [] then Some(NoRecords)
    else FirstRecordError(s.records, |s.records|, stamp, sealTime)
  }

  lemma {:induction false} NoRecordError(records: seq<BundleRecord>, n: nat, stamp: string -> Stamp, sealTime: int,
                                         i: nat)
    requires i < n <= |records| && FirstRecordError(records, n, stamp, sealTime).None?
    ensures RecordError(records[0].seqNo, i, records[i], stamp, sealTime).None?
  {
    hide RecordError;
    if i < n - 1 {
      NoRecordError(records, n - 1, stamp, sealTime, i);
    }
  }

  /** What sealing asks of record `i` of a batch that starts at `first`. */
  predicate IsSealable(first: nat, i: nat, r: BundleRecord, stamp: string -> Stamp, sealTime: int) {
    && r.seqNo - first == i
    && stamp(r.canonicalBytes).Seconds? && stamp(r.canonicalBytes).at <= sealTime
    && |r.recordHash| == 64 && forall j :: 0 <= j < 64 ==> IsHexChar(r.recordHash[j])
  }

  lemma SealableIs(first: nat, i: nat, r: BundleRecord, stamp: string -> Stamp, sealTime: int)
    ensures RecordError(first, i, r, stamp, sealTime).None? <==> IsSealable(first, i, r, stamp, sealTime)
  {
    HexExactly(r.recordHash);
    hide DecodeStrict, IsHexChar;
  }

  lemma {:induction false} FirstErrorIs(records: seq<BundleRecord>, n: nat, stamp: string -> Stamp, sealTime: int)
    requires 0 < n <= |records|
    ensures var e := FirstRecordError(records, n, stamp, sealTime);
            && (e.None? <==> forall i :: 0 <= i < n ==> IsSealable(records[0].seqNo, i, records[i], stamp, sealTime))
            && (e.Some? ==> exists k :: 0 <= k < n && IsFirstFault(records, k, stamp, sealTime)
                                        && e == RecordError(records[0].seqNo, k, records[k], stamp, sealTime))
  {
    hide RecordError, IsSealable;
    SealableIs(records[0].seqNo, n - 1, records[n - 1], stamp, sealTime);
    if n > 1 {
      FirstErrorIs(records, n - 1, stamp, sealTime);
    }
    if FirstRecordError(records, n - 1, stamp, sealTime).None? && FirstRecordError(records, n, stamp, sealTime).Some? {
      assert IsFirstFault(records, n - 1, stamp, sealTime);
    }
  }

  /** Record `k` is the first that sealing refuses. */
  ghost predicate IsFirstFault(records: seq<BundleRecord>, k: nat, stamp: string -> Stamp, sealTime: int)
    requires k < |records|
  {
    && !IsSealable(records[0].seqNo, k, records[k], stamp, sealTime)
    && forall i :: 0 <= i < k ==> IsSealable(records[0].seqNo, i, records[i], stamp, sealTime)
  }

  /** The first key declared under the operator's id is the signer's. */
  predicate SignsFor(s: State, operator: string, signer: Signer) {
    exists i :: 0 <= i < |s.signerKeys| && IsFirstNamed(s.signerKeys, operator, i)
      && s.signerKeys[i].publicKey == signer.publicKey && s.signerKeys[i].algorithm == signer.algorithm
  }

  predicate IsFirstNamed(keys: seq<SignerKey>, id: string, i: nat)
    requires i < |keys|
  {
    keys[i].keyId == id && forall j :: 0 <= j < i ==> keys[j].keyId != id
  }

  lemma {:induction false} FoundFirst(keys: seq<SignerKey>, id: string, i: nat)
    requires i < |keys| && IsFirstNamed(keys, id, i)
    ensures Find(HasKeyId(id), keys) == [keys[i]]
  {
    if i > 0 {
      FoundFirst(keys[1..], id, i - 1);
    }
  }

  lemma {:induction false} FirstNamedExists(keys: seq<SignerKey>, id: string) returns (i: nat)
    requires exists k :: k in keys && k.keyId == id
    ensures i < |keys| && IsFirstNamed(keys, id, i)
  {
    if keys[0].keyId == id {
      i := 0;
    } else {
      i := FirstNamedExists(keys[1..], id);
      i := i + 1;
    }
  }

  lemma OperatorIs(s: State, signer: Signer)
    ensures OperatorError(s, signer).None? <==> s.manifest.Some? && SignsFor(s, s.manifest.value.operator, signer)
  {
    hide Find, IsFirstNamed;
    if s.manifest.Some? {
      var id := s.manifest.value.operator;
      if exists k :: k in s.signerKeys && k.keyId == id {
        var i := FirstNamedExists(s.signerKeys, id);
      }
      forall i | 0 <= i < |s.signerKeys| && IsFirstNamed(s.signerKeys, id, i)
        ensures Find(HasKeyId(id), s.signerKeys) == [s.signerKeys[i]]
      {
        FoundFirst(s.signerKeys, id, i);
      }
    }
  }

  /** A bundle can be sealed exactly when its operator's key is the signer's, nothing was
      sealed or anchored before, and it has records, which are numbered without a gap,
      stamped no later than the sealing, and carry 64 hexadecimal digits each. */
  lemma SealsExactly(s: State, signer: Signer, stamp: string -> Stamp, sealTime: int)
    ensures SealError(s, signer, stamp, sealTime).None? <==>
            && s.manifest.Some? && SignsFor(s, s.manifest.value.operator, signer)
            && s.batchHeads == [] && s.anchorReceipts == [] && s.records != []
            && forall i :: 0 <= i < |s.records| ==>
                 IsSealable(s.records[0].seqNo, i, s.records[i], stamp, sealTime)
  {
    hide OperatorError, FirstRecordError, IsSealable, SignsFor;
    OperatorIs(s, signer);
    if s.records != [] {
      FirstErrorIs(s.records, |s.records|, stamp, sealTime);
    }
  }

  /** The digests of records whose hashes can be read. */
  function Digests(records: seq<BundleRecord>): (d: seq<Digest>)
    ensures |d| == |records|
    ensures forall i :: 0 <= i < |d| && ReadHash(records[i].recordHash).Some? ==>
            d[i] == ReadHash(records[i].recordHash).value
  {
    if records == [] then []
    else
      var n := |records| - 1;
      var last := ReadHash(records[n].recordHash);
      Digests(records[..n]) + [if last.Some? then last.value else ZERO_DIGEST]
  }

  function StepRefOf(step: ProofStep): StepRef {
    StepRef(if step.position == Left then "left" else "right", Hex(step.hash))
  }

  /** The stored form of the proof of leaf `i`. */
  function ProofRefFor(h: Hash, batchId: string, leaves: seq<Digest>, i: nat): Option<ProofRef>
    requires i < |leaves|
  {
    Some(ProofRef(batchId, i, |leaves|, Map(StepRefOf, PathOf(h, leaves, i))))
  }

  lemma NoneRead(records: seq<BundleRecord>, stamp: string -> Stamp, sealTime: int)
    ensures FirstRecordError(records, 0, stamp, sealTime).None? && Digests(records[..0]) == []
  {
  }

  lemma OneMoreRead(records: seq<BundleRecord>, i: nat, stamp: string -> Stamp, sealTime: int)
    requires i < |records| && FirstRecordError(records, i, stamp, sealTime).None?
    ensures FirstRecordError(records, i + 1, stamp, sealTime)
            == RecordError(records[0].seqNo, i, records[i], stamp, sealTime)
    ensures ReadHash(records[i].recordHash).Some? ==>
              Digests(records[..i + 1]) == Digests(records[..i]) + [ReadHash(records[i].recordHash).value]
  {
    hide ReadHash, RecordError;
    assert records[..i + 1][..i] == records[..i];
  }

  lemma ProofRefIs(h: Hash, batchId: string, leaves: seq<Digest>, i: nat)
    requires i < |leaves|
    ensures ProofRefFor(h, batchId, leaves, i)
            == Some(ProofRef(batchId, i, |leaves|, Map(StepRefOf, PathOf(h, leaves, i))))
  {
  }

  function HeadFor(h: Hash, signer: Signer, operator: string, records: seq<BundleRecord>, batchId: string,
                   signedTime: string): BatchHead
    requires records != []
  {
    var head := BatchHead(batchId, records[0].seqNo, records[|records| - 1].seqNo, Hex(RootOf(h, Digests(records))),
                          signer.algorithm, Some(signedTime), Signature(operator, signer.algorithm, ""));
    head.(signature := Signature(operator, signer.algorithm, signer.signHead(head)))
  }

  predicate HasHead(heads: seq<BatchHead>, batchId: string) {
    exists head :: head in heads && head.batchId == batchId
  }

  function AsRef(r: ExternalReceipt): ReceiptRef {
    match r
    case ExternalRfc3161(id, nonce, rest) => Rfc3161(id, nonce, rest)
    case ExternalRekor(id, uuid, rest) => Rekor(id, uuid, rest)
  }

  /** The manifest may be re-signed; its bundle id, range and operator stay. */
  ghost predicate SameBundle(s: State, t: State) {
    && s.manifest.Some? && t.manifest.Some? && t.manifest.value.bundleId == s.manifest.value.bundleId
    && t.manifest.value.operator == s.manifest.value.operator
    && t.manifest.value.rangeStart == s.manifest.value.rangeStart
    && t.manifest.value.rangeEnd == s.manifest.value.rangeEnd
  }

  /** What `SealBatch` promises of the bundle before and after: one head over every
      record and a proof for each, or the first error and no change. */
  ghost predicate IsSealing(h: Hash, signer: Signer, batchId: string, sealTime: int, signedTime: string,
                            stamp: string -> Stamp, s: State, t: State, result: Result<BatchHead, ExportError>) {
    match result
    case Err(error) => SealError(s, signer, stamp, sealTime) == Some(error) && t == s
    case Ok(head) =>
      && SealError(s, signer, stamp, sealTime).None? && InSync(t, signer)
      && t == s.(inclusionProofs := t.inclusionProofs, batchHeads := [head], manifest := t.manifest)
      && SameBundle(s, t) && s.records != []
      && head == HeadFor(h, signer, s.manifest.value.operator, s.records, batchId, signedTime)
      && Sealed(h, t)
  }

  ghost predicate IsFirstUnknown(heads: seq<BatchHead>, receipts: seq<ExternalReceipt>, k: nat)
    requires k < |receipts|
  {
    !HasHead(heads, receipts[k].batchId) && forall j :: 0 <= j < k ==> HasHead(heads, receipts[j].batchId)
  }

  /** What `AttachReceipts` promises of the bundle before and after: all receipts and
      a manifest in step, or no change, or the receipts before the first one for an
      unknown batch and the old manifest. */
  ghost predicate IsAttaching(signer: Signer, receipts: seq<ExternalReceipt>, s: State, t: State,
                              result: Result<(), ExportError>) {
    match result
    case Ok(_) =>
      && OperatorError(s, signer).None? && (forall r :: r in receipts ==> HasHead(s.batchHeads, r.batchId))
      && InSync(t, signer) && SameBundle(s, t)
      && t == s.(anchorReceipts := s.anchorReceipts + Map(AsRef, receipts), manifest := t.manifest)
    case Err(error) =>
      if OperatorError(s, signer).Some? then OperatorError(s, signer) == Some(error) && t == s
      else
        exists k :: 0 <= k < |receipts| && IsFirstUnknown(s.batchHeads, receipts, k)
          && error == UnknownBatch(receipts[k].batchId)
          && t == s.(anchorReceipts := s.anchorReceipts + Map(AsRef, receipts[..k]))
  }

  class Bundle {
    const tenantId: string
    const createdAt: string
    var rangeStart: Option<string>
    var rangeEnd: Option<string>
    var records: seq<BundleRecord>
    var inclusionProofs: seq<Option<ProofRef>>
    var batchHeads: seq<BatchHead>
    var signerKeys: seq<SignerKey>
    var anchorReceipts: seq<ReceiptRef>
    var manifest: Option<Manifest>
    var policyPacks: seq<PolicyPackRef>

    function Contents(): State
      reads this
    {
      State(tenantId, createdAt, rangeStart, rangeEnd, records, inclusionProofs, batchHeads, signerKeys, anchorReceipts,
            manifest, policyPacks)
    }

    /** A freshly exported bundle; the range is absent when no dates were asked for. */
    constructor (tenantId: string, records: seq<BundleRecord>, rangeStart: Option<string>, rangeEnd: Option<string>,
                 signer: Signer, bundleId: string, now: string)
      ensures InSync(Contents(), signer) && OperatorError(Contents(), signer).None?
      ensures this.records == records && this.rangeStart == rangeStart && this.rangeEnd == rangeEnd
      ensures batchHeads == [] && anchorReceipts == [] && inclusionProofs == [] && manifest.value.bundleId == bundleId
    {
      this.tenantId, this.createdAt, this.rangeStart, this.rangeEnd, this.records := tenantId, now, rangeStart,
        rangeEnd, records;
      inclusionProofs, batchHeads, anchorReceipts, policyPacks := [], [], [], [];
      signerKeys := [SignerKey("default", signer.algorithm, signer.publicKey)];
      manifest := None;
      new;
      var m := BuildManifest("default", signer, bundleId, now);
      manifest := Some(m);
    }

    method BuildManifest(operator: string, signer: Signer, bundleId: string, now: string) returns (m: Manifest)
      ensures Describes(m, Contents(), signer) && m.bundleId == bundleId && m.operator == operator
      ensures m.rangeStart == (if rangeStart.Some? then rangeStart.value else now)
      ensures m.rangeEnd == (if rangeEnd.Some? then rangeEnd.value else now)
    {
      hide RefText;
      var n := |records|;
      m := Manifest(
        bundleId,
        if rangeStart.Some? then rangeStart.value else now,
        if rangeEnd.Some? then rangeEnd.value else now,
        n,
        if n == 0 then 0 else records[0].seqNo,
        if n == 0 then 0 else records[n - 1].seqNo,
        Map(HeadId, batchHeads),
        Map(RefText, anchorReceipts),
        Map(PackVersion, policyPacks),
        operator,
        now,
        Some(if n == 0 then GENESIS_TIP else records[n - 1].recordHash),
        NO_SIGNATURE);
      m := m.(signature := Signature(operator, signer.algorithm, signer.signManifest(m)));
    }

    method CheckOperator(signer: Signer) returns (result: Result<string, ExportError>)
      ensures result.Err? <==> OperatorError(Contents(), signer).Some?
      ensures result.Err? ==> OperatorError(Contents(), signer) == Some(result.error)
      ensures result.Ok? ==> manifest.Some? && result.value == manifest.value.operator
    {
      if manifest.None? {
        return Err(NoManifest);
      }
      var operator := manifest.value.operator;
      var declared := Find(HasKeyId(operator), signerKeys);
      if declared == [] {
        return Err(UnknownOperator(operator));
      }
      if declared[0].publicKey != signer.publicKey || declared[0].algorithm != signer.algorithm {
        return Err(WrongKey(operator));
      }
      result := Ok(operator);
    }

    /** Re-sign the manifest, keeping its bundle id and range. */
    method ResealManifest(signer: Signer, operator: string, now: string) returns (ok: bool)
      modifies this
      ensures ok == old(manifest).Some?
      ensures Contents() == old(Contents()).(manifest := manifest)
      ensures ok ==> InSync(Contents(), signer) && manifest.value.operator == operator
                     && manifest.value.bundleId == old(manifest).value.bundleId
                     && manifest.value.rangeStart == old(manifest).value.rangeStart
                     && manifest.value.rangeEnd == old(manifest).value.rangeEnd
    {
      if manifest.None? {
        return false;
      }
      var was := manifest.value;
      manifest := None;
      var start, end := rangeStart, rangeEnd;
      rangeStart, rangeEnd := Some(was.rangeStart), Some(was.rangeEnd);
      var m := BuildManifest(operator, signer, was.bundleId, now);
      rangeStart, rangeEnd := start, end;
      manifest := Some(m);
      ok := true;
    }

    /** Seal every record under one signed head, with a proof for each. */
    method SealBatch(h: Hash, signer: Signer, batchId: string, sealTime: int, signedTime: string,
                     stamp: string -> Stamp, now: string)
      returns (result: Result<BatchHead, ExportError>)
      modifies this
      ensures IsSealing(h, signer, batchId, sealTime, signedTime, stamp, old(Contents()), Contents(), result)
    {
      hide SealError, HeadFor, Sealed, InSync, Digests, RootOf, ProofRefFor, Hex, FirstRecordError, OperatorError,
        Describes, Levels;
      var leaves := CheckSealable(signer, stamp, sealTime);
      if leaves.Err? {
        return Err(leaves.error);
      }
      SealableState(Contents(), signer, stamp, sealTime);
      var operator := manifest.value.operator;
      var root, proofs := ProveAll(h, batchId, leaves.value);
      var head := BatchHead(batchId, records[0].seqNo, records[|records| - 1].seqNo, Hex(root), signer.algorithm,
                            Some(signedTime), Signature(operator, signer.algorithm, ""));
      head := head.(signature := Signature(operator, signer.algorithm, signer.signHead(head)));
      HeadIs(h, signer, operator, records, batchId, signedTime, head);
      ghost var before := Contents();
      inclusionProofs := proofs;
      batchHeads := batchHeads + [head];
      Filled(before, Contents(), proofs, head);
      SealedIs(h, Contents(), head);
      ghost var filled := Contents();
      var _ := ResealManifest(signer, operator, now);
      SealedFrame(h, filled, Contents());
      result := Ok(head);
    }

    method CheckSealable(signer: Signer, stamp: string -> Stamp, sealTime: int)
      returns (leaves: Result<seq<Digest>, ExportError>)
      ensures leaves.Err? <==> SealError(Contents(), signer, stamp, sealTime).Some?
      ensures leaves.Err? ==> SealError(Contents(), signer, stamp, sealTime) == Some(leaves.error)
      ensures leaves.Ok? ==> leaves.value == Digests(records)
    {
      hide FirstRecordError, OperatorError, Digests;
      var checked := CheckOperator(signer);
      if checked.Err? {
        return Err(checked.error);
      }
      if batchHeads != [] || anchorReceipts != [] {
        return Err(AlreadySealed);
      }
      if records == [] {
        return Err(NoRecords);
      }
      leaves := ReadLeaves(stamp, sealTime);
    }

    /** The root over these leaves, and the stored form of every leaf's proof. */
    static method ProveAll(h: Hash, batchId: string, leaves: seq<Digest>)
      returns (root: Digest, proofs: seq<Option<ProofRef>>)
      requires leaves != []
      ensures root == RootOf(h, leaves)
      ensures |proofs| == |leaves| && forall i :: 0 <= i < |leaves| ==> proofs[i] == ProofRefFor(h, batchId, leaves, i)
    {
      hide Levels, PathOf;
      var tree := MerkleTree.FromHashedLeaves(h, leaves);
      LevelsStart(h, leaves);
      root, proofs := tree.Root(), [];
      for i := 0 to |leaves|
        invariant |proofs| == i && forall j :: 0 <= j < i ==> proofs[j] == ProofRefFor(h, batchId, leaves, j)
      {
        hide Map, RootOf, ProofRefFor, MerkleTree.Valid;
        var p := tree.InclusionProofFor(h, i);
        ProofRefIs(h, batchId, leaves, i);
        proofs := proofs + [Some(ProofRef(batchId, i, |leaves|, Map(StepRefOf, p.steps)))];
      }
    }

    method ReadLeaves(stamp: string -> Stamp, sealTime: int) returns (leaves: Result<seq<Digest>, ExportError>)
      requires records != []
      ensures leaves.Err? <==> FirstRecordError(records, |records|, stamp, sealTime).Some?
      ensures leaves.Err? ==> FirstRecordError(records, |records|, stamp, sealTime) == Some(leaves.error)
      ensures leaves.Ok? ==> leaves.value == Digests(records)
    {
      hide ReadHash, Digests, FirstRecordError;
      var read := [];
      NoneRead(records, stamp, sealTime);
      for i := 0 to |records|
        invariant FirstRecordError(records, i, stamp, sealTime).None?
        invariant read == Digests(records[..i])
      {
        var r := records[i];
        OneMoreRead(records, i, stamp, sealTime);
        if RecordError(records[0].seqNo, i, r, stamp, sealTime).Some? {
          FirstStays(records, i + 1, |records|, stamp, sealTime);
        }
        if r.seqNo != records[0].seqNo + i {
          return Err(SeqBreaks(r.seqNo));
        }
        match stamp(r.canonicalBytes) {
          case NoTs => return Err(MissingTs(r.seqNo));
          case Unreadable => return Err(UnreadableTs(r.seqNo));
          case Seconds(at) =>
            if at > sealTime {
              return Err(StampedLater(r.seqNo));
            }
        }
        var leaf := ReadHash(r.recordHash);
        if leaf.None? {
          return Err(BadHash(r.seqNo));
        }
        read := read + [leaf.value];
      }
      assert records[..|records|] == records;
      leaves := Ok(read);
    }

    /** Attach receipts for heads in the bundle. At the first receipt for another
        batch the receipts before it stay attached and the manifest is left alone. */
    method AttachReceipts(receipts: seq<ExternalReceipt>, signer: Signer, now: string)
      returns (result: Result<(), ExportError>)
      modifies this
      ensures IsAttaching(signer, receipts, old(Contents()), Contents(), result)
    {
      hide InSync, OperatorError, HasHead, AsRef, Map, IsAttaching;
      ghost var s := Contents();
      var checked := CheckOperator(signer);
      if checked.Err? {
        AttachRefused(signer, receipts, s, checked.error);
        return Err(checked.error);
      }
      NoneAttached(s, receipts);
      for k := 0 to |receipts|
        invariant forall j :: 0 <= j < k ==> HasHead(old(batchHeads), receipts[j].batchId)
        invariant Contents() == old(Contents()).(anchorReceipts := old(anchorReceipts) + Map(AsRef, receipts[..k]))
      {
        if !HasHead(batchHeads, receipts[k].batchId) {
          AttachStops(signer, receipts, s, Contents(), k);
          return Err(UnknownBatch(receipts[k].batchId));
        }
        MapNext(AsRef, receipts, k);
        anchorReceipts := anchorReceipts + [AsRef(receipts[k])];
      }
      var _ := ResealManifest(signer, checked.value, now);
      AttachDone(signer, receipts, s, Contents());
      result := Ok(());
    }
  }

  lemma NoneAttached(s: State, receipts: seq<ExternalReceipt>)
    ensures s == s.(anchorReceipts := s.anchorReceipts + Map(AsRef, receipts[..0]))
  {
  }

  lemma AttachRefused(signer: Signer, receipts: seq<ExternalReceipt>, s: State, error: ExportError)
    requires OperatorError(s, signer) == Some(error)
    ensures IsAttaching(signer, receipts, s, s, Err(error))
  {
    hide OperatorError;
  }

  lemma AttachStops(signer: Signer, receipts: seq<ExternalReceipt>, s: State, t: State, k: nat)
    requires k < |receipts| && OperatorError(s, signer).None? && IsFirstUnknown(s.batchHeads, receipts, k)
    requires t == s.(anchorReceipts := s.anchorReceipts + Map(AsRef, receipts[..k]))
    ensures IsAttaching(signer, receipts, s, t, Err(UnknownBatch(receipts[k].batchId)))
  {
    hide OperatorError, HasHead;
  }

  lemma AttachDone(signer: Signer, receipts: seq<ExternalReceipt>, s: State, t: State)
    requires OperatorError(s, signer).None?
    requires forall j :: 0 <= j < |receipts| ==> HasHead(s.batchHeads, receipts[j].batchId)
    requires InSync(t, signer) && SameBundle(s, t)
    requires t == s.(anchorReceipts := s.anchorReceipts + Map(AsRef, receipts[..|receipts|]), manifest := t.manifest)
    ensures IsAttaching(signer, receipts, s, t, Ok(()))
  {
    hide OperatorError, HasHead, InSync;
    assert receipts[..|receipts|] == receipts;
  }

  lemma {:induction false} FirstStays(records: seq<BundleRecord>, m: nat, n: nat, stamp: string -> Stamp, sealTime: int)
    requires m <= n <= |records| && FirstRecordError(records, m, stamp, sealTime).Some?
    ensures FirstRecordError(records, n, stamp, sealTime) == FirstRecordError(records, m, stamp, sealTime)
  {
    hide RecordError;
    if m < n {
      FirstStays(records, m, n - 1, stamp, sealTime);
    }
  }

  lemma SealableState(s: State, signer: Signer, stamp: string -> Stamp, sealTime: int)
    requires SealError(s, signer, stamp, sealTime).None?
    ensures s.manifest.Some? && s.records != [] && s.batchHeads == []
  {
    hide FirstRecordError;
  }

  lemma HeadIs(h: Hash, signer: Signer, operator: string, records: seq<BundleRecord>, batchId: string,
               signedTime: string, head: BatchHead)
    requires records != []
    requires var bare := BatchHead(batchId, records[0].seqNo, records[|records| - 1].seqNo,
                                   Hex(RootOf(h, Digests(records))),
                                   signer.algorithm, Some(signedTime), Signature(operator, signer.algorithm, ""));
             head == bare.(signature := Signature(operator, signer.algorithm, signer.signHead(bare)))
    ensures head == HeadFor(h, signer, operator, records, batchId, signedTime)
    ensures head.batchId == batchId && head.firstSeq == records[0].seqNo && head.lastSeq == records[|records| - 1].seqNo
    ensures head.merkleRoot == Hex(RootOf(h, Digests(records)))
  {
    hide Hex, RootOf, Digests;
  }

  lemma Filled(before: State, after: State, proofs: seq<Option<ProofRef>>, head: BatchHead)
    requires before.batchHeads == []
    requires after == before.(inclusionProofs := proofs, batchHeads := before.batchHeads + [head])
    ensures after.batchHeads == [head] && after.inclusionProofs == proofs && after.records == before.records
  {
  }

  lemma SealedIs(h: Hash, s: State, head: BatchHead)
    requires s.records != [] && s.batchHeads == [head] && |s.inclusionProofs| == |s.records|
    requires head.firstSeq == s.records[0].seqNo && head.lastSeq == s.records[|s.records| - 1].seqNo
    requires head.merkleRoot == Hex(RootOf(h, Digests(s.records)))
    requires forall i :: 0 <= i < |s.records| ==>
            s.inclusionProofs[i] == ProofRefFor(h, head.batchId, Digests(s.records), i)
    ensures Sealed(h, s)
  {
    hide Hex, RootOf, Digests, ProofRefFor;
  }

  lemma SealedFrame(h: Hash, s: State, t: State)
    requires Sealed(h, s) && t == s.(manifest := t.manifest)
    ensures Sealed(h, t)
  {
    hide Hex, RootOf, Digests, ProofRefFor;
  }

  lemma LevelsStart(h: Hash, leaves: seq<Digest>)
    requires leaves != []
    ensures Levels(h, leaves)[0] == leaves
  {
  }

  /** Receipts pushed without re-signing leave the manifest in step only if there are none. */
  lemma UnknownBatchSync(s: State, signer: Signer, pushed: seq<ReceiptRef>)
    requires InSync(s, signer)
    ensures InSync(s.(anchorReceipts := s.anchorReceipts + pushed), signer) <==> pushed == []
  {
    hide RefText;
    MapConcat(RefText, s.anchorReceipts, pushed);
    assert |Map(RefText, s.anchorReceipts + pushed)| == |s.anchorReceipts| + |pushed|;
    assert pushed == [] ==> s.anchorReceipts + pushed == s.anchorReceipts;
  }

  // ----- what the stored proofs prove -----

  /** One head over all records, and for every record a stored proof that folds
      its raw hash to the head's root. */
  ghost predicate Sealed(h: Hash, s: State) {
    && |s.batchHeads| == 1 && s.records != [] && |s.inclusionProofs| == |s.records|
    && s.batchHeads[0].firstSeq == s.records[0].seqNo && s.batchHeads[0].lastSeq == s.records[|s.records| - 1].seqNo
    && s.batchHeads[0].merkleRoot == Hex(RootOf(h, Digests(s.records)))
    && forall i :: 0 <= i < |s.records| ==>
      s.inclusionProofs[i] == ProofRefFor(h, s.batchHeads[0].batchId, Digests(s.records), i)
  }

  /** The auditor's reading of a stored step. */
  function ReadStep(r: StepRef): Option<ProofStep> {
    var hash := ParseHash(r.hash);
    if hash.None? then None
    else if r.position == "left" then Some(ProofStep(Left, hash.value))
    else if r.position == "right" then Some(ProofStep(Right, hash.value))
    else None
  }

  lemma StepReadsBack(step: ProofStep)
    ensures ReadStep(StepRefOf(step)) == Some(step)
  {
    hide Hex, ParseHash;
    ParseHex(step.hash);
  }

  /** The auditor's check of one proof: no prefix on the leaf, any malformed step refused. */
  method VerifyMerkleProof(h: Hash, leaf: Digest, proof: ProofRef, root: Digest) returns (ok: bool)
    ensures ok <==> (forall i :: 0 <= i < |proof.steps| ==> ReadStep(proof.steps[i]).Some?)
                    && Fold(h, leaf, ReadSteps(proof.steps)) == root
  {
    hide ParseHash, Fold, ApplyStep, ReadStep, ReadSteps;
    NoSteps(h, leaf, proof.steps);
    var cur := leaf;
    for i := 0 to |proof.steps|
      invariant forall j :: 0 <= j < i ==> ReadStep(proof.steps[j]).Some?
      invariant cur == Fold(h, leaf, ReadSteps(proof.steps[..i]))
    {
      var step := ReadStep(proof.steps[i]);
      if step.None? {
        return false;
      }
      ReadStepsNext(proof.steps, i);
      FoldNext(h, leaf, ReadSteps(proof.steps[..i]), step.value);
      cur := ApplyStep(h, cur, step.value);
    }
    assert proof.steps[..|proof.steps|] == proof.steps;
    ok := cur == root;
  }

  lemma NoSteps(h: Hash, leaf: Digest, refs: seq<StepRef>)
    ensures Fold(h, leaf, ReadSteps(refs[..0])) == leaf
  {
  }

  function ReadStepOr(r: StepRef): ProofStep {
    if ReadStep(r).Some? then ReadStep(r).value else ProofStep(Left, ZERO_DIGEST)
  }

  function ReadSteps(refs: seq<StepRef>): seq<ProofStep> {
    Map(ReadStepOr, refs)
  }

  lemma ReadStepsNext(refs: seq<StepRef>, i: nat)
    requires i < |refs| && ReadStep(refs[i]).Some?
    ensures ReadSteps(refs[..i + 1]) == ReadSteps(refs[..i]) + [ReadStep(refs[i]).value]
  {
    hide ReadStep;
    assert refs[..i + 1] == refs[..i] + [refs[i]];
    MapConcat(ReadStepOr, refs[..i], [refs[i]]);
  }

  lemma FoldNext(h: Hash, cur: Digest, steps: seq<ProofStep>, step: ProofStep)
    ensures Fold(h, cur, steps + [step]) == ApplyStep(h, Fold(h, cur, steps), step)
  {
    assert (steps + [step])[..|steps|] == steps;
  }

  /** The hash of record `i` as the auditor reads it is the sealed leaf. */
  lemma LeafReadsBack(s: State, stamp: string -> Stamp, sealTime: int, i: nat)
    requires i < |s.records| && FirstRecordError(s.records, |s.records|, stamp, sealTime).None?
    ensures ParseHash(s.records[i].recordHash) == Some(Digests(s.records)[i])
  {
    NoRecordError(s.records, |s.records|, stamp, sealTime, i);
    hide FirstRecordError, ParseHash, ReadHash;
    ReadIsParsed(s.records[i].recordHash);
  }

  /** Every stored proof folds the record's raw hash to the head's Merkle root. */
  lemma StoredProofsFold(h: Hash, s: State, i: nat)
    requires Sealed(h, s) && i < |s.records|
    ensures var leaves := Digests(s.records);
            var steps := s.inclusionProofs[i].value.steps;
            ParseHash(s.batchHeads[0].merkleRoot) == Some(RootOf(h, leaves))
            && (forall j :: 0 <= j < |steps| ==> ReadStep(steps[j]).Some?)
            && Fold(h, leaves[i], ReadSteps(steps)) == RootOf(h, leaves)
  {
    var leaves := Digests(s.records);
    var path := PathOf(h, leaves, i);
    var steps := s.inclusionProofs[i].value.steps;
    assert steps == Map(StepRefOf, path);
    hide PathOf, RootOf, Digests, ReadStep, StepRefOf, ParseHash, Hex;
    Completeness(h, leaves, i);
    ParseHex(RootOf(h, leaves));
    forall j | 0 <= j < |steps| ensures ReadStep(steps[j]) == Some(path[j]) {
      StepReadsBack(path[j]);
    }
    assert ReadSteps(steps) == path;
  }

  // ----- the auditor's check of the whole bundle -----

  /** `NoRecord` is the panic on a proof past the last record. */
  datatype VerifyError =
    | HeadStructure | NoHeadFor(index: nat) | OtherBatch(index: nat) | BadRoot(index: nat) | NoRecord(index: nat)
    | BadLeaf(index: nat) | ProofInvalid(index: nat)

  predicate HeadsOk(heads: seq<BatchHead>) {
    && (forall a :: 0 <= a < |heads| ==> heads[a].firstSeq <= heads[a].lastSeq)
    && (forall a, b :: 0 <= a < b < |heads| ==>
          heads[a].batchId != heads[b].batchId
          && (heads[a].lastSeq < heads[b].firstSeq || heads[b].lastSeq < heads[a].firstSeq))
  }

  /** The head is looked up by the position of the record, not by its seq. */
  function CoversIndex(i: nat): BatchHead -> bool {
    (head: BatchHead) => head.firstSeq <= i <= head.lastSeq
  }

  /** A head for proof `i` is found, of the same batch and with a readable root. */
  predicate HeadFits(s: State, i: nat, proof: ProofRef) {
    var found := Find(CoversIndex(i), s.batchHeads);
    found != [] && found[0].batchId == proof.batchId && ParseHash(found[0].merkleRoot).Some?
  }

  /** A slot without a proof is skipped, also past the last record. */
  ghost predicate ProofChecks(h: Hash, s: State, i: nat)
    requires i < |s.inclusionProofs|
  {
    s.inclusionProofs[i].Some? ==>
      var proof, found := s.inclusionProofs[i].value, Find(CoversIndex(i), s.batchHeads);
      && HeadFits(s, i, proof) && i < |s.records| && ParseHash(s.records[i].recordHash).Some?
      && (forall j :: 0 <= j < |proof.steps| ==> ReadStep(proof.steps[j]).Some?)
      && Fold(h, ParseHash(s.records[i].recordHash).value, ReadSteps(proof.steps))
        == ParseHash(found[0].merkleRoot).value
  }

  /** Checking slot `i` reads past the last record. */
  ghost predicate Panics(s: State, i: nat)
    requires i < |s.inclusionProofs|
  {
    i >= |s.records| && s.inclusionProofs[i].Some? && HeadFits(s, i, s.inclusionProofs[i].value)
  }

  method CheckProof(h: Hash, s: State, i: nat) returns (error: Option<VerifyError>)
    requires i < |s.inclusionProofs|
    ensures error.None? <==> ProofChecks(h, s, i)
    ensures error.Some? && error.value.NoRecord? <==> Panics(s, i)
    ensures error != Some(HeadStructure)
  {
    hide ParseHash, Fold, ReadSteps, ReadStep;
    if s.inclusionProofs[i].None? {
      return None;
    }
    var proof := s.inclusionProofs[i].value;
    var found := Find(CoversIndex(i), s.batchHeads);
    if found == [] {
      return Some(NoHeadFor(i));
    }
    if found[0].batchId != proof.batchId {
      return Some(OtherBatch(i));
    }
    var root := ParseHash(found[0].merkleRoot);
    if root.None? {
      return Some(BadRoot(i));
    }
    if i >= |s.records| {
      return Some(NoRecord(i));
    }
    var leaf := ParseHash(s.records[i].recordHash);
    if leaf.None? {
      return Some(BadLeaf(i));
    }
    var ok := VerifyMerkleProof(h, leaf.value, proof, root.value);
    error := if ok then None else Some(ProofInvalid(i));
  }

  /** The first slot that does not check panics. */
  ghost predicate IsFirstPanic(h: Hash, s: State, i: nat) {
    i < |s.inclusionProofs| && Panics(s, i) && forall j :: 0 <= j < i ==> ProofChecks(h, s, j)
  }

  lemma PanicFails(h: Hash, s: State, i: nat)
    requires i < |s.inclusionProofs| && Panics(s, i)
    ensures !ProofChecks(h, s, i)
  {
    hide HeadFits;
  }

  lemma OnlyFailure(h: Hash, s: State, i: nat)
    requires i < |s.inclusionProofs| && !ProofChecks(h, s, i) && forall j :: 0 <= j < i ==> ProofChecks(h, s, j)
    ensures (exists k :: IsFirstPanic(h, s, k)) <==> Panics(s, i)
  {
    hide ProofChecks, Panics;
    forall k | IsFirstPanic(h, s, k) ensures k == i {
      PanicFails(h, s, k);
    }
    assert Panics(s, i) ==> IsFirstPanic(h, s, i);
  }

  lemma NoPanic(h: Hash, s: State)
    requires forall i :: 0 <= i < |s.inclusionProofs| ==> ProofChecks(h, s, i)
    ensures !exists k :: IsFirstPanic(h, s, k)
  {
    hide ProofChecks, Panics;
    forall k | 0 <= k < |s.inclusionProofs| ensures !Panics(s, k) {
      if Panics(s, k) {
        PanicFails(h, s, k);
      }
    }
  }

  /** Checks the heads' ids and ranges, then every stored proof. */
  method VerifyInclusionProofs(h: Hash, s: State) returns (result: Result<nat, VerifyError>)
    ensures result.Ok? <==> HeadsOk(s.batchHeads) && forall i :: 0 <= i < |s.inclusionProofs| ==> ProofChecks(h, s, i)
    ensures result.Ok? ==> result.value == Count(IsPresent, s.inclusionProofs)
    ensures result.Err? && result.error.NoRecord? <==> HeadsOk(s.batchHeads) && exists i :: IsFirstPanic(h, s, i)
  {
    hide ProofChecks, Filter, HeadsOk, Panics;
    if !HeadsOk(s.batchHeads) {
      return Err(HeadStructure);
    }
    var verified := 0;
    NothingPresent(s.inclusionProofs);
    for i := 0 to |s.inclusionProofs|
      invariant forall j :: 0 <= j < i ==> ProofChecks(h, s, j)
      invariant verified == Count(IsPresent, s.inclusionProofs[..i])
    {
      FilterNext(IsPresent, s.inclusionProofs, i);
      var error := CheckProof(h, s, i);
      if error.Some? {
        OnlyFailure(h, s, i);
        return Err(error.value);
      }
      verified := verified + (if s.inclusionProofs[i].Some? then 1 else 0);
    }
    assert s.inclusionProofs[..|s.inclusionProofs|] == s.inclusionProofs;
    NoPanic(h, s);
    result := Ok(verified);
  }

  function IsPresent(p: Option<ProofRef>): bool {
    p.Some?
  }

  lemma NothingPresent(proofs: seq<Option<ProofRef>>)
    ensures Count(IsPresent, proofs[..0]) == 0
  {
  }

  /** A sealed bundle passes the auditor's check exactly when its first record has
      seq 0: the check compares positions with seq ranges, so the proofs of a
      bundle that starts later are refused although each of them folds to the root. */
  lemma SealedBundleChecks(h: Hash, s: State, stamp: string -> Stamp, sealTime: int)
    requires Sealed(h, s) && FirstRecordError(s.records, |s.records|, stamp, sealTime).None?
    ensures HeadsOk(s.batchHeads)
    ensures (forall i :: 0 <= i < |s.inclusionProofs| ==> ProofChecks(h, s, i)) <==> s.records[0].seqNo == 0
  {
    hide *;
    RangeOfHead(h, s, stamp, sealTime);
    forall i | 0 <= i < |s.inclusionProofs| ensures ProofChecks(h, s, i) <==> s.records[0].seqNo <= i {
      OneCheck(h, s, stamp, sealTime, i);
    }
    assert ProofChecks(h, s, 0) <==> s.records[0].seqNo <= 0;
  }

  lemma RangeOfHead(h: Hash, s: State, stamp: string -> Stamp, sealTime: int)
    requires Sealed(h, s) && FirstRecordError(s.records, |s.records|, stamp, sealTime).None?
    ensures |s.batchHeads| == 1 && s.records != [] && |s.inclusionProofs| == |s.records| && HeadsOk(s.batchHeads)
    ensures s.batchHeads[0].firstSeq == s.records[0].seqNo
    ensures s.batchHeads[0].lastSeq == s.records[0].seqNo + (|s.records| - 1)
  {
    hide FirstRecordError, RootOf, Digests, ProofRefFor, Hex, ReadHash;
    NoRecordError(s.records, |s.records|, stamp, sealTime, |s.records| - 1);
  }

  lemma OneCheck(h: Hash, s: State, stamp: string -> Stamp, sealTime: int, i: nat)
    requires Sealed(h, s) && FirstRecordError(s.records, |s.records|, stamp, sealTime).None? && i < |s.inclusionProofs|
    ensures i < |s.records| && |s.records| > 0 && (ProofChecks(h, s, i) <==> s.records[0].seqNo <= i)
  {
    RangeOfHead(h, s, stamp, sealTime);
    StoredProofsFold(h, s, i);
    LeafReadsBack(s, stamp, sealTime, i);
    ProofOfHead(h, s, i);
    HeadFitsOnly(s, i, s.inclusionProofs[i].value);
    FindOnly(i, s.batchHeads);
    hide FirstRecordError, ParseHash, Fold, ReadSteps, ReadStep, RootOf, Digests, Sealed, HeadsOk, Find, HeadFits;
  }

  lemma HeadFitsOnly(s: State, i: nat, proof: ProofRef)
    requires |s.batchHeads| == 1
    ensures var head := s.batchHeads[0];
            HeadFits(s, i, proof) <==>
            head.firstSeq <= i <= head.lastSeq && head.batchId == proof.batchId && ParseHash(head.merkleRoot).Some?
  {
    hide ParseHash;
    FindOnly(i, s.batchHeads);
  }

  lemma ProofOfHead(h: Hash, s: State, i: nat)
    requires Sealed(h, s) && i < |s.records|
    ensures s.inclusionProofs[i].Some? && s.inclusionProofs[i].value.batchId == s.batchHeads[0].batchId
  {
    hide PathOf, RootOf, Digests;
  }

  lemma FindOnly(i: nat, heads: seq<BatchHead>)
    requires |heads| == 1
    ensures Find(CoversIndex(i), heads) == if heads[0].firstSeq <= i <= heads[0].lastSeq then heads else []
  {
    assert heads == [heads[0]] && heads[1..] == [];
  }
}
