/** Runs of one bundle: sealing and attaching in any order, by the holders of any keys.
    When its manifest is in step, and what no call takes back. */
module BundleRuns {
  import opened Text
  import opened Lists
  import opened Merkle
  import opened Export

  /** A call with its result. */
  datatype Call =
    | SealCall(h: Hash, signer: Signer, batchId: string, sealTime: int, signedTime: string, stamp: string -> Stamp,
               sealing: Result<BatchHead, ExportError>)
    | AttachCall(signer: Signer, receipts: seq<ExternalReceipt>, attaching: Result<(), ExportError>)

  predicate Succeeds(call: Call) {
    match call
    case SealCall(_, _, _, _, _, _, result) => result.Ok?
    case AttachCall(_, _, result) => result.Ok?
  }

  ghost predicate IsCall(call: Call, s: State, t: State) {
    match call
    case SealCall(h, signer, batchId, sealTime, signedTime, stamp, result) =>
      IsSealing(h, signer, batchId, sealTime, signedTime, stamp, s, t, result)
    case AttachCall(signer, receipts, result) => IsAttaching(signer, receipts, s, t, result)
  }

  /** Who signs with a key, given its algorithm and public key. */
  type KeyRing = (string, string) -> Signer

  ghost predicate IsHolder(ring: KeyRing, signer: Signer) {
    ring(signer.algorithm, signer.publicKey) == signer
  }

  /** The bundle goes through `states`, from the first on; every call is signed by the
      holder of the key it is made with. */
  ghost predicate IsRun(ring: KeyRing, calls: seq<Call>, states: seq<State>) {
    && |states| == |calls| + 1
    && forall i :: 0 <= i < |calls| ==> IsHolder(ring, calls[i].signer) && IsCall(calls[i], states[i], states[i + 1])
  }

  /** The key the bundle declares for the operator its manifest names. */
  function OperatorKey(s: State): seq<SignerKey> {
    if s.manifest.None? then [] else Find(HasKeyId(s.manifest.value.operator), s.signerKeys)
  }

  /** The manifest describes the bundle and is signed by the holder of the key declared
      for its operator. */
  ghost predicate InStep(ring: KeyRing, s: State) {
    OperatorKey(s) != [] && InSync(s, ring(OperatorKey(s)[0].algorithm, OperatorKey(s)[0].publicKey))
  }

  /** A bundle is in step when its manifest is as the holder of the operator's key
      signs it, in particular when it was just made. */
  lemma SignedInStep(ring: KeyRing, s: State, signer: Signer)
    requires InSync(s, signer) && OperatorError(s, signer).None? && IsHolder(ring, signer)
    ensures InStep(ring, s)
  {
    hide InSync;
  }

  /** The manifest describes the bundle without its last `n` receipts. */
  ghost predicate LagsBy(ring: KeyRing, s: State, n: nat) {
    n <= |s.anchorReceipts| && InStep(ring, s.(anchorReceipts := s.anchorReceipts[..|s.anchorReceipts| - n]))
  }

  function Pushed(s: State, t: State): nat {
    if |t.anchorReceipts| > |s.anchorReceipts| then |t.anchorReceipts| - |s.anchorReceipts| else 0
  }

  // ----- what a call will do, read off its input -----

  predicate WillSucceed(call: Call, s: State) {
    match call
    case SealCall(_, signer, _, sealTime, _, stamp, _) => SealError(s, signer, stamp, sealTime).None?
    case AttachCall(signer, receipts, _) =>
      OperatorError(s, signer).None? && forall r :: r in receipts ==> HasHead(s.batchHeads, r.batchId)
  }

  /** The operator attaches a receipt for a known batch before one for an unknown batch. */
  predicate WillStrand(call: Call, s: State) {
    && call.AttachCall? && OperatorError(s, call.signer).None? && call.receipts != []
    && HasHead(s.batchHeads, call.receipts[0].batchId)
    && exists r :: r in call.receipts && !HasHead(s.batchHeads, r.batchId)
  }

  lemma StrandedPush(call: Call, s: State, t: State)
    requires call.AttachCall? && IsCall(call, s, t) && OperatorError(s, call.signer).None? && !Succeeds(call)
    ensures Pushed(s, t) > 0 <==> HasHead(s.batchHeads, call.receipts[0].batchId)
    ensures exists r :: r in call.receipts && !HasHead(s.batchHeads, r.batchId)
    ensures call.attaching.error.UnknownBatch?
  {
    hide OperatorError, HasHead;
    var k :| 0 <= k < |call.receipts| && IsFirstUnknown(s.batchHeads, call.receipts, k)
      && call.attaching.error == UnknownBatch(call.receipts[k].batchId)
      && t == s.(anchorReceipts := s.anchorReceipts + Map(AsRef, call.receipts[..k]));
    assert |t.anchorReceipts| == |s.anchorReceipts| + k;
    assert call.receipts[k] in call.receipts;
  }

  /** Both guards say exactly what the call does. */
  lemma GuardsExact(call: Call, s: State, t: State)
    requires IsCall(call, s, t)
    ensures Succeeds(call) <==> WillSucceed(call, s)
    ensures !Succeeds(call) && Pushed(s, t) > 0 <==> WillStrand(call, s)
  {
    hide SealError, OperatorError, HasHead, InSync, HeadFor, Sealed;
    if call.AttachCall? && OperatorError(s, call.signer).None? && !Succeeds(call) {
      StrandedPush(call, s, t);
    }
  }

  /** The receipts that failed calls pushed since the last success. */
  ghost function Behind(calls: seq<Call>, states: seq<State>, n: nat): nat
    requires n <= |calls| < |states|
  {
    if n == 0 || Succeeds(calls[n - 1]) then 0
    else Behind(calls, states, n - 1) + Pushed(states[n - 1], states[n])
  }

  /** Call `i` failed after it had pushed a receipt. */
  predicate LeavesReceipts(calls: seq<Call>, states: seq<State>, i: nat)
    requires i < |calls| < |states|
  {
    !Succeeds(calls[i]) && Pushed(states[i], states[i + 1]) > 0
  }

  lemma LagIsOutOfStep(ring: KeyRing, s: State, n: nat)
    requires LagsBy(ring, s, n)
    ensures InStep(ring, s) <==> n == 0
  {
    hide InSync;
    var m := |s.anchorReceipts| - n;
    var known := s.(anchorReceipts := s.anchorReceipts[..m]);
    assert OperatorKey(known) == OperatorKey(s);
    UnknownBatchSync(known, ring(OperatorKey(s)[0].algorithm, OperatorKey(s)[0].publicKey), s.anchorReceipts[m..]);
    assert s.anchorReceipts[..m] + s.anchorReceipts[m..] == s.anchorReceipts;
    assert known.(anchorReceipts := known.anchorReceipts + s.anchorReceipts[m..]) == s;
  }

  /** A failed call leaves the manifest and adds what it pushed to the lag. */
  lemma FailureLags(ring: KeyRing, call: Call, s: State, t: State, n: nat)
    requires IsCall(call, s, t) && !Succeeds(call) && LagsBy(ring, s, n)
    ensures LagsBy(ring, t, n + Pushed(s, t))
  {
    hide SealError, OperatorError, IsFirstUnknown, InStep;
    if call.AttachCall? && OperatorError(s, call.signer).None? {
      var k :| 0 <= k < |call.receipts|
        && t == s.(anchorReceipts := s.anchorReceipts + Map(AsRef, call.receipts[..k]));
      var m := |s.anchorReceipts| - n;
      assert t.anchorReceipts[..m] == s.anchorReceipts[..m];
      assert t.(anchorReceipts := t.anchorReceipts[..m]) == s.(anchorReceipts := s.anchorReceipts[..m]);
    }
  }

  lemma SuccessInStep(ring: KeyRing, call: Call, s: State, t: State)
    requires IsCall(call, s, t) && Succeeds(call) && IsHolder(ring, call.signer)
    ensures InStep(ring, t)
  {
    hide InSync, HeadFor, SealError, Sealed;
    if call.SealCall? {
      SealedByOperator(s, call.signer, call.stamp, call.sealTime);
    }
    assert OperatorError(t, call.signer) == OperatorError(s, call.signer);
    SignedInStep(ring, t, call.signer);
  }

  lemma SealedByOperator(s: State, signer: Signer, stamp: string -> Stamp, sealTime: int)
    requires SealError(s, signer, stamp, sealTime).None?
    ensures OperatorError(s, signer).None?
  {
    hide FirstRecordError, OperatorError;
  }

  lemma {:induction false} RunLags(ring: KeyRing, calls: seq<Call>, states: seq<State>, n: nat)
    requires IsRun(ring, calls, states) && n <= |calls| && InStep(ring, states[0])
    ensures LagsBy(ring, states[n], Behind(calls, states, n))
  {
    hide InStep, IsCall, Pushed, LagsBy, IsHolder;
    if n == 0 {
      InStepLags(ring, states[0]);
    } else if Succeeds(calls[n - 1]) {
      SuccessInStep(ring, calls[n - 1], states[n - 1], states[n]);
      InStepLags(ring, states[n]);
    } else {
      RunLags(ring, calls, states, n - 1);
      FailureLags(ring, calls[n - 1], states[n - 1], states[n], Behind(calls, states, n - 1));
    }
  }

  lemma InStepLags(ring: KeyRing, s: State)
    requires InStep(ring, s)
    ensures LagsBy(ring, s, 0)
  {
    hide InStep;
    assert s.(anchorReceipts := s.anchorReceipts[..|s.anchorReceipts|]) == s;
  }

  lemma {:induction false} BehindIs(calls: seq<Call>, states: seq<State>, n: nat)
    requires n <= |calls| < |states|
    ensures Behind(calls, states, n) == 0 <==>
            forall i :: 0 <= i < n && LeavesReceipts(calls, states, i) ==> exists j :: i < j < n && Succeeds(calls[j])
  {
    hide Succeeds, Pushed;
    if n > 0 {
      BehindIs(calls, states, n - 1);
      if !Succeeds(calls[n - 1]) {
        assert LeavesReceipts(calls, states, n - 1) <==> Pushed(states[n - 1], states[n]) > 0;
      }
    }
  }

  /** After any run of a bundle that starts in step, the manifest is in step exactly
      when every call that attached a known batch before an unknown one was followed
      by a call that could succeed. */
  lemma InStepExactly(ring: KeyRing, calls: seq<Call>, states: seq<State>)
    requires IsRun(ring, calls, states) && InStep(ring, states[0])
    ensures InStep(ring, states[|calls|]) <==>
            forall i :: 0 <= i < |calls| && WillStrand(calls[i], states[i]) ==>
              exists j :: i < j < |calls| && WillSucceed(calls[j], states[j])
  {
    hide InStep, IsCall, LagsBy, Behind, WillStrand, WillSucceed, Succeeds, Pushed;
    RunLags(ring, calls, states, |calls|);
    LagIsOutOfStep(ring, states[|calls|], Behind(calls, states, |calls|));
    BehindIs(calls, states, |calls|);
    forall i | 0 <= i < |calls|
      ensures LeavesReceipts(calls, states, i) <==> WillStrand(calls[i], states[i])
      ensures Succeeds(calls[i]) <==> WillSucceed(calls[i], states[i])
    {
      GuardsExact(calls[i], states[i], states[i + 1]);
    }
    SameFollowed(calls, states);
  }

  lemma SameFollowed(calls: seq<Call>, states: seq<State>)
    requires |states| == |calls| + 1
    requires forall i :: 0 <= i < |calls| ==> (LeavesReceipts(calls, states, i) <==> WillStrand(calls[i], states[i]))
    requires forall i :: 0 <= i < |calls| ==> (Succeeds(calls[i]) <==> WillSucceed(calls[i], states[i]))
    ensures (forall i :: 0 <= i < |calls| && LeavesReceipts(calls, states, i) ==>
               exists j :: i < j < |calls| && Succeeds(calls[j])) <==>
            (forall i :: 0 <= i < |calls| && WillStrand(calls[i], states[i]) ==>
               exists j :: i < j < |calls| && WillSucceed(calls[j], states[j]))
  {
    hide LeavesReceipts, WillStrand, WillSucceed, Succeeds;
  }

  /** One call takes a bundle out of step exactly when it strands a receipt; it then
      fails with an unknown batch. */
  lemma OneCallInStep(ring: KeyRing, call: Call, s: State, t: State)
    requires InStep(ring, s) && IsHolder(ring, call.signer) && IsCall(call, s, t)
    ensures InStep(ring, t) <==> !WillStrand(call, s)
    ensures WillStrand(call, s) ==> call.attaching.Err? && call.attaching.error.UnknownBatch?
  {
    hide InStep, IsHolder, LagsBy, WillSucceed, HasHead, OperatorError;
    GuardsExact(call, s, t);
    if Succeeds(call) {
      SuccessInStep(ring, call, s, t);
    } else {
      InStepLags(ring, s);
      FailureLags(ring, call, s, t, 0);
      LagIsOutOfStep(ring, t, Pushed(s, t));
      if WillStrand(call, s) {
        StrandedPush(call, s, t);
      }
    }
  }

  /** For instance any two receipts, the first for a batch of the bundle and the second
      for none. */
  lemma UnknownBatchOutOfStep(ring: KeyRing, s: State, t: State, signer: Signer, known: ExternalReceipt,
                              unknown: ExternalReceipt, result: Result<(), ExportError>)
    requires InStep(ring, s) && IsHolder(ring, signer) && OperatorError(s, signer).None?
    requires HasHead(s.batchHeads, known.batchId) && !HasHead(s.batchHeads, unknown.batchId)
    requires IsAttaching(signer, [known, unknown], s, t, result)
    ensures result == Err(UnknownBatch(unknown.batchId)) && !InStep(ring, t)
  {
    hide InStep, IsHolder, OperatorError, HasHead;
    var call := AttachCall(signer, [known, unknown], result);
    assert call.receipts[0] == known && call.receipts[1] == unknown && unknown in call.receipts;
    OneCallInStep(ring, call, s, t);
  }

  // ----- what no call takes back -----

  /** Records, range fields and keys are untouched, receipts only appended, and a
      sealed bundle keeps its head and proofs. */
  ghost predicate Keeps(h: Hash, s: State, t: State) {
    && t.records == s.records && t.rangeStart == s.rangeStart && t.rangeEnd == s.rangeEnd
    && t.signerKeys == s.signerKeys && t.policyPacks == s.policyPacks && s.anchorReceipts <= t.anchorReceipts
    && (Sealed(h, s) ==> Sealed(h, t) && t.batchHeads == s.batchHeads && t.inclusionProofs == s.inclusionProofs)
  }

  lemma SealedFrom(h: Hash, s: State, t: State)
    requires t.records == s.records && t.batchHeads == s.batchHeads && t.inclusionProofs == s.inclusionProofs
    ensures Sealed(h, s) ==> Sealed(h, t)
  {
    hide Hex, RootOf, Digests, ProofRefFor;
  }

  lemma SealedRefuses(h: Hash, s: State, signer: Signer, stamp: string -> Stamp, sealTime: int)
    requires Sealed(h, s)
    ensures SealError(s, signer, stamp, sealTime).Some?
  {
    hide FirstRecordError, OperatorError, Hex, RootOf, Digests, ProofRefFor;
  }

  lemma CallKeeps(h: Hash, call: Call, s: State, t: State)
    requires IsCall(call, s, t)
    ensures Keeps(h, s, t)
  {
    hide InSync, HeadFor, SealError, Sealed, OperatorError, IsFirstUnknown;
    if call.SealCall? && Sealed(h, s) {
      SealedRefuses(h, s, call.signer, call.stamp, call.sealTime);
    }
    if call.AttachCall? {
      SealedFrom(h, s, t);
    }
  }

  lemma KeepsItself(h: Hash, s: State)
    ensures Keeps(h, s, s)
  {
    hide Sealed;
  }

  lemma KeepsTransitive(h: Hash, s: State, t: State, u: State)
    requires Keeps(h, s, t) && Keeps(h, t, u)
    ensures Keeps(h, s, u)
  {
    hide Sealed;
  }

  lemma {:induction false} RunKeeps(ring: KeyRing, h: Hash, calls: seq<Call>, states: seq<State>, m: nat, n: nat)
    requires IsRun(ring, calls, states) && m <= n <= |calls|
    ensures Keeps(h, states[m], states[n])
  {
    hide Keeps, IsCall;
    if m == n {
      KeepsItself(h, states[m]);
    } else {
      RunKeeps(ring, h, calls, states, m, n - 1);
      CallKeeps(h, calls[n - 1], states[n - 1], states[n]);
      KeepsTransitive(h, states[m], states[n - 1], states[n]);
    }
  }
}
