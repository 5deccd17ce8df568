/** Epochs: the decision chain sealed in numbered, signed ranges, with the
    receipts obtained for each. */
module Epochs {
  import opened Text
  import opened CanonicalJson
  import opened HashLinks
  import opened DecisionChain

  const EPOCH_KIND := "cloakpipe.epoch/v1"

  datatype EpochHead = EpochHead(
    kind: string,
    epoch: nat,
    firstSeq: nat,
    lastSeq: nat,
    entriesHead: string,
    prevEpoch: string,
    sealedAt: string,
    signer: string,
    epochHash: string,
    sig: string)

  const EPOCH_KEYS: seq<string> := [
    "entries_head", "epoch", "epoch_hash", "first_seq", "kind", "last_seq", "prev_epoch", "sealed_at", "sig", "signer"]

  function EpochValues(e: EpochHead): (values: seq<Option<Json>>)
    ensures |values| == |EPOCH_KEYS|
  {
    [Some(Str(e.entriesHead)), Some(Int(e.epoch)), Some(Str(e.epochHash)), Some(Int(e.firstSeq)), Some(Str(e.kind)),
     Some(Int(e.lastSeq)), Some(Str(e.prevEpoch)), Some(Str(e.sealedAt)), Some(Str(e.sig)), Some(Str(e.signer))]
  }

  function EpochJson(e: EpochHead): Json {
    Obj(Members(EPOCH_KEYS, EpochValues(e)))
  }

  function EpochText(e: EpochHead): string {
    SealedText(EPOCH_HASH_DOMAIN, EpochJson(e), "epoch_hash")
  }

  function ComputeEpochHash(h: TextHash, e: EpochHead): string {
    Hex(h(EpochText(e)))
  }

  lemma EpochKeysDiffer(i: nat, j: nat)
    requires i < j < |EPOCH_KEYS|
    ensures EPOCH_KEYS[i] != EPOCH_KEYS[j]
  {
  }

  /** The head without the two members its hash leaves out. */
  function WithoutEpochSeal(e: EpochHead): EpochHead {
    e.(epochHash := "", sig := "")
  }

  ghost predicate SameEpochValues(a: EpochHead, b: EpochHead) {
    forall i :: 0 <= i < |EPOCH_KEYS| && i != 2 && i != 8 ==> EpochValues(a)[i] == EpochValues(b)[i]
  }

  lemma CoveredEpochValues(a: EpochHead, b: EpochHead)
    requires Covered(EpochJson(a), "epoch_hash") == Covered(EpochJson(b), "epoch_hash")
    ensures SameEpochValues(a, b)
  {
    hide EpochValues;
    forall i, j | 0 <= i < j < |EPOCH_KEYS| ensures EPOCH_KEYS[i] != EPOCH_KEYS[j] {
      EpochKeysDiffer(i, j);
    }
    assert EPOCH_KEYS[2] == "epoch_hash" && EPOCH_KEYS[8] == "sig";
    forall i | 0 <= i < |EPOCH_KEYS| && i != 2 && i != 8 ensures EpochValues(a)[i] == EpochValues(b)[i] {
      MembersDetermine(EPOCH_KEYS, EpochValues(a), EpochValues(b), {"epoch_hash", "sig"}, i);
    }
  }

  lemma EpochValuesDetermine(a: EpochHead, b: EpochHead)
    requires SameEpochValues(a, b)
    ensures WithoutEpochSeal(a) == WithoutEpochSeal(b)
  {
    var x, y := EpochValues(a), EpochValues(b);
    assert x[0] == y[0] && x[1] == y[1] && x[3] == y[3] && x[4] == y[4] && x[5] == y[5] && x[6] == y[6];
    assert x[7] == y[7] && x[9] == y[9];
  }

  /** An epoch hash covers every member except `epoch_hash` and `sig`. */
  lemma EpochHashCovers(h: TextHash, a: EpochHead, b: EpochHead)
    requires ComputeEpochHash(h, a) == ComputeEpochHash(h, b)
    ensures WithoutEpochSeal(a) == WithoutEpochSeal(b) || TextCollision(h, {EpochText(a), EpochText(b)})
  {
    hide EpochJson, SealedText;
    HexInjective(h(EpochText(a)), h(EpochText(b)));
    if EpochText(a) == EpochText(b) {
      DomainsHaveNoNewline();
      SealedTextInjective(EPOCH_HASH_DOMAIN, EpochJson(a), "epoch_hash", EPOCH_HASH_DOMAIN, EpochJson(b), "epoch_hash");
      CoveredEpochValues(a, b);
      EpochValuesDetermine(a, b);
    }
  }

  lemma EpochSealChangesNoValue(e: EpochHead, epochHash: string, sig: string)
    ensures SameEpochValues(e.(epochHash := epochHash, sig := sig), e)
  {
  }

  /** Setting the seal does not change what is hashed. */
  lemma EpochSealNotHashed(e: EpochHead, epochHash: string, sig: string)
    ensures EpochText(e.(epochHash := epochHash, sig := sig)) == EpochText(e)
  {
    var e' := e.(epochHash := epochHash, sig := sig);
    EpochSealChangesNoValue(e, epochHash, sig);
    hide EpochValues;
    assert EPOCH_KEYS[2] == "epoch_hash" && EPOCH_KEYS[8] == "sig";
    MembersIgnore(EPOCH_KEYS, EpochValues(e'), EpochValues(e), {"epoch_hash", "sig"});
  }

  // ----- receipts -----

  datatype Kind = Rekor | Rfc3161

  /** An authority's answer, kept as it was verified. */
  datatype Receipt = Receipt(kind: Kind, body: string)

  datatype Refusal = Refusal(kind: Kind, error: string)

  /** An epoch as stored: the anchors so far, and why the last attempt fell short. */
  datatype StoredEpoch = StoredEpoch(head: EpochHead, anchors: seq<Receipt>, lastError: Option<seq<Refusal>>)

  predicate Holds(receipts: seq<Receipt>, kind: Kind) {
    exists r :: r in receipts && r.kind == kind
  }

  /** The kinds held, sorted, once each. */
  function Kinds(receipts: seq<Receipt>): (kinds: seq<Kind>)
    ensures forall k :: k in kinds <==> Holds(receipts, k)
  {
    (if Holds(receipts, Rekor) then [Rekor] else []) + (if Holds(receipts, Rfc3161) then [Rfc3161] else [])
  }

  ghost predicate OncePerKind(receipts: seq<Receipt>) {
    forall i, j :: 0 <= i < j < |receipts| ==> receipts[i].kind != receipts[j].kind
  }

  /** Receipts of a kind already held replace nothing. */
  function WithReceipts(held: seq<Receipt>, more: seq<Receipt>): seq<Receipt>
    decreases more
  {
    if more == [] then held
    else WithReceipts(if Holds(held, more[0].kind) then held else held + [more[0]], more[1..])
  }

  /** No receipt is lost, none is doubled, and every kind offered is then held. */
  lemma {:induction false} ReceiptsKept(held: seq<Receipt>, more: seq<Receipt>)
    requires OncePerKind(held)
    ensures held <= WithReceipts(held, more) && OncePerKind(WithReceipts(held, more))
    ensures forall k :: Holds(WithReceipts(held, more), k) <==> Holds(held, k) || Holds(more, k)
    decreases more
  {
    if more != [] {
      var next := if Holds(held, more[0].kind) then held else held + [more[0]];
      OneReceipt(held, more[0]);
      HoldsHead(more);
      hide Holds, OncePerKind;
      ReceiptsKept(next, more[1..]);
    }
  }

  lemma OneReceipt(held: seq<Receipt>, r: Receipt)
    requires OncePerKind(held)
    ensures var next := if Holds(held, r.kind) then held else held + [r];
            OncePerKind(next) && held <= next && forall k :: Holds(next, k) <==> Holds(held, k) || k == r.kind
  {
    var next := if Holds(held, r.kind) then held else held + [r];
    if !Holds(held, r.kind) {
      assert r in next && forall q :: q in held ==> q in next;
    }
  }

  lemma HoldsHead(more: seq<Receipt>)
    requires more != []
    ensures forall k :: Holds(more, k) <==> k == more[0].kind || Holds(more[1..], k)
  {
    assert more == [more[0]] + more[1..];
  }
}
