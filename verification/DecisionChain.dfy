/** Decision ledger entries: chained, and hashed over every member except
    `entry_hash` and `sig`. Epoch heads are sealed the same way. */
module DecisionChain {
  import opened Ordering
  import opened Text
  import opened CanonicalJson
  import opened HashLinks

  const DECISION_KIND := "cloakpipe.decision/v1"
  const DECISION_HASH_DOMAIN := "cloakpipe.decision.v1"
  const EPOCH_HASH_DOMAIN := "cloakpipe.epoch.v1"
  const PACK_HASH_DOMAIN := "cloakpipe.audit-pack.v1"
  const GENESIS := "0000000000000000000000000000000000000000000000000000000000000000"

  datatype Decision = Allow | Deny | RequireApproval

  datatype Mode = Enforce | Shadow

  datatype Outcome = Committed | Failed | Unknown

  datatype Event = Call | Replay | Settled | Reconcile

  /** An entry before it is chained and signed. */
  datatype Draft = Draft(
    ts: Option<string>,
    event: Event,
    release: Option<string>,
    tool: Option<string>,
    argsFingerprint: Option<string>,
    decision: Decision,
    reason: string,
    path: Option<string>,
    policyVersion: Option<string>,
    policyDigest: Option<string>,
    mode: Option<Mode>,
    taskId: Option<string>,
    operationId: Option<string>,
    approval: Option<string>,
    outcome: Option<Outcome>,
    forwarded: bool,
    toolsLock: Option<string>)

  datatype Entry = Entry(
    kind: string,
    seqNo: nat,
    ts: string,
    event: Event,
    release: Option<string>,
    tool: Option<string>,
    argsFingerprint: Option<string>,
    decision: Decision,
    reason: string,
    path: Option<string>,
    policyVersion: Option<string>,
    policyDigest: Option<string>,
    mode: Option<Mode>,
    taskId: Option<string>,
    operationId: Option<string>,
    approval: Option<string>,
    outcome: Option<Outcome>,
    forwarded: bool,
    toolsLock: Option<string>,
    signer: string,
    prevHash: string,
    entryHash: string,
    sig: string)

  // ----- the JSON of an entry -----

  function DecisionText(d: Decision): string {
    match d
    case Allow => "allow"
    case Deny => "deny"
    case RequireApproval => "require_approval"
  }

  function ModeText(m: Mode): string {
    match m
    case Enforce => "enforce"
    case Shadow => "shadow"
  }

  function OutcomeText(o: Outcome): string {
    match o
    case Committed => "committed"
    case Failed => "failed"
    case Unknown => "unknown"
  }

  function EventText(e: Event): string {
    match e
    case Call => "call"
    case Replay => "replay"
    case Settled => "outcome"
    case Reconcile => "reconcile"
  }

  /** `null` when absent. */
  function Nullable(s: Option<string>): Json {
    if s.Some? then Str(s.value) else Null
  }

  const ENTRY_KEYS: seq<string> := [
    "approval", "args_fingerprint", "decision", "entry_hash", "event", "forwarded", "kind", "mode", "operation_id",
    "outcome", "path", "policy_digest", "policy_version", "prev_hash", "reason", "release", "seq", "sig", "signer",
    "task_id", "tool", "tools_lock", "ts"]

  /** The members in the order of `ENTRY_KEYS`; `tools_lock` is left out when absent. */
  function EntryValues(e: Entry): (values: seq<Option<Json>>)
    ensures |values| == |ENTRY_KEYS|
  {
    FrontValues(e) + BackValues(e)
  }

  function FrontValues(e: Entry): (values: seq<Option<Json>>)
    ensures |values| == 12
  {
    [Some(Nullable(e.approval)), Some(Nullable(e.argsFingerprint)), Some(Str(DecisionText(e.decision))),
     Some(Str(e.entryHash)), Some(Str(EventText(e.event))), Some(Bool(e.forwarded)), Some(Str(e.kind)),
     Some(if e.mode.Some? then Str(ModeText(e.mode.value)) else Null), Some(Nullable(e.operationId)),
     Some(if e.outcome.Some? then Str(OutcomeText(e.outcome.value)) else Null), Some(Nullable(e.path)),
     Some(Nullable(e.policyDigest))]
  }

  function BackValues(e: Entry): (values: seq<Option<Json>>)
    ensures |values| == 11
  {
    [Some(Nullable(e.policyVersion)), Some(Str(e.prevHash)), Some(Str(e.reason)),
     Some(Nullable(e.release)), Some(Int(e.seqNo)), Some(Str(e.sig)), Some(Str(e.signer)), Some(Nullable(e.taskId)),
     Some(Nullable(e.tool)), (if e.toolsLock.Some? then Some(Str(e.toolsLock.value)) else None), Some(Str(e.ts))]
  }

  function EntryJson(e: Entry): Json {
    Obj(Members(ENTRY_KEYS, EntryValues(e)))
  }

  lemma EntryKeysDiffer(i: nat, j: nat)
    requires i < j < |ENTRY_KEYS|
    ensures ENTRY_KEYS[i] != ENTRY_KEYS[j]
  {
  }

  lemma EntryKeysDistinct()
    ensures Distinct(ENTRY_KEYS)
  {
    forall i, j | 0 <= i < j < |ENTRY_KEYS| ensures ENTRY_KEYS[i] != ENTRY_KEYS[j] {
      EntryKeysDiffer(i, j);
    }
  }

  // ----- what the hash covers -----

  /** The entry without the two members its hash leaves out. */
  function WithoutSeal(e: Entry): Entry {
    e.(entryHash := "", sig := "")
  }

  lemma TextsInjective()
    ensures forall m: Decision, n: Decision :: DecisionText(m) == DecisionText(n) ==> m == n
    ensures forall m: Event, n: Event :: EventText(m) == EventText(n) ==> m == n
    ensures forall m: Mode, n: Mode :: ModeText(m) == ModeText(n) ==> m == n
    ensures forall m: Outcome, n: Outcome :: OutcomeText(m) == OutcomeText(n) ==> m == n
  {
  }

  ghost predicate SameValues(a: Entry, b: Entry) {
    forall i :: 0 <= i < |ENTRY_KEYS| && i != 3 && i != 17 ==> EntryValues(a)[i] == EntryValues(b)[i]
  }

  lemma CoveredValues(a: Entry, b: Entry)
    requires Covered(EntryJson(a), "entry_hash") == Covered(EntryJson(b), "entry_hash")
    ensures SameValues(a, b)
  {
    hide EntryValues;
    EntryKeysDistinct();
    assert ENTRY_KEYS[3] == "entry_hash" && ENTRY_KEYS[17] == "sig";
    forall i | 0 <= i < |ENTRY_KEYS| && i != 3 && i != 17 ensures EntryValues(a)[i] == EntryValues(b)[i] {
      MembersDetermine(ENTRY_KEYS, EntryValues(a), EntryValues(b), {"entry_hash", "sig"}, i);
    }
  }

  lemma ValuesDetermine(a: Entry, b: Entry)
    requires SameValues(a, b)
    ensures WithoutSeal(a) == WithoutSeal(b)
  {
    hide FrontValues, BackValues;
    var p, q, r, s := FrontValues(a), FrontValues(b), BackValues(a), BackValues(b);
    forall i | 0 <= i < 12 && i != 3 ensures p[i] == q[i] {
      assert EntryValues(a)[i] == EntryValues(b)[i];
    }
    forall i | 0 <= i < 11 && i != 5 ensures r[i] == s[i] {
      assert EntryValues(a)[i + 12] == EntryValues(b)[i + 12];
    }
    FrontDetermines(a, b);
    BackDetermines(a, b);
  }

  lemma FrontDetermines(a: Entry, b: Entry)
    requires forall i :: 0 <= i < 12 && i != 3 ==> FrontValues(a)[i] == FrontValues(b)[i]
    ensures a.approval == b.approval && a.argsFingerprint == b.argsFingerprint && a.decision == b.decision
            && a.event == b.event
    ensures a.forwarded == b.forwarded && a.kind == b.kind && a.mode == b.mode && a.operationId == b.operationId
    ensures a.outcome == b.outcome && a.path == b.path && a.policyDigest == b.policyDigest
  {
    TextsInjective();
    hide DecisionText, EventText, ModeText, OutcomeText;
    var x, y := FrontValues(a), FrontValues(b);
    assert x[0] == y[0] && x[1] == y[1] && x[2] == y[2] && x[4] == y[4] && x[5] == y[5] && x[6] == y[6] && x[7] == y[7];
    assert x[8] == y[8] && x[9] == y[9] && x[10] == y[10] && x[11] == y[11];
  }

  lemma BackDetermines(a: Entry, b: Entry)
    requires forall i :: 0 <= i < 11 && i != 5 ==> BackValues(a)[i] == BackValues(b)[i]
    ensures a.policyVersion == b.policyVersion && a.prevHash == b.prevHash && a.reason == b.reason
            && a.release == b.release
    ensures a.seqNo == b.seqNo && a.signer == b.signer && a.taskId == b.taskId && a.tool == b.tool
            && a.toolsLock == b.toolsLock
    ensures a.ts == b.ts
  {
    var x, y := BackValues(a), BackValues(b);
    assert x[0] == y[0] && x[1] == y[1] && x[2] == y[2] && x[3] == y[3] && x[4] == y[4] && x[6] == y[6] && x[7] == y[7];
    assert x[8] == y[8] && x[9] == y[9] && x[10] == y[10];
  }

  /** Equal covered JSON means equal entries, field by field, seal apart. */
  lemma CoveredDetermines(a: Entry, b: Entry)
    requires Covered(EntryJson(a), "entry_hash") == Covered(EntryJson(b), "entry_hash")
    ensures WithoutSeal(a) == WithoutSeal(b)
  {
    CoveredValues(a, b);
    ValuesDetermine(a, b);
  }

  function EntryText(e: Entry): string {
    SealedText(DECISION_HASH_DOMAIN, EntryJson(e), "entry_hash")
  }

  /** The `entry_hash` these fields hash to. */
  function ComputeHash(h: TextHash, e: Entry): string {
    Hex(h(EntryText(e)))
  }

  lemma DomainsHaveNoNewline()
    ensures All(IsNotNewline, DECISION_HASH_DOMAIN) && All(IsNotNewline, EPOCH_HASH_DOMAIN)
    ensures All(IsNotNewline, PACK_HASH_DOMAIN)
    ensures DECISION_HASH_DOMAIN != EPOCH_HASH_DOMAIN && DECISION_HASH_DOMAIN != PACK_HASH_DOMAIN
    ensures EPOCH_HASH_DOMAIN != PACK_HASH_DOMAIN
  {
    assert |DECISION_HASH_DOMAIN| == 21 && |EPOCH_HASH_DOMAIN| == 18 && |PACK_HASH_DOMAIN| == 23;
  }

  /** An entry hash covers every member except `entry_hash` and `sig`: entries
      with the same hash agree on all of them, or their texts collide. */
  lemma HashCovers(h: TextHash, a: Entry, b: Entry)
    requires ComputeHash(h, a) == ComputeHash(h, b)
    ensures WithoutSeal(a) == WithoutSeal(b) || TextCollision(h, {EntryText(a), EntryText(b)})
  {
    HexInjective(h(EntryText(a)), h(EntryText(b)));
    if EntryText(a) == EntryText(b) {
      DomainsHaveNoNewline();
      SealedTextInjective(DECISION_HASH_DOMAIN, EntryJson(a), "entry_hash", DECISION_HASH_DOMAIN, EntryJson(b),
                          "entry_hash");
      CoveredDetermines(a, b);
    }
  }

  // ----- building the chain -----

  /** `draft` chained after `prevHash`, its hash not yet set. */
  function Unhashed(draft: Draft, seqNo: nat, prevHash: string, signer: string, now: string): Entry {
    Entry(DECISION_KIND, seqNo, if draft.ts.Some? then draft.ts.value else now, draft.event, draft.release, draft.tool,
          draft.argsFingerprint, draft.decision, draft.reason, draft.path,
          if draft.policyVersion.Some? then draft.policyVersion else draft.release,
          draft.policyDigest, draft.mode, draft.taskId, draft.operationId, draft.approval, draft.outcome,
            draft.forwarded,
          draft.toolsLock, signer, prevHash, "", "")
  }

  /** Chain `draft` after `prevHash` as entry `seqNo`, hashed and unsigned. */
  method Link(h: TextHash, draft: Draft, seqNo: nat, prevHash: string, signer: string, now: string)
    returns (entry: Entry)
    ensures WithoutSeal(entry) == Unhashed(draft, seqNo, prevHash, signer, now)
    ensures entry.entryHash == ComputeHash(h, entry) && entry.sig == ""
  {
    entry := Unhashed(draft, seqNo, prevHash, signer, now);
    var hash := ComputeHash(h, entry);
    SealNotHashed(entry, hash, "");
    entry := entry.(entryHash := hash);
  }

  /** Setting the seal does not change what is hashed. */
  lemma SealNotHashed(e: Entry, entryHash: string, sig: string)
    ensures EntryText(e.(entryHash := entryHash, sig := sig)) == EntryText(e)
  {
    var e' := e.(entryHash := entryHash, sig := sig);
    SealChangesNoValue(e, entryHash, sig);
    hide EntryValues;
    assert ENTRY_KEYS[3] == "entry_hash" && ENTRY_KEYS[17] == "sig";
    MembersIgnore(ENTRY_KEYS, EntryValues(e'), EntryValues(e), {"entry_hash", "sig"});
  }

  lemma SealChangesNoValue(e: Entry, entryHash: string, sig: string)
    ensures SameValues(e.(entryHash := entryHash, sig := sig), e)
  {
    FrontSealed(e, entryHash, sig);
    BackSealed(e, entryHash, sig);
    hide FrontValues, BackValues;
  }

  lemma FrontSealed(e: Entry, entryHash: string, sig: string)
    ensures var x := FrontValues(e.(entryHash := entryHash, sig := sig));
            forall i :: 0 <= i < 12 && i != 3 ==> x[i] == FrontValues(e)[i]
  {
    hide Nullable, DecisionText, EventText, ModeText, OutcomeText;
  }

  lemma BackSealed(e: Entry, entryHash: string, sig: string)
    ensures var x := BackValues(e.(entryHash := entryHash, sig := sig));
            forall i :: 0 <= i < 11 && i != 5 ==> x[i] == BackValues(e)[i]
  {
    hide Nullable;
  }

  lemma {:induction false} MembersIgnore(keys: seq<string>, a: seq<Option<Json>>, b: seq<Option<Json>>,
                                         without: set<string>)
    requires |keys| == |a| == |b|
    requires forall i :: 0 <= i < |keys| && keys[i] !in without ==> a[i] == b[i]
    ensures Members(keys, a) - without == Members(keys, b) - without
  {
    if keys != [] {
      MembersIgnore(keys[1..], a[1..], b[1..], without);
      var x, y := Members(keys[1..], a[1..]) - without, Members(keys[1..], b[1..]) - without;
      assert forall k :: k in Members(keys, a) - without ==> k == keys[0] || k in x;
      assert forall k :: k in Members(keys, b) - without ==> k == keys[0] || k in y;
      assert Members(keys, a) - without == Members(keys, b) - without;
    }
  }

  function HashOf(e: Entry): string { e.entryHash }

  function PrevOf(e: Entry): string { e.prevHash }

  function SeqOf(e: Entry): int { e.seqNo }

  ghost predicate IsChain(h: TextHash, entries: seq<Entry>) {
    && Linked(HashOf, PrevOf, SeqOf, GENESIS, entries)
    && forall i :: 0 <= i < |entries| ==> entries[i].entryHash == ComputeHash(h, entries[i])
  }

  /** The store's append: link after the head, then sign the hash. */
  function Append(h: TextHash, sign: string -> string, entries: seq<Entry>, draft: Draft, signer: string,
                  now: string): seq<Entry> {
    var prevHash := if entries == [] then GENESIS else entries[|entries| - 1].entryHash;
    var entry := Unhashed(draft, |entries|, prevHash, signer, now);
    var hash := ComputeHash(h, entry);
    entries + [entry.(entryHash := hash, sig := sign(hash))]
  }

  lemma AppendKeepsChain(h: TextHash, sign: string -> string, entries: seq<Entry>, draft: Draft, signer: string,
                         now: string)
    requires IsChain(h, entries)
    ensures IsChain(h, Append(h, sign, entries, draft, signer, now))
  {
    hide *;
    AppendFits(h, sign, entries, draft, signer, now);
    ChainWith(h, entries, Append(h, sign, entries, draft, signer, now));
  }

  /** The appended entry is numbered, linked and hashed. */
  lemma AppendFits(h: TextHash, sign: string -> string, entries: seq<Entry>, draft: Draft, signer: string, now: string)
    ensures var longer, n := Append(h, sign, entries, draft, signer, now), |entries|;
            |longer| == n + 1 && longer[..n] == entries && longer[n].seqNo == n
            && longer[n].prevHash == (if n == 0 then GENESIS else entries[n - 1].entryHash)
            && longer[n].entryHash == ComputeHash(h, longer[n])
  {
    hide EntryText, Unhashed;
    var longer, n := Append(h, sign, entries, draft, signer, now), |entries|;
    var prevHash := if n == 0 then GENESIS else entries[n - 1].entryHash;
    UnhashedLinks(draft, n, prevHash, signer, now);
    SealNotHashed(Unhashed(draft, n, prevHash, signer, now), longer[n].entryHash, longer[n].sig);
  }

  lemma UnhashedLinks(draft: Draft, seqNo: nat, prevHash: string, signer: string, now: string)
    ensures Unhashed(draft, seqNo, prevHash, signer, now).seqNo == seqNo
    ensures Unhashed(draft, seqNo, prevHash, signer, now).prevHash == prevHash
  {
  }

  lemma ChainWith(h: TextHash, entries: seq<Entry>, longer: seq<Entry>)
    requires IsChain(h, entries) && |longer| == |entries| + 1 && longer[..|entries|] == entries
    requires var n := |entries|;
             longer[n].seqNo == n && longer[n].prevHash == (if n == 0 then GENESIS else entries[n - 1].entryHash)
             && longer[n].entryHash == ComputeHash(h, longer[n])
    ensures IsChain(h, longer)
  {
    hide ComputeHash;
    var n := |entries|;
    forall i | 0 <= i <= n
      ensures LinkedAt(HashOf, PrevOf, SeqOf, GENESIS, longer, i) && longer[i].entryHash == ComputeHash(h, longer[i])
    {
      if i < n {
        assert LinkedAt(HashOf, PrevOf, SeqOf, GENESIS, entries, i) && longer[i] == entries[i];
        assert i > 0 ==> longer[i - 1] == entries[i - 1];
      } else {
        assert n > 0 ==> longer[n - 1] == entries[n - 1];
      }
    }
  }

  function ChainTexts(entries: seq<Entry>): set<string> {
    set i | 0 <= i < |entries| :: EntryText(entries[i])
  }

  predicate SameEntry(a: Entry, b: Entry) {
    WithoutSeal(a) == WithoutSeal(b)
  }

  /** The head hash determines the length of the chain and every covered field of
      every entry, or two of the texts hashed to build the chains collide. */
  lemma HeadCommits(h: TextHash, a: seq<Entry>, b: seq<Entry>)
    requires IsChain(h, a) && IsChain(h, b) && a != [] && b != []
    requires a[|a| - 1].entryHash == b[|b| - 1].entryHash
    ensures (|a| == |b| && forall i :: 0 <= i < |a| ==> SameEntry(a[i], b[i])) ||
            TextCollision(h, ChainTexts(a) + ChainTexts(b))
  {
    hide EntryText, SameEntry, ComputeHash, TextCollision;
    var texts := ChainTexts(a) + ChainTexts(b);
    if !TextCollision(h, texts) {
      forall x, y | x in a && y in b && HashOf(x) == HashOf(y) ensures SameEntry(x, y) {
        assert EntryText(x) in texts && EntryText(y) in texts;
        SameOrCollide(h, x, y, texts);
      }
      SameEntryLinks();
      TipCommits(HashOf, PrevOf, SeqOf, SameEntry, GENESIS, a, b);
    }
  }

  lemma SameOrCollide(h: TextHash, x: Entry, y: Entry, texts: set<string>)
    requires ComputeHash(h, x) == ComputeHash(h, y) && EntryText(x) in texts && EntryText(y) in texts
    ensures SameEntry(x, y) || TextCollision(h, texts)
  {
    hide EntryText;
    HashCovers(h, x, y);
  }

  lemma SameEntryLinks()
    ensures forall x, y :: SameEntry(x, y) ==> PrevOf(x) == PrevOf(y) && SeqOf(x) == SeqOf(y)
  {
    forall x, y | SameEntry(x, y) ensures PrevOf(x) == PrevOf(y) && SeqOf(x) == SeqOf(y) {
      assert WithoutSeal(x).prevHash == x.prevHash && WithoutSeal(x).seqNo == x.seqNo;
      assert WithoutSeal(y).prevHash == y.prevHash && WithoutSeal(y).seqNo == y.seqNo;
    }
  }
}
