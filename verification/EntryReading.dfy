/** What the hashed texts of decision entries and epoch heads say to a JSON reader. */
module EntryReading {
  import opened Text
  import opened CanonicalJson
  import opened JsonReader
  import opened HashLinks
  import opened DecisionChain
  import opened Epochs

  predicate Says(m: map<string, Json>, key: string, value: Json) {
    key in m && m[key] == value
  }

  predicate SaysOrNull(m: map<string, Json>, key: string, value: Option<string>) {
    Says(m, key, if value.None? then Null else Str(value.value))
  }

  // ----- decision entries -----

  /** The members of a covered entry, in alphabetical order. */
  predicate IsEntryObject(m: map<string, Json>, e: Entry) {
    && SaysFirst(m, e) && SaysNext(m, e) && SaysLast(m, e)
    && m.Keys <= {"approval", "args_fingerprint", "decision", "event", "forwarded", "kind", "mode", "operation_id",
                  "outcome", "path", "policy_digest", "policy_version", "prev_hash", "reason", "release", "seq",
                  "signer", "task_id", "tool", "tools_lock", "ts"}
  }

  predicate SaysFirst(m: map<string, Json>, e: Entry) {
    && SaysOrNull(m, "approval", e.approval)
    && SaysOrNull(m, "args_fingerprint", e.argsFingerprint)
    && Says(m, "decision", Str(if e.decision.Allow? then "allow" else if e.decision.Deny? then "deny"
                               else "require_approval"))
    && Says(m, "event", Str(if e.event.Call? then "call" else if e.event.Replay? then "replay"
                            else if e.event.Settled? then "outcome" else "reconcile"))
    && Says(m, "forwarded", Bool(e.forwarded))
    && Says(m, "kind", Str(e.kind))
  }

  predicate SaysNext(m: map<string, Json>, e: Entry) {
    && Says(m, "mode", if e.mode.None? then Null else if e.mode.value.Enforce? then Str("enforce") else Str("shadow"))
    && SaysOrNull(m, "operation_id", e.operationId)
    && Says(m, "outcome", if e.outcome.None? then Null else if e.outcome.value.Committed? then Str("committed")
                          else if e.outcome.value.Failed? then Str("failed") else Str("unknown"))
    && SaysOrNull(m, "path", e.path)
    && SaysOrNull(m, "policy_digest", e.policyDigest)
  }

  predicate SaysLast(m: map<string, Json>, e: Entry) {
    && SaysOrNull(m, "policy_version", e.policyVersion)
    && Says(m, "prev_hash", Str(e.prevHash))
    && Says(m, "reason", Str(e.reason))
    && SaysOrNull(m, "release", e.release)
    && Says(m, "seq", Int(e.seqNo))
    && Says(m, "signer", Str(e.signer))
    && SaysOrNull(m, "task_id", e.taskId)
    && SaysOrNull(m, "tool", e.tool)
    && (if e.toolsLock.None? then "tools_lock" !in m else Says(m, "tools_lock", Str(e.toolsLock.value)))
    && Says(m, "ts", Str(e.ts))
  }

  /** The members that the hash covers. */
  function CoveredMembers(e: Entry): map<string, Json> {
    Members(ENTRY_KEYS, EntryValues(e)) - {"entry_hash", "sig"}
  }

  lemma EntryMember(e: Entry, i: nat, key: string, value: Option<Json>)
    requires i < |ENTRY_KEYS| && i != 3 && i != 17 && ENTRY_KEYS[i] == key && EntryValues(e)[i] == value
    ensures if value.None? then key !in CoveredMembers(e) else Says(CoveredMembers(e), key, value.value)
  {
    hide EntryValues;
    EntryKeysDistinct();
    assert ENTRY_KEYS[3] == "entry_hash" && ENTRY_KEYS[17] == "sig";
    MemberAt(ENTRY_KEYS, EntryValues(e), i);
  }

  lemma FirstMembers(e: Entry)
    ensures SaysFirst(CoveredMembers(e), e)
  {
    hide CoveredMembers, Says;
    var v := FrontValues(e);
    EntryMember(e, 0, "approval", v[0]);
    EntryMember(e, 1, "args_fingerprint", v[1]);
    EntryMember(e, 2, "decision", v[2]);
    EntryMember(e, 4, "event", v[4]);
    EntryMember(e, 5, "forwarded", v[5]);
    EntryMember(e, 6, "kind", v[6]);
  }

  lemma NextMembers(e: Entry)
    ensures SaysNext(CoveredMembers(e), e)
  {
    hide CoveredMembers, Says;
    var v := FrontValues(e);
    EntryMember(e, 7, "mode", v[7]);
    EntryMember(e, 8, "operation_id", v[8]);
    EntryMember(e, 9, "outcome", v[9]);
    EntryMember(e, 10, "path", v[10]);
    EntryMember(e, 11, "policy_digest", v[11]);
  }

  lemma LastMembers(e: Entry)
    ensures SaysLast(CoveredMembers(e), e)
  {
    hide CoveredMembers, Says;
    var v := BackValues(e);
    EntryMember(e, 12, "policy_version", v[0]);
    EntryMember(e, 13, "prev_hash", v[1]);
    EntryMember(e, 14, "reason", v[2]);
    EntryMember(e, 15, "release", v[3]);
    EntryMember(e, 16, "seq", v[4]);
    EntryMember(e, 18, "signer", v[6]);
    EntryMember(e, 19, "task_id", v[7]);
    EntryMember(e, 20, "tool", v[8]);
    EntryMember(e, 21, "tools_lock", v[9]);
    EntryMember(e, 22, "ts", v[10]);
  }

  lemma EntryNames(e: Entry)
    ensures CoveredMembers(e).Keys <=
            {"approval", "args_fingerprint", "decision", "event", "forwarded", "kind", "mode", "operation_id",
             "outcome", "path", "policy_digest", "policy_version", "prev_hash", "reason", "release", "seq",
             "signer", "task_id", "tool", "tools_lock", "ts"}
  {
    hide EntryValues;
    forall k | k in Members(ENTRY_KEYS, EntryValues(e)) ensures k in ENTRY_KEYS {
      MembersKeys(ENTRY_KEYS, EntryValues(e), k);
    }
    EntryKeyList();
  }

  lemma EntryKeyList()
    ensures (set k | k in ENTRY_KEYS) <=
            {"approval", "args_fingerprint", "decision", "event", "forwarded", "kind", "mode", "operation_id",
             "outcome", "path", "policy_digest", "policy_version", "prev_hash", "reason", "release", "seq",
             "signer", "task_id", "tool", "tools_lock", "ts", "entry_hash", "sig"}
  {
  }

  /** What an entry is hashed over: the domain line, and then a JSON text that reads as an
      object with the members of the entry, except its own hash and signature. */
  lemma EntryReads(e: Entry)
    ensures exists json, m :: IsReading(EntryText(e), "cloakpipe.decision.v1", json, m) && IsEntryObject(m, e)
  {
    var m := CoveredMembers(e);
    assert EntryText(e) == "cloakpipe.decision.v1" + ("\n" + Encode(Obj(m)));
    hide CoveredMembers, Encode, ReadValue, SaysFirst, SaysNext, SaysLast, EntryText;
    FirstMembers(e);
    NextMembers(e);
    LastMembers(e);
    EntryNames(e);
    CanonicalReads(Obj(m));
    assert IsReading(EntryText(e), "cloakpipe.decision.v1", Encode(Obj(m)), m) && IsEntryObject(m, e);
  }

  /** A domain line and then one JSON object. */
  predicate IsReading(text: string, domain: string, json: string, m: map<string, Json>) {
    text == domain + ("\n" + json) && ReadValue(json) == Some((Obj(m), ""))
  }

  /** An appended entry says of its draft what the draft says, with the time of the append
      where the draft has none and the release where the draft has no policy version. */
  lemma DraftReads(draft: Draft, n: nat, prevHash: string, signer: string, now: string)
    ensures var e := Unhashed(draft, n, prevHash, signer, now);
            && e.kind == "cloakpipe.decision/v1" && e.seqNo == n && e.prevHash == prevHash && e.signer == signer
            && (if draft.ts.None? then e.ts == now else Some(e.ts) == draft.ts)
            && (if draft.policyVersion.None? then e.policyVersion == draft.release
                else e.policyVersion == draft.policyVersion)
            && e.event == draft.event && e.release == draft.release && e.tool == draft.tool
            && e.argsFingerprint == draft.argsFingerprint && e.decision == draft.decision && e.reason == draft.reason
            && e.path == draft.path && e.policyDigest == draft.policyDigest && e.mode == draft.mode
            && e.taskId == draft.taskId && e.operationId == draft.operationId && e.approval == draft.approval
            && e.outcome == draft.outcome && e.forwarded == draft.forwarded && e.toolsLock == draft.toolsLock
  {
  }

  // ----- epoch heads -----

  /** The members of a covered epoch head. */
  predicate IsEpochObject(m: map<string, Json>, e: EpochHead) {
    && Says(m, "entries_head", Str(e.entriesHead))
    && Says(m, "epoch", Int(e.epoch))
    && Says(m, "first_seq", Int(e.firstSeq))
    && Says(m, "kind", Str(e.kind))
    && Says(m, "last_seq", Int(e.lastSeq))
    && Says(m, "prev_epoch", Str(e.prevEpoch))
    && Says(m, "sealed_at", Str(e.sealedAt))
    && Says(m, "signer", Str(e.signer))
    && m.Keys <= {"entries_head", "epoch", "first_seq", "kind", "last_seq", "prev_epoch", "sealed_at", "signer"}
  }

  function CoveredEpoch(e: EpochHead): map<string, Json> {
    Members(EPOCH_KEYS, EpochValues(e)) - {"epoch_hash", "sig"}
  }

  lemma EpochMember(e: EpochHead, i: nat, key: string, value: Option<Json>)
    requires i < |EPOCH_KEYS| && i != 2 && i != 8 && EPOCH_KEYS[i] == key && EpochValues(e)[i] == value && value.Some?
    ensures Says(CoveredEpoch(e), key, value.value)
  {
    hide EpochValues;
    assert EPOCH_KEYS[2] == "epoch_hash" && EPOCH_KEYS[8] == "sig";
    forall i, j | 0 <= i < j < |EPOCH_KEYS| ensures EPOCH_KEYS[i] != EPOCH_KEYS[j] {
      EpochKeysDiffer(i, j);
    }
    MemberAt(EPOCH_KEYS, EpochValues(e), i);
  }

  lemma EpochNames(e: EpochHead)
    ensures CoveredEpoch(e).Keys <=
            {"entries_head", "epoch", "first_seq", "kind", "last_seq", "prev_epoch", "sealed_at", "signer"}
  {
    hide EpochValues;
    forall k | k in Members(EPOCH_KEYS, EpochValues(e)) ensures k in EPOCH_KEYS {
      MembersKeys(EPOCH_KEYS, EpochValues(e), k);
    }
  }

  lemma EpochMembers(e: EpochHead)
    ensures IsEpochObject(CoveredEpoch(e), e)
  {
    EpochNames(e);
    hide CoveredEpoch, Says;
    var v := EpochValues(e);
    EpochMember(e, 0, "entries_head", v[0]);
    EpochMember(e, 1, "epoch", v[1]);
    EpochMember(e, 3, "first_seq", v[3]);
    EpochMember(e, 4, "kind", v[4]);
    EpochMember(e, 5, "last_seq", v[5]);
    EpochMember(e, 6, "prev_epoch", v[6]);
    EpochMember(e, 7, "sealed_at", v[7]);
    EpochMember(e, 9, "signer", v[9]);
  }

  /** What an epoch head is hashed over. */
  lemma EpochReads(e: EpochHead)
    ensures exists json, m :: IsReading(EpochText(e), "cloakpipe.epoch.v1", json, m) && IsEpochObject(m, e)
  {
    var m := CoveredEpoch(e);
    assert EpochText(e) == "cloakpipe.epoch.v1" + ("\n" + Encode(Obj(m)));
    hide CoveredEpoch, Encode, ReadValue, IsEpochObject, EpochText;
    EpochMembers(e);
    CanonicalReads(Obj(m));
    assert IsReading(EpochText(e), "cloakpipe.epoch.v1", Encode(Obj(m)), m) && IsEpochObject(m, e);
  }
}
