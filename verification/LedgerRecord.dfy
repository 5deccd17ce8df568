/** Ledger records: the schema, what the builder accepts, and the canonical text
    that is hashed. UUIDs and timestamps are given by their rendered text. */
module LedgerRecord {
  import opened Ordering
  import opened Text
  import opened HashLinks

  datatype Hop =
    | LlmPrompt | LlmResponse | McpToolCall | McpToolResult | SubAgentMsg | MemoryWrite | RetrievalResult | Unmask
    | ReleaseRegistered | ReleasePromoted | ReleaseCertified | CertificationRevoked | OperationReconciled

  datatype Detector = Regex | Checksum | OnnxBert | Gliner | Custom

  datatype ActionKind = Pseudonymize | Block | Passthrough | FpeToken

  datatype PolicyDecision = Allow | Deny | Flag

  /** `u32` */
  type Occurrences = n: nat | n < 0x1_0000_0000

  datatype Detection = Detection(entityType: string, count: Occurrences, detector: Detector)

  datatype Action = Action(entityType: string, kind: ActionKind, tokenRef: Option<string>)

  datatype Policy = Policy(packId: string, packVersion: string, ruleId: string, decision: PolicyDecision)

  /** The 36 characters of a hyphenated UUID. */
  predicate IsUuid(s: string) {
    |s| == 36 && forall i :: 0 <= i < |s| ==> IsDecimalDigit(s[i]) || 'a' <= s[i] <= 'f' || s[i] == '-'
  }

  const NIL_UUID := "00000000-0000-0000-0000-000000000000"

  type Uuid = s: string | IsUuid(s) witness NIL_UUID

  datatype Identity = Identity(agentId: Uuid, humanPrincipal: Option<Uuid>, upstream: string, region: string)

  datatype Egress = Egress(destination: string, bytesOutHash: Digest)

  type I64 = i: int | -0x8000_0000_0000_0000 <= i < 0x8000_0000_0000_0000

  datatype MetadataValue = MBool(flag: bool) | MInteger(number: I64) | MHash(hash: Digest) | MOpaqueId(id: string)

  datatype Record = Record(
    seqNo: nat,
    ts: string,
    tenantId: Uuid,
    hop: Hop,
    detections: seq<Detection>,
    actions: seq<Action>,
    policy: Policy,
    identities: Identity,
    egress: Egress,
    metadata: map<string, MetadataValue>,
    prevHash: Digest,
    recordHash: Digest)

  // ----- validation -----

  datatype RecordError =
    | PiiInMetadata(key: string, why: string)
    | OpaqueIdTooLong(key: string)
    | MetadataDelimiter(key: string)
    | BadMetadataKey(key: string)

  predicate IsPlainKeyChar(c: char) {
    '!' <= c <= '~' && c != ';' && c != '='
  }

  function ValidateMetadataKey(key: string): Option<RecordError> {
    if key != "" && All(IsPlainKeyChar, key) then None else Some(BadMetadataKey(key))
  }

  function Utf8Length(s: string): nat {
    if s == "" then 0
    else (if s[0] as int < 0x80 then 1 else if s[0] as int < 0x800 then 2 else if s[0] as int < 0x10000 then 3 else 4)
         + Utf8Length(s[1..])
  }

  function AsciiLower(s: string): string {
    if s == "" then "" else [if 'A' <= s[0] <= 'Z' then s[0] - 'A' + 'a' else s[0]] + AsciiLower(s[1..])
  }

  predicate Contains(s: string, part: string) {
    part <= s || (s != "" && Contains(s[1..], part))
  }

  const PII_MARKERS: seq<string> :=
    ["@", "aadhaar", "pan", "ifsc", "upi://", "gstin", "ssn", "phone", "email", "name="]

  function FirstMarker(lowered: string, markers: seq<string>): Option<string> {
    if markers == [] then None
    else if Contains(lowered, markers[0]) then Some(markers[0])
    else FirstMarker(lowered, markers[1..])
  }

  function ValidateOpaqueId(key: string, s: string): Option<RecordError> {
    if Utf8Length(s) > 128 then Some(OpaqueIdTooLong(key))
    else
      var marker := FirstMarker(AsciiLower(s), PII_MARKERS);
      if marker.Some? then Some(PiiInMetadata(key, "contains marker `" + marker.value + "`"))
      else if exists i :: 0 <= i < |s| && IsWhitespace(s[i]) then Some(PiiInMetadata(key, "contains whitespace"))
      else if ';' in s || '=' in s then Some(MetadataDelimiter(key))
      else None
  }

  // ----- what the checks of metadata accept -----

  /** `c` is `m`, or the upper-case form of a lower-case letter `m`. */
  predicate IsCaseOf(c: char, m: char) {
    (c == m && !('A' <= c <= 'Z')) || ('a' <= m <= 'z' && c as int + 32 == m as int)
  }

  predicate OccursAt(s: string, m: string, i: nat) {
    i + |m| <= |s| && forall j :: 0 <= j < |m| ==> IsCaseOf(s[i + j], m[j])
  }

  /** `m` occurs in `s` in upper or lower case. */
  predicate Occurs(s: string, m: string) {
    exists i :: 0 <= i <= |s| && OccursAt(s, m, i)
  }

  lemma {:induction false} LowerAt(s: string)
    ensures |AsciiLower(s)| == |s|
    ensures forall i, m :: 0 <= i < |s| ==> (AsciiLower(s)[i] == m <==> IsCaseOf(s[i], m))
  {
    if s != "" {
      LowerAt(s[1..]);
    }
  }

  lemma OccursLater(s: string, m: string, i: nat)
    requires s != ""
    ensures OccursAt(s[1..], m, i) <==> OccursAt(s, m, i + 1)
  {
    hide IsCaseOf;
  }

  lemma OccursFirst(s: string, m: string)
    ensures OccursAt(s, m, 0) <==> m <= AsciiLower(s)
  {
    hide AsciiLower, IsCaseOf;
    LowerAt(s);
    var t := AsciiLower(s);
    if m <= t {
      assert forall j :: 0 <= j < |m| ==> t[j] == m[j];
    }
    if OccursAt(s, m, 0) {
      assert forall j :: 0 <= j < |m| ==> IsCaseOf(s[0 + j], m[j]) && t[j] == m[j];
    }
  }

  lemma {:induction false} MarkerOccurs(s: string, m: string)
    ensures Contains(AsciiLower(s), m) <==> Occurs(s, m)
  {
    hide OccursAt;
    OccursFirst(s, m);
    if s != "" {
      MarkerOccurs(s[1..], m);
      assert AsciiLower(s)[1..] == AsciiLower(s[1..]);
      forall i: nat ensures OccursAt(s[1..], m, i) <==> OccursAt(s, m, i + 1) {
        OccursLater(s, m, i);
      }
      if i :| 0 <= i <= |s| && OccursAt(s, m, i) && i > 0 {
        assert OccursAt(s[1..], m, i - 1);
      }
    }
  }

  lemma {:induction false} NoMarker(s: string, markers: seq<string>)
    ensures FirstMarker(AsciiLower(s), markers).None? <==> forall m :: m in markers ==> !Occurs(s, m)
  {
    hide AsciiLower, Contains, Occurs;
    if markers != [] {
      MarkerOccurs(s, markers[0]);
      NoMarker(s, markers[1..]);
      assert markers == [markers[0]] + markers[1..];
    }
  }

  predicate HasMarker(s: string) {
    || Occurs(s, "@") || Occurs(s, "aadhaar") || Occurs(s, "pan") || Occurs(s, "ifsc") || Occurs(s, "upi://")
    || Occurs(s, "gstin") || Occurs(s, "ssn") || Occurs(s, "phone") || Occurs(s, "email") || Occurs(s, "name=")
  }

  lemma MarkersAre(s: string)
    ensures FirstMarker(AsciiLower(s), PII_MARKERS).Some? <==> HasMarker(s)
  {
    hide Occurs, FirstMarker, AsciiLower;
    NoMarker(s, PII_MARKERS);
  }

  /** An opaque id is accepted exactly when it takes at most 128 bytes and holds none of
      the ten markers in any case, no white space and no delimiter; otherwise the length is
      reported first, then what may be personal, then the delimiter. */
  lemma OpaqueIdExactly(key: string, s: string)
    ensures var long := Utf8Length(s) >= 129;
            var personal := HasMarker(s) || exists i :: 0 <= i < |s| && IsWhitespace(s[i]);
            var delimited := exists i :: 0 <= i < |s| && (s[i] == ';' || s[i] == '=');
            var e := ValidateOpaqueId(key, s);
            && (e.None? <==> !long && !personal && !delimited)
            && (e.Some? ==> e.value.key == key)
            && (e.Some? && e.value.OpaqueIdTooLong? <==> long)
            && (e.Some? && e.value.PiiInMetadata? <==> !long && personal)
            && (e.Some? && e.value.MetadataDelimiter? <==> !long && !personal && delimited)
  {
    hide HasMarker, FirstMarker, AsciiLower, Utf8Length, IsWhitespace;
    MarkersAre(s);
  }

  function ValidateEntry(key: string, value: MetadataValue): Option<RecordError> {
    var badKey := ValidateMetadataKey(key);
    if badKey.Some? then badKey
    else if value.MOpaqueId? then ValidateOpaqueId(key, value.id)
    else None
  }

  predicate ValidMetadata(m: map<string, MetadataValue>) {
    forall k :: k in m ==> ValidateEntry(k, m[k]).None?
  }

  predicate IsFirstError(m: map<string, MetadataValue>, k: string, error: Option<RecordError>)
    requires k in m
  {
    && ValidateEntry(k, m[k]) == error
    && forall k' :: k' in m && CompareString(k', k) == Less ==> ValidateEntry(k', m[k']).None?
  }

  /** `build`'s check: the first error in key order, or none when all entries are valid. */
  method CheckMetadata(m: map<string, MetadataValue>) returns (error: Option<RecordError>)
    ensures error.None? <==> ValidMetadata(m)
    ensures error.Some? ==> exists k :: k in m && IsFirstError(m, k, error)
  {
    hide ValidateEntry, SortedStrings;
    var keys := SortedStrings(m.Keys);
    SortedStringsStrictlyAscend(m.Keys);
    for i := 0 to |keys|
      invariant forall j :: 0 <= j < i ==> ValidateEntry(keys[j], m[keys[j]]).None?
    {
      error := ValidateEntry(keys[i], m[keys[i]]);
      if error.Some? {
        forall k | k in m && CompareString(k, keys[i]) == Less ensures ValidateEntry(k, m[k]).None? {
          var j :| 0 <= j < |keys| && keys[j] == k;
          CompareStringTies(k, keys[i]);
          CompareStringFlips(keys[i], k);
        }
        assert IsFirstError(m, keys[i], error);
        return;
      }
    }
    error := None;
    forall k | k in m ensures ValidateEntry(k, m[k]).None? {
      assert k in keys;
    }
  }

  /** A record as the builder stages it: what was set, and what was pushed. */
  datatype Builder = Builder(
    seqNo: Option<nat>,
    ts: Option<string>,
    tenantId: Option<Uuid>,
    hop: Option<Hop>,
    detections: seq<Detection>,
    actions: seq<Action>,
    policy: Option<Policy>,
    identities: Option<Identity>,
    egress: Option<Egress>,
    metadata: map<string, MetadataValue>)

  const DEFAULT_POLICY := Policy("default", "0000000", "default-allow", Allow)
  const DEFAULT_IDENTITY := Identity(NIL_UUID, None, "unknown", "unknown")
  const DEFAULT_EGRESS := Egress("unknown", ZERO_DIGEST)

  function OrElse<T>(x: Option<T>, default: T): T {
    if x.Some? then x.value else default
  }

  /** The only way to make a record: staged fields or defaults, hashes still zero,
      and metadata only as the validators accept it. */
  method Build(b: Builder, now: string) returns (r: Result<Record, RecordError>)
    ensures r.Ok? <==> ValidMetadata(b.metadata)
    ensures r.Ok? ==> r.value == Record(
      OrElse(b.seqNo, 0), OrElse(b.ts, now), OrElse(b.tenantId, NIL_UUID), OrElse(b.hop, LlmPrompt), b.detections,
        b.actions,
      OrElse(b.policy, DEFAULT_POLICY), OrElse(b.identities, DEFAULT_IDENTITY), OrElse(b.egress, DEFAULT_EGRESS),
      b.metadata, ZERO_DIGEST, ZERO_DIGEST)
    ensures r.Err? ==> exists k :: k in b.metadata && IsFirstError(b.metadata, k, Some(r.error))
  {
    var error := CheckMetadata(b.metadata);
    if error.Some? {
      return Err(error.value);
    }
    r := Ok(Record(
      OrElse(b.seqNo, 0), OrElse(b.ts, now), OrElse(b.tenantId, NIL_UUID), OrElse(b.hop, LlmPrompt), b.detections,
        b.actions,
      OrElse(b.policy, DEFAULT_POLICY), OrElse(b.identities, DEFAULT_IDENTITY), OrElse(b.egress, DEFAULT_EGRESS),
      b.metadata, ZERO_DIGEST, ZERO_DIGEST));
  }
}
