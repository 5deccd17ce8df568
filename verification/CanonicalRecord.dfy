/** The canonical text of a ledger record: eleven lines, the last two of which
    are the link to the record before and the metadata. */
module CanonicalRecord {
  import opened Ordering
  import opened Text
  import Lists
  import opened HashLinks
  import opened LedgerRecord

  function HopTag(h: Hop): string {
    match h
    case LlmPrompt => "llm_prompt"
    case LlmResponse => "llm_response"
    case McpToolCall => "mcp_tool_call"
    case McpToolResult => "mcp_tool_result"
    case SubAgentMsg => "sub_agent_msg"
    case MemoryWrite => "memory_write"
    case RetrievalResult => "retrieval_result"
    case Unmask => "unmask"
    case ReleaseRegistered => "release_registered"
    case ReleasePromoted => "release_promoted"
    case ReleaseCertified => "release_certified"
    case CertificationRevoked => "certification_revoked"
    case OperationReconciled => "operation_reconciled"
  }

  function DetectorTag(d: Detector): string {
    match d
    case Regex => "regex"
    case Checksum => "checksum"
    case OnnxBert => "onnx_bert"
    case Gliner => "gliner"
    case Custom => "custom"
  }

  function KindTag(k: ActionKind): string {
    match k
    case Pseudonymize => "pseudonymize"
    case Block => "block"
    case Passthrough => "passthrough"
    case FpeToken => "fpe_token"
  }

  function DecisionTag(d: PolicyDecision): string {
    match d
    case Allow => "allow"
    case Deny => "deny"
    case Flag => "flag"
  }

  /** `(a|b|...)` */
  function Tuple(fields: seq<string>): string
    requires fields != []
  {
    "(" + (Bars(fields) + ")")
  }

  function Bars(fields: seq<string>): string
    requires fields != []
  {
    if |fields| == 1 then fields[0] else fields[0] + ("|" + Bars(fields[1..]))
  }

  function DetectionText(d: Detection): string {
    Tuple([d.entityType, Decimal(d.count), DetectorTag(d.detector), "<confidence>"])
  }

  function DetectionsText(ds: seq<Detection>): string {
    if ds == [] then "" else DetectionText(ds[0]) + DetectionsText(ds[1..])
  }

  function ActionText(a: Action): string {
    Tuple([a.entityType, KindTag(a.kind), if a.tokenRef.Some? then a.tokenRef.value else ""])
  }

  function ActionsText(actions: seq<Action>): string {
    if actions == [] then "" else ActionText(actions[0]) + ActionsText(actions[1..])
  }

  function PolicyText(p: Policy): string {
    Tuple([p.packId, p.packVersion, p.ruleId, DecisionTag(p.decision)])
  }

  function IdentityText(i: Identity): string {
    Tuple([i.agentId, if i.humanPrincipal.Some? then i.humanPrincipal.value else "-", i.upstream, i.region])
  }

  function EgressText(e: Egress): string {
    Tuple([e.destination, Hex(e.bytesOutHash)])
  }

  function ValueText(v: MetadataValue): string {
    match v
    case MBool(b) => if b then "bool:true" else "bool:false"
    case MInteger(i) => "int:" + DecimalInt(i)
    case MHash(h) => "hash:" + Hex(h)
    case MOpaqueId(o) => "id:" + o
  }

  /** The entries for `keys`, in order. */
  function MetadataText(m: map<string, MetadataValue>, keys: seq<string>): string
    requires forall k :: k in keys ==> k in m
  {
    if keys == [] then ""
    else keys[0] + ("=" + (ValueText(m[keys[0]]) + (";" + MetadataText(m, keys[1..]))))
  }

  function Lines(r: Record): seq<string> {
    ["seq=" + Decimal(r.seqNo),
     "ts=" + r.ts,
     "tenant_id=" + r.tenantId,
     "hop=" + HopTag(r.hop),
     "detections=" + DetectionsText(r.detections),
     "actions=" + ActionsText(r.actions),
     "policy=" + PolicyText(r.policy),
     "identities=" + IdentityText(r.identities),
     "egress=" + EgressText(r.egress),
     "prev_hash=" + Hex(r.prevHash),
     "metadata=" + MetadataText(r.metadata, SortedStrings(r.metadata.Keys))]
  }

  function JoinLines(lines: seq<string>): string
    requires lines != []
  {
    if |lines| == 1 then lines[0] else lines[0] + ("\n" + JoinLines(lines[1..]))
  }

  function Canonical(r: Record): string {
    JoinLines(Lines(r))
  }

  // ----- the implementation -----

  method WriteDetections(before: string, ds: seq<Detection>) returns (s: string)
    ensures s == before + DetectionsText(ds)
  {
    s := before;
    assert ds[0..] == ds;
    for i := 0 to |ds|
      invariant before + DetectionsText(ds) == s + DetectionsText(ds[i..])
    {
      assert ds[i..][0] == ds[i] && ds[i..][1..] == ds[i + 1..];
      hide DetectionText;
      Lists.ConcatAssociates(s, DetectionText(ds[i]), DetectionsText(ds[i + 1..]));
      s := s + DetectionText(ds[i]);
    }
    assert ds[|ds|..] == [] && s + "" == s;
  }

  method WriteActions(before: string, actions: seq<Action>) returns (s: string)
    ensures s == before + ActionsText(actions)
  {
    s := before;
    assert actions[0..] == actions;
    for i := 0 to |actions|
      invariant before + ActionsText(actions) == s + ActionsText(actions[i..])
    {
      assert actions[i..][0] == actions[i] && actions[i..][1..] == actions[i + 1..];
      hide ActionText;
      Lists.ConcatAssociates(s, ActionText(actions[i]), ActionsText(actions[i + 1..]));
      s := s + ActionText(actions[i]);
    }
    assert actions[|actions|..] == [] && s + "" == s;
  }

  method WriteMetadata(before: string, m: map<string, MetadataValue>) returns (s: string)
    ensures s == before + MetadataText(m, SortedStrings(m.Keys))
  {
    hide ValueText, MetadataText;
    s := before;
    var keys := SortedStrings(m.Keys);
    assert keys[0..] == keys;
    for i := 0 to |keys|
      invariant before + MetadataText(m, keys) == s + MetadataText(m, keys[i..])
    {
      MetadataTextAt(m, keys, i);
      Concat5(s, keys[i], "=", ValueText(m[keys[i]]), ";", MetadataText(m, keys[i + 1..]));
      s := s + keys[i] + "=" + ValueText(m[keys[i]]) + ";";
    }
    NoMetadataText(m, keys[|keys|..]);
    assert s + "" == s;
  }

  lemma MetadataTextAt(m: map<string, MetadataValue>, keys: seq<string>, i: nat)
    requires i < |keys| && forall k :: k in keys ==> k in m
    ensures MetadataText(m, keys[i..]) ==
            keys[i] + ("=" + (ValueText(m[keys[i]]) + (";" + MetadataText(m, keys[i + 1..]))))
  {
    hide ValueText;
    assert keys[i..][0] == keys[i] && keys[i..][1..] == keys[i + 1..];
  }

  lemma NoMetadataText(m: map<string, MetadataValue>, keys: seq<string>)
    requires keys == []
    ensures MetadataText(m, keys) == ""
  {
  }

  lemma Concat5(t: string, a: string, b: string, c: string, d: string, e: string)
    ensures (t + a + b + c + d) + e == t + (a + (b + (c + (d + e))))
  {
  }

  lemma {:induction false} JoinSnoc(lines: seq<string>, line: string)
    requires lines != []
    ensures JoinLines(lines + [line]) == JoinLines(lines) + ("\n" + line)
  {
    var all := lines + [line];
    if |lines| == 1 {
      assert all[1..] == [line];
    } else {
      assert all[1..] == lines[1..] + [line];
      JoinSnoc(lines[1..], line);
      Lists.ConcatAssociates(lines[0], "\n" + JoinLines(lines[1..]), "\n" + line);
      Lists.ConcatAssociates("\n", JoinLines(lines[1..]), "\n" + line);
    }
  }

  /** One more line on the text written so far. */
  lemma LineWritten(lines: seq<string>, i: nat, title: string, body: string)
    requires 0 < i < |lines| && lines[i] == title + body
    ensures JoinLines(lines[..i]) + ("\n" + title) + body == JoinLines(lines[..i + 1])
  {
    hide JoinLines;
    assert lines[..i + 1] == lines[..i] + [lines[i]];
    JoinSnoc(lines[..i], title + body);
    Lists.ConcatAssociates(JoinLines(lines[..i]), "\n" + title, body);
    Lists.ConcatAssociates("\n", title, body);
  }

  method Canonicalize(r: Record) returns (s: string)
    ensures s == Canonical(r)
  {
    hide JoinLines, DetectionsText, ActionsText, PolicyText, IdentityText, EgressText, MetadataText, Decimal, HopTag,
      Hex, SortedStrings;
    ghost var all := Lines(r);
    s := "seq=" + Decimal(r.seqNo);
    FirstLine(all);
    LineWritten(all, 1, "ts=", r.ts);
    s := s + ("\n" + "ts=") + r.ts;
    LineWritten(all, 2, "tenant_id=", r.tenantId);
    s := s + ("\n" + "tenant_id=") + r.tenantId;
    LineWritten(all, 3, "hop=", HopTag(r.hop));
    s := s + ("\n" + "hop=") + HopTag(r.hop);
    LineWritten(all, 4, "detections=", DetectionsText(r.detections));
    s := WriteDetections(s + ("\n" + "detections="), r.detections);
    LineWritten(all, 5, "actions=", ActionsText(r.actions));
    s := WriteActions(s + ("\n" + "actions="), r.actions);
    LineWritten(all, 6, "policy=", PolicyText(r.policy));
    s := s + ("\n" + "policy=") + PolicyText(r.policy);
    LineWritten(all, 7, "identities=", IdentityText(r.identities));
    s := s + ("\n" + "identities=") + IdentityText(r.identities);
    LineWritten(all, 8, "egress=", EgressText(r.egress));
    s := s + ("\n" + "egress=") + EgressText(r.egress);
    LineWritten(all, 9, "prev_hash=", Hex(r.prevHash));
    s := s + ("\n" + "prev_hash=") + Hex(r.prevHash);
    LineWritten(all, 10, "metadata=", MetadataText(r.metadata, SortedStrings(r.metadata.Keys)));
    s := WriteMetadata(s + ("\n" + "metadata="), r.metadata);
    assert all[..11] == all;
  }

  lemma FirstLine(lines: seq<string>)
    requires lines != []
    ensures JoinLines(lines[..1]) == lines[0]
  {
  }

  // ----- metadata reads one way only -----

  predicate IsNotEquals(c: char) {
    c != '='
  }

  predicate IsNotSemicolon(c: char) {
    c != ';'
  }

  lemma ValidKeyChars(k: string)
    requires ValidateMetadataKey(k).None?
    ensures k != "" && All(IsNotEquals, k) && All(IsNotNewline, k)
  {
    assert forall i :: 0 <= i < |k| ==> IsPlainKeyChar(k[i]);
  }

  lemma ValidValueChars(k: string, v: MetadataValue)
    requires ValidateEntry(k, v).None?
    ensures All(IsNotSemicolon, ValueText(v)) && All(IsNotNewline, ValueText(v))
  {
    hide Decimal, Hex, ValidateOpaqueId, ValidateMetadataKey;
    match v
    case MBool(_) =>
    case MInteger(i) =>
      assert forall j :: 0 <= j < |DecimalInt(i)| ==> IsDecimalDigit(DecimalInt(i)[j]) || DecimalInt(i)[j] == '-';
    case MHash(h) =>
      HexPlain(h);
    case MOpaqueId(o) =>
      OpaqueIdChars(k, o);
  }

  lemma ValidEntryChars(k: string, v: MetadataValue)
    requires ValidateEntry(k, v).None?
    ensures k != "" && All(IsNotEquals, k) && All(IsNotNewline, k)
    ensures All(IsNotSemicolon, ValueText(v)) && All(IsNotNewline, ValueText(v))
  {
    hide ValidateOpaqueId, ValidateMetadataKey, ValueText;
    ValidKeyChars(k);
    ValidValueChars(k, v);
  }

  lemma HexPlain(h: seq<byte>)
    ensures forall c :: c in Hex(h) ==> IsDecimalDigit(c) || 'a' <= c <= 'f'
  {
    forall c | c in Hex(h) ensures IsDecimalDigit(c) || 'a' <= c <= 'f' {
      HexDigitsPlain(c);
    }
  }

  lemma HexDigitsPlain(c: char)
    requires c in HEX_DIGITS
    ensures IsDecimalDigit(c) || 'a' <= c <= 'f'
  {
  }

  lemma OpaqueIdChars(k: string, o: string)
    requires ValidateOpaqueId(k, o).None?
    ensures forall i :: 0 <= i < |o| ==> o[i] != ';' && o[i] != '\n'
  {
    forall i | 0 <= i < |o| ensures o[i] != ';' && o[i] != '\n' {
      assert !IsWhitespace(o[i]);
    }
  }

  /** The type tag and the value are both read back. */
  lemma ValueTextInjective(v: MetadataValue, w: MetadataValue)
    requires ValueText(v) == ValueText(w)
    ensures v == w
  {
    var x, y := ValueText(v), ValueText(w);
    assert x[0] == y[0] && x[1] == y[1];
    match v
    case MBool(_) =>
    case MInteger(i) =>
      ConcatCancels("int:", DecimalInt(i), "int:", DecimalInt(w.number));
      DecimalIntInjective(i, w.number);
    case MHash(h) =>
      ConcatCancels("hash:", Hex(h), "hash:", Hex(w.hash));
      HexInjective(h, w.hash);
    case MOpaqueId(o) =>
      ConcatCancels("id:", o, "id:", w.id);
  }

  lemma {:induction false} MetadataTextUnique(m: map<string, MetadataValue>, keys: seq<string>,
                                              m': map<string, MetadataValue>, keys': seq<string>)
    requires (forall k :: k in keys ==> k in m) && (forall k :: k in keys' ==> k in m')
    requires ValidMetadata(m) && ValidMetadata(m') && MetadataText(m, keys) == MetadataText(m', keys')
    ensures keys == keys' && forall k :: k in keys ==> m[k] == m'[k]
  {
    if keys != [] {
      ValidEntryChars(keys[0], m[keys[0]]);
    }
    if keys' != [] {
      ValidEntryChars(keys'[0], m'[keys'[0]]);
    }
    if keys != [] && keys' != [] {
      var k, k' := keys[0], keys'[0];
      var rest, rest' := MetadataText(m, keys[1..]), MetadataText(m', keys'[1..]);
      var v, v' := ValueText(m[k]), ValueText(m'[k']);
      hide ValueText, ValidMetadata, ValidateEntry;
      SplitUnique(IsNotEquals, k, "=" + (v + (";" + rest)), k', "=" + (v' + (";" + rest')));
      ConcatCancels("=", v + (";" + rest), "=", v' + (";" + rest'));
      SplitUnique(IsNotSemicolon, v, ";" + rest, v', ";" + rest');
      ConcatCancels(";", rest, ";", rest');
      ValueTextInjective(m[k], m'[k']);
      MetadataTextUnique(m, keys[1..], m', keys'[1..]);
      assert keys == [k] + keys[1..] && keys' == [k'] + keys'[1..];
    }
  }

  /** Metadata the validators accept is determined by its canonical text, the
      types of its values included: no value can spell out another entry. */
  lemma MetadataInjective(m: map<string, MetadataValue>, m': map<string, MetadataValue>)
    requires ValidMetadata(m) && ValidMetadata(m')
    requires MetadataText(m, SortedStrings(m.Keys)) == MetadataText(m', SortedStrings(m'.Keys))
    ensures m == m'
  {
    MetadataTextUnique(m, SortedStrings(m.Keys), m', SortedStrings(m'.Keys));
    assert forall k :: k in m <==> k in SortedStrings(m.Keys);
    assert forall k :: k in m' <==> k in SortedStrings(m'.Keys);
  }

  // ----- what the canonical text determines -----

  lemma {:induction false} MetadataTextOneLine(m: map<string, MetadataValue>, keys: seq<string>)
    requires (forall k :: k in keys ==> k in m) && ValidMetadata(m)
    ensures All(IsNotNewline, MetadataText(m, keys))
  {
    if keys != [] {
      ValidEntryChars(keys[0], m[keys[0]]);
      MetadataTextOneLine(m, keys[1..]);
      hide ValueText, ValidMetadata, ValidateEntry;
    }
  }

  /** The last line is found from the end. */
  lemma LastLineUnique(a: string, x: string, b: string, y: string)
    requires a + ("\n" + x) == b + ("\n" + y) && All(IsNotNewline, x) && All(IsNotNewline, y)
    ensures a == b && x == y
  {
    LastSplitUnique('\n', a, x, b, y);
  }

  lemma LastLine(lines: seq<string>, n: nat)
    requires 0 < n < |lines|
    ensures JoinLines(lines[..n + 1]) == JoinLines(lines[..n]) + ("\n" + lines[n])
  {
    assert lines[..n + 1] == lines[..n] + [lines[n]];
    JoinSnoc(lines[..n], lines[n]);
  }

  lemma FirstTwo(lines: seq<string>)
    requires |lines| > 1
    ensures JoinLines(lines) == lines[0] + ("\n" + JoinLines(lines[1..]))
  {
  }

  lemma SuffixCancels(a: string, x: string, b: string, y: string)
    requires |x| == |y| && a + x == b + y
    ensures a == b && x == y
  {
    assert |a| == |b|;
    ConcatCancels(a, x, b, y);
  }

  function MetadataLine(r: Record): string {
    "metadata=" + MetadataText(r.metadata, SortedStrings(r.metadata.Keys))
  }

  /** The nine lines before the link. */
  function Body(r: Record): string {
    JoinLines(Lines(r)[..9])
  }

  lemma CanonicalEnds(r: Record)
    ensures Canonical(r) == (Body(r) + ("\n" + ("prev_hash=" + Hex(r.prevHash)))) + ("\n" + MetadataLine(r))
  {
    hide JoinLines, DetectionsText, ActionsText, PolicyText, IdentityText, EgressText, MetadataText, HopTag, Hex;
    var a := Lines(r);
    assert a[..11] == a;
    LastLine(a, 10);
    LastLine(a, 9);
  }

  lemma MetadataLinePlain(r: Record)
    requires ValidMetadata(r.metadata)
    ensures All(IsNotNewline, MetadataLine(r))
  {
    MetadataTextOneLine(r.metadata, SortedStrings(r.metadata.Keys));
  }

  lemma MetadataLineInjective(r: Record, q: Record)
    requires ValidMetadata(r.metadata) && ValidMetadata(q.metadata) && MetadataLine(r) == MetadataLine(q)
    ensures r.metadata == q.metadata
  {
    hide MetadataText, ValidMetadata;
    ConcatCancels("metadata=", MetadataText(r.metadata, SortedStrings(r.metadata.Keys)),
                  "metadata=", MetadataText(q.metadata, SortedStrings(q.metadata.Keys)));
    MetadataInjective(r.metadata, q.metadata);
  }

  /** Whatever the free strings contain, newlines and delimiters included, the
      canonical text of a record whose metadata the builder accepted determines
      its seq, its link to the record before, and its metadata. */
  lemma CanonicalDetermines(r: Record, q: Record)
    requires Canonical(r) == Canonical(q) && ValidMetadata(r.metadata) && ValidMetadata(q.metadata)
    ensures r.seqNo == q.seqNo && r.prevHash == q.prevHash && r.metadata == q.metadata
  {
    hide Canonical, Body, MetadataLine, ValidMetadata, Hex;
    SeqFirst(r, q);
    CanonicalEnds(r);
    CanonicalEnds(q);
    MetadataLinePlain(r);
    MetadataLinePlain(q);
    var x, y := "prev_hash=" + Hex(r.prevHash), "prev_hash=" + Hex(q.prevHash);
    LastLineUnique(Body(r) + ("\n" + x), MetadataLine(r), Body(q) + ("\n" + y), MetadataLine(q));
    MetadataLineInjective(r, q);
    SuffixCancels(Body(r), "\n" + x, Body(q), "\n" + y);
    ConcatCancels("\n", x, "\n", y);
    ConcatCancels("prev_hash=", Hex(r.prevHash), "prev_hash=", Hex(q.prevHash));
    HexInjective(r.prevHash, q.prevHash);
  }

  /** The first line is the seq, so it is read back from any canonical text. */
  lemma SeqFirst(r: Record, q: Record)
    requires Canonical(r) == Canonical(q)
    ensures r.seqNo == q.seqNo
  {
    hide JoinLines, DetectionsText, ActionsText, PolicyText, IdentityText, EgressText, MetadataText, HopTag, Hex;
    var a, b := Lines(r), Lines(q);
    FirstTwo(a);
    FirstTwo(b);
    SplitUnique(IsNotNewline, a[0], "\n" + JoinLines(a[1..]), b[0], "\n" + JoinLines(b[1..]));
    ConcatCancels("seq=", Decimal(r.seqNo), "seq=", Decimal(q.seqNo));
    DecimalInjective(r.seqNo, q.seqNo);
  }
}
