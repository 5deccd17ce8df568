/** Two records whose free strings hold no delimiter have one canonical text only if
    all they show is equal; `RecordTwins` says when one record alone is determined
    by its text. Without validated metadata not even the link to the record before
    is determined. */
module RecordFields {
  import opened Ordering
  import opened Text
  import Lists
  import opened HashLinks
  import opened LedgerRecord
  import opened CanonicalRecord

  /** No delimiter of the canonical text. */
  predicate IsPlainChar(c: char) {
    c != '\n' && c != '|' && c != '(' && c != ')'
  }

  predicate IsPlain(s: string) {
    All(IsPlainChar, s)
  }

  /** The free strings of a record. Nothing checks them in the builder. */
  predicate PlainRecord(r: Record) {
    && IsPlain(r.ts)
    && (forall i :: 0 <= i < |r.detections| ==> IsPlain(r.detections[i].entityType))
    && (forall i :: 0 <= i < |r.actions| ==>
          IsPlain(r.actions[i].entityType) && IsPlain(OrElse(r.actions[i].tokenRef, "")))
    && IsPlain(r.policy.packId) && IsPlain(r.policy.packVersion) && IsPlain(r.policy.ruleId)
    && IsPlain(r.identities.upstream) && IsPlain(r.identities.region) && IsPlain(r.egress.destination)
  }

  /** An absent token reference and an empty one are written alike. */
  function ReadAction(a: Action): Action {
    Action(a.entityType, a.kind, Some(OrElse(a.tokenRef, "")))
  }

  function ReadActions(actions: seq<Action>): seq<Action> {
    if actions == [] then [] else [ReadAction(actions[0])] + ReadActions(actions[1..])
  }

  // ----- tuples -----

  predicate PlainFields(fields: seq<string>) {
    fields != [] && forall i :: 0 <= i < |fields| ==> IsPlain(fields[i])
  }

  lemma {:induction false} BarsUnique(f: seq<string>, x: string, g: seq<string>, y: string)
    requires PlainFields(f) && PlainFields(g) && |f| == |g|
    requires Bars(f) + (")" + x) == Bars(g) + (")" + y)
    ensures f == g && x == y
  {
    if |f| == 1 {
      SplitUnique(IsPlainChar, f[0], ")" + x, g[0], ")" + y);
      ConcatCancels(")", x, ")", y);
    } else {
      var p, q := Bars(f[1..]) + (")" + x), Bars(g[1..]) + (")" + y);
      BarsThen(f, x);
      BarsThen(g, y);
      hide Bars;
      SplitUnique(IsPlainChar, f[0], "|" + p, g[0], "|" + q);
      ConcatCancels("|", p, "|", q);
      BarsUnique(f[1..], x, g[1..], y);
      assert f == [f[0]] + f[1..] && g == [g[0]] + g[1..];
    }
  }

  lemma BarsThen(f: seq<string>, x: string)
    requires |f| > 1
    ensures Bars(f) + (")" + x) == f[0] + ("|" + (Bars(f[1..]) + (")" + x)))
  {
    var rest := Bars(f[1..]);
    assert Bars(f) == f[0] + ("|" + rest);
    hide Bars;
    Lists.ConcatAssociates(f[0], "|" + rest, ")" + x);
    Lists.ConcatAssociates("|", rest, ")" + x);
  }

  lemma TupleUnique(f: seq<string>, x: string, g: seq<string>, y: string)
    requires PlainFields(f) && PlainFields(g) && |f| == |g|
    requires Tuple(f) + x == Tuple(g) + y
    ensures f == g && x == y
  {
    hide Bars;
    TupleThen(f, x);
    TupleThen(g, y);
    ConcatCancels("(", Bars(f) + (")" + x), "(", Bars(g) + (")" + y));
    BarsUnique(f, x, g, y);
  }

  lemma TupleThen(f: seq<string>, x: string)
    requires f != []
    ensures Tuple(f) + x == "(" + (Bars(f) + (")" + x))
  {
    hide Bars;
    Lists.ConcatAssociates("(", Bars(f) + ")", x);
    Lists.ConcatAssociates(Bars(f), ")", x);
  }

  // ----- lists of tuples -----

  lemma DecimalPlain(n: nat)
    ensures IsPlain(Decimal(n))
  {
    assert AllDecimal(Decimal(n));
  }

  lemma DetectorTagPlain(d: Detector)
    ensures IsPlain(DetectorTag(d))
  {
  }

  lemma KindTagPlain(k: ActionKind)
    ensures IsPlain(KindTag(k))
  {
  }

  lemma DecisionTagPlain(d: PolicyDecision)
    ensures IsPlain(DecisionTag(d))
  {
  }

  predicate IsControlPlane(h: Hop) {
    h.ReleaseRegistered? || h.ReleasePromoted? || h.ReleaseCertified? || h.CertificationRevoked?
      || h.OperationReconciled?
  }

  lemma ControlPlaneTagPlain(h: Hop)
    requires IsControlPlane(h)
    ensures IsPlain(HopTag(h))
  {
  }

  lemma CallTagPlain(h: Hop)
    requires h.LlmPrompt? || h.LlmResponse? || h.McpToolCall? || h.McpToolResult?
    ensures IsPlain(HopTag(h))
  {
  }

  lemma OtherTagPlain(h: Hop)
    requires h.SubAgentMsg? || h.MemoryWrite? || h.RetrievalResult? || h.Unmask?
    ensures IsPlain(HopTag(h))
  {
  }

  lemma HopTagPlain(h: Hop)
    ensures IsPlain(HopTag(h))
  {
    hide HopTag;
    if IsControlPlane(h) {
      ControlPlaneTagPlain(h);
    } else if h.LlmPrompt? || h.LlmResponse? || h.McpToolCall? || h.McpToolResult? {
      CallTagPlain(h);
    } else {
      OtherTagPlain(h);
    }
  }

  lemma TagsInjective()
    ensures forall a, b :: DetectorTag(a) == DetectorTag(b) ==> a == b
    ensures forall a, b :: KindTag(a) == KindTag(b) ==> a == b
    ensures forall a, b :: DecisionTag(a) == DecisionTag(b) ==> a == b
  {
  }

  lemma HopTagInjective(a: Hop, b: Hop)
    requires HopTag(a) == HopTag(b)
    ensures a == b
  {
  }

  function DetectionFields(d: Detection): seq<string> {
    [d.entityType, Decimal(d.count), DetectorTag(d.detector), "<confidence>"]
  }

  lemma DetectionFieldsInjective(d: Detection, e: Detection)
    requires DetectionFields(d) == DetectionFields(e)
    ensures d == e
  {
    var f, g := DetectionFields(d), DetectionFields(e);
    assert f[0] == g[0] && f[1] == g[1] && f[2] == g[2];
    DecimalInjective(d.count, e.count);
    TagsInjective();
  }

  lemma {:induction false} DetectionsUnique(ds: seq<Detection>, es: seq<Detection>)
    requires forall i :: 0 <= i < |ds| ==> IsPlain(ds[i].entityType)
    requires forall i :: 0 <= i < |es| ==> IsPlain(es[i].entityType)
    requires DetectionsText(ds) == DetectionsText(es)
    ensures ds == es
  {
    if ds != [] && es != [] {
      var d, e := ds[0], es[0];
      DecimalPlain(d.count);
      DecimalPlain(e.count);
      DetectorTagPlain(d.detector);
      DetectorTagPlain(e.detector);
      hide Tuple, Decimal, DetectorTag;
      TupleUnique(DetectionFields(d), DetectionsText(ds[1..]), DetectionFields(e), DetectionsText(es[1..]));
      DetectionFieldsInjective(d, e);
      DetectionsUnique(ds[1..], es[1..]);
      assert ds == [d] + ds[1..] && es == [e] + es[1..];
    } else {
      TextsNonEmpty(ds, es);
    }
  }

  lemma TextsNonEmpty(ds: seq<Detection>, es: seq<Detection>)
    ensures ds != [] ==> DetectionsText(ds) != ""
    ensures es != [] ==> DetectionsText(es) != ""
  {
  }

  function ActionFields(a: Action): seq<string> {
    [a.entityType, KindTag(a.kind), OrElse(a.tokenRef, "")]
  }

  lemma {:induction false} ActionsUnique(xs: seq<Action>, ys: seq<Action>)
    requires forall i :: 0 <= i < |xs| ==> IsPlain(xs[i].entityType) && IsPlain(OrElse(xs[i].tokenRef, ""))
    requires forall i :: 0 <= i < |ys| ==> IsPlain(ys[i].entityType) && IsPlain(OrElse(ys[i].tokenRef, ""))
    requires ActionsText(xs) == ActionsText(ys)
    ensures ReadActions(xs) == ReadActions(ys)
  {
    if xs != [] && ys != [] {
      var x, y := xs[0], ys[0];
      KindTagPlain(x.kind);
      KindTagPlain(y.kind);
      TagsInjective();
      hide Tuple, KindTag;
      var f, g := ActionFields(x), ActionFields(y);
      assert ActionText(x) == Tuple(f) && ActionText(y) == Tuple(g);
      TupleUnique(f, ActionsText(xs[1..]), g, ActionsText(ys[1..]));
      assert f[0] == g[0] && f[1] == g[1] && f[2] == g[2];
      ActionsUnique(xs[1..], ys[1..]);
    } else {
      ActionTextsNonEmpty(xs, ys);
    }
  }

  lemma ActionTextsNonEmpty(xs: seq<Action>, ys: seq<Action>)
    ensures xs != [] ==> ActionsText(xs) != ""
    ensures ys != [] ==> ActionsText(ys) != ""
  {
  }

  // ----- single tuples -----

  function PolicyFields(p: Policy): seq<string> {
    [p.packId, p.packVersion, p.ruleId, DecisionTag(p.decision)]
  }

  lemma PolicyUnique(p: Policy, q: Policy)
    requires IsPlain(p.packId) && IsPlain(p.packVersion) && IsPlain(p.ruleId)
    requires IsPlain(q.packId) && IsPlain(q.packVersion) && IsPlain(q.ruleId)
    requires PolicyText(p) == PolicyText(q)
    ensures p == q
  {
    DecisionTagPlain(p.decision);
    DecisionTagPlain(q.decision);
    TagsInjective();
    hide Tuple, DecisionTag;
    var f, g := PolicyFields(p), PolicyFields(q);
    assert Tuple(f) + "" == Tuple(f) && Tuple(g) + "" == Tuple(g);
    TupleUnique(f, "", g, "");
    assert f[0] == g[0] && f[1] == g[1] && f[2] == g[2] && f[3] == g[3];
  }

  lemma UuidPlain(u: Uuid)
    ensures IsPlain(u) && u != "-"
  {
  }

  function PrincipalText(p: Option<Uuid>): string {
    if p.Some? then p.value else "-"
  }

  lemma PrincipalTextInjective(p: Option<Uuid>, q: Option<Uuid>)
    ensures IsPlain(PrincipalText(p)) && (PrincipalText(p) == PrincipalText(q) ==> p == q)
  {
    if p.Some? {
      UuidPlain(p.value);
    }
    if q.Some? {
      UuidPlain(q.value);
    }
  }

  function IdentityFields(i: Identity): seq<string> {
    [i.agentId, PrincipalText(i.humanPrincipal), i.upstream, i.region]
  }

  lemma IdentityUnique(p: Identity, q: Identity)
    requires IsPlain(p.upstream) && IsPlain(p.region) && IsPlain(q.upstream) && IsPlain(q.region)
    requires IdentityText(p) == IdentityText(q)
    ensures p == q
  {
    UuidPlain(p.agentId);
    UuidPlain(q.agentId);
    PrincipalTextInjective(p.humanPrincipal, q.humanPrincipal);
    PrincipalTextInjective(q.humanPrincipal, p.humanPrincipal);
    var f, g := IdentityFields(p), IdentityFields(q);
    assert IdentityText(p) == Tuple(f) && IdentityText(q) == Tuple(g);
    hide Tuple, PrincipalText;
    assert Tuple(f) + "" == Tuple(f) && Tuple(g) + "" == Tuple(g);
    TupleUnique(f, "", g, "");
    assert f[0] == g[0] && f[1] == g[1] && f[2] == g[2] && f[3] == g[3];
  }

  lemma HexIsPlain(h: Digest)
    ensures IsPlain(Hex(h))
  {
    HexPlain(h);
    assert forall i :: 0 <= i < |Hex(h)| ==> Hex(h)[i] in Hex(h);
  }

  lemma EgressUnique(p: Egress, q: Egress)
    requires IsPlain(p.destination) && IsPlain(q.destination) && EgressText(p) == EgressText(q)
    ensures p == q
  {
    HexIsPlain(p.bytesOutHash);
    HexIsPlain(q.bytesOutHash);
    hide Tuple, Hex;
    var f, g := [p.destination, Hex(p.bytesOutHash)], [q.destination, Hex(q.bytesOutHash)];
    assert Tuple(f) + "" == Tuple(f) && Tuple(g) + "" == Tuple(g);
    TupleUnique(f, "", g, "");
    assert f[0] == g[0] && f[1] == g[1];
    HexInjective(p.bytesOutHash, q.bytesOutHash);
  }

  // ----- lines -----

  predicate IsLine(s: string) {
    All(IsNotNewline, s)
  }

  lemma {:induction false} JoinUnique(a: seq<string>, b: seq<string>)
    requires a != [] && |a| == |b| && JoinLines(a) == JoinLines(b)
    requires forall i :: 0 <= i < |a| ==> IsLine(a[i]) && IsLine(b[i])
    ensures a == b
  {
    if |a| > 1 {
      FirstTwo(a);
      FirstTwo(b);
      var x, y := JoinLines(a[1..]), JoinLines(b[1..]);
      hide JoinLines;
      SplitUnique(IsNotNewline, a[0], "\n" + x, b[0], "\n" + y);
      ConcatCancels("\n", x, "\n", y);
      JoinUnique(a[1..], b[1..]);
      assert a == [a[0]] + a[1..] && b == [b[0]] + b[1..];
    }
  }

  lemma {:induction false} BarsLine(fields: seq<string>)
    requires fields != [] && forall i :: 0 <= i < |fields| ==> IsLine(fields[i])
    ensures IsLine(Bars(fields))
  {
    if |fields| > 1 {
      BarsLine(fields[1..]);
    }
  }

  lemma TupleLine(fields: seq<string>)
    requires fields != [] && forall i :: 0 <= i < |fields| ==> IsLine(fields[i])
    ensures IsLine(Tuple(fields))
  {
    BarsLine(fields);
    hide Bars;
  }

  lemma {:induction false} DetectionsLine(ds: seq<Detection>)
    requires forall i :: 0 <= i < |ds| ==> IsLine(ds[i].entityType)
    ensures IsLine(DetectionsText(ds))
  {
    if ds != [] {
      var d := ds[0];
      DecimalPlain(d.count);
      DetectorTagPlain(d.detector);
      TupleLine(DetectionFields(d));
      DetectionsLine(ds[1..]);
      hide Tuple, Decimal, DetectorTag;
    }
  }

  lemma {:induction false} ActionsLine(xs: seq<Action>)
    requires forall i :: 0 <= i < |xs| ==> IsLine(xs[i].entityType) && IsLine(OrElse(xs[i].tokenRef, ""))
    ensures IsLine(ActionsText(xs))
  {
    if xs != [] {
      KindTagPlain(xs[0].kind);
      assert ActionText(xs[0]) == Tuple(ActionFields(xs[0]));
      TupleLine(ActionFields(xs[0]));
      ActionsLine(xs[1..]);
      hide Tuple, KindTag;
    }
  }

  lemma PolicyLine(p: Policy)
    requires IsLine(p.packId) && IsLine(p.packVersion) && IsLine(p.ruleId)
    ensures IsLine(PolicyText(p))
  {
    DecisionTagPlain(p.decision);
    TupleLine(PolicyFields(p));
    hide Tuple, DecisionTag;
  }

  lemma IdentityLine(p: Identity)
    requires IsLine(p.upstream) && IsLine(p.region)
    ensures IsLine(IdentityText(p))
  {
    UuidPlain(p.agentId);
    PrincipalTextInjective(p.humanPrincipal, p.humanPrincipal);
    assert IdentityText(p) == Tuple(IdentityFields(p));
    hide Tuple, PrincipalText;
    TupleLine(IdentityFields(p));
  }

  lemma EgressLine(p: Egress)
    requires IsLine(p.destination)
    ensures IsLine(EgressText(p))
  {
    HexIsPlain(p.bytesOutHash);
    hide Tuple, Hex;
    TupleLine([p.destination, Hex(p.bytesOutHash)]);
  }

  /** No free string of the record has a newline. */
  predicate LineRecord(r: Record) {
    && IsLine(r.ts)
    && (forall i :: 0 <= i < |r.detections| ==> IsLine(r.detections[i].entityType))
    && (forall i :: 0 <= i < |r.actions| ==>
          IsLine(r.actions[i].entityType) && IsLine(OrElse(r.actions[i].tokenRef, "")))
    && IsLine(r.policy.packId) && IsLine(r.policy.packVersion) && IsLine(r.policy.ruleId)
    && IsLine(r.identities.upstream) && IsLine(r.identities.region) && IsLine(r.egress.destination)
  }

  lemma PlainIsLine(r: Record)
    requires PlainRecord(r)
    ensures LineRecord(r)
  {
  }

  /** In such a record every one of the eleven parts is one line. */
  lemma LinesAreLines(r: Record, i: nat)
    requires LineRecord(r) && ValidMetadata(r.metadata) && i < 11
    ensures IsLine(Lines(r)[i])
  {
    hide DetectionsText, ActionsText, PolicyText, IdentityText, EgressText, MetadataText, HopTag, Hex, Decimal,
      ValidMetadata;
    if i == 0 { DecimalPlain(r.seqNo); }
    else if i == 2 { UuidPlain(r.tenantId); }
    else if i == 3 { HopTagPlain(r.hop); }
    else if i == 4 { DetectionsLine(r.detections); }
    else if i == 5 { ActionsLine(r.actions); }
    else if i == 6 { PolicyLine(r.policy); }
    else if i == 7 { IdentityLine(r.identities); }
    else if i == 8 { EgressLine(r.egress); }
    else if i == 9 { HexIsPlain(r.prevHash); }
    else if i == 10 { MetadataLinePlain(r); }
  }

  /** What the canonical text shows of a record: everything but the record's own
      hash, with an absent token reference read as an empty one. */
  function Visible(r: Record): Record {
    Record(r.seqNo, r.ts, r.tenantId, r.hop, r.detections, ReadActions(r.actions), r.policy, r.identities, r.egress,
           r.metadata, r.prevHash, ZERO_DIGEST)
  }

  /** Lines that are equal part by part come from the same visible record. */
  lemma LinesDetermine(r: Record, q: Record)
    requires PlainRecord(r) && PlainRecord(q) && Lines(r) == Lines(q)
    requires r.seqNo == q.seqNo && r.prevHash == q.prevHash && r.metadata == q.metadata
    ensures Visible(r) == Visible(q)
  {
    hide DetectionsText, ActionsText, PolicyText, IdentityText, EgressText, MetadataText, HopTag, Hex, Decimal,
      ReadActions;
    var a, b := Lines(r), Lines(q);
    assert forall i :: 0 <= i < 11 ==> a[i] == b[i];
    ConcatCancels("ts=", r.ts, "ts=", q.ts);
    ConcatCancels("tenant_id=", r.tenantId, "tenant_id=", q.tenantId);
    ConcatCancels("hop=", HopTag(r.hop), "hop=", HopTag(q.hop));
    HopTagInjective(r.hop, q.hop);
    ConcatCancels("detections=", DetectionsText(r.detections), "detections=", DetectionsText(q.detections));
    DetectionsUnique(r.detections, q.detections);
    ConcatCancels("actions=", ActionsText(r.actions), "actions=", ActionsText(q.actions));
    ActionsUnique(r.actions, q.actions);
    ConcatCancels("policy=", PolicyText(r.policy), "policy=", PolicyText(q.policy));
    PolicyUnique(r.policy, q.policy);
    ConcatCancels("identities=", IdentityText(r.identities), "identities=", IdentityText(q.identities));
    IdentityUnique(r.identities, q.identities);
    ConcatCancels("egress=", EgressText(r.egress), "egress=", EgressText(q.egress));
    EgressUnique(r.egress, q.egress);
  }

  lemma {:induction false} ReadActionsSameText(xs: seq<Action>)
    ensures ActionsText(ReadActions(xs)) == ActionsText(xs)
  {
    if xs != [] {
      ReadActionsSameText(xs[1..]);
      var read := ReadActions(xs);
      assert read[0] == ReadAction(xs[0]) && read[1..] == ReadActions(xs[1..]);
      assert ActionText(ReadAction(xs[0])) == ActionText(xs[0]);
    }
  }

  lemma VisibleSuffices(r: Record, q: Record)
    requires Visible(r) == Visible(q)
    ensures Canonical(r) == Canonical(q)
  {
    ReadActionsSameText(r.actions);
    ReadActionsSameText(q.actions);
    hide ReadActions, JoinLines, DetectionsText, ActionsText, PolicyText, IdentityText, EgressText, MetadataText,
      HopTag, Hex, Decimal;
    assert Visible(r).actions == ReadActions(r.actions) && Visible(q).actions == ReadActions(q.actions);
    assert Lines(r) == Lines(q);
  }

  /** Among records whose free strings hold no delimiter, the canonical text is a
      one-to-one encoding of everything it is meant to cover. */
  lemma CanonicalInjective(r: Record, q: Record)
    requires PlainRecord(r) && PlainRecord(q) && ValidMetadata(r.metadata) && ValidMetadata(q.metadata)
    ensures Canonical(r) == Canonical(q) <==> Visible(r) == Visible(q)
  {
    if Visible(r) == Visible(q) {
      VisibleSuffices(r, q);
    }
    if Canonical(r) == Canonical(q) {
      CanonicalDetermines(r, q);
      PlainIsLine(r);
      PlainIsLine(q);
      forall i | 0 <= i < 11 ensures IsLine(Lines(r)[i]) && IsLine(Lines(q)[i]) {
        LinesAreLines(r, i);
        LinesAreLines(q, i);
      }
      hide PlainRecord, ValidMetadata, Visible, Lines;
      LineCount(r);
      LineCount(q);
      JoinUnique(Lines(r), Lines(q));
      LinesDetermine(r, q);
    }
  }

  lemma LineCount(r: Record)
    ensures |Lines(r)| == 11
  {
  }

  // ----- without validation -----

  const OUT := Hex(ZERO_DIGEST)

  /** A record with one opaque id, free destination and free link. */
  function Forged(dest: string, link: Digest, id: string): Record {
    Record(0, "", NIL_UUID, LlmPrompt, [], [], DEFAULT_POLICY, DEFAULT_IDENTITY, Egress(dest, ZERO_DIGEST),
           map["k" := MOpaqueId(id)], link, ZERO_DIGEST)
  }

  function Front(): string {
    JoinLines(Lines(Forged("", ZERO_DIGEST, ""))[..8])
  }

  const TO_LINK := ("|" + OUT) + (")" + ("\n" + "prev_hash="))
  const TO_ID := "\n" + ("metadata=" + ("k" + ("=" + "id:")))

  /** The canonical text of such a record, flattened. */
  function Flat(dest: string, link: Digest, id: string): string {
    Front() + (("\n" + ("egress=" + "(")) + (dest + (TO_LINK + (Hex(link) + (TO_ID + (id + ";"))))))
  }

  lemma RegroupSix(a: string, b: string, c: string, d: string, e: string, f: string)
    ensures a + (b + (c + (d + (e + f)))) == (a + (b + (c + (d + e)))) + f
  {
    Lists.ConcatRegroups(c, d, e, f);
    Lists.ConcatRegroups(a, b, c + (d + e), f);
  }

  /** Three lines with their pieces named, reassociated. */
  lemma Flatten(front: string, open: string, dest: string, bar: string, nl: string, prev: string, link: string,
                rest: string)
    ensures ((front + (open + ((dest + bar) + ")"))) + (nl + (prev + link))) + rest
            == front + (open + (dest + ((bar + (")" + (nl + prev))) + (link + rest))))
  {
    Lists.ConcatAssociates(nl, prev, link);
    Lists.ConcatAssociates(dest, bar, ")");
    var p := nl + prev;
    Lists.ConcatAssociates(front + (open + (dest + (bar + ")"))), p + link, rest);
    Lists.ConcatAssociates(p, link, rest);
    var tail := p + (link + rest);
    Lists.ConcatRegroups(open, dest, bar + ")", tail);
    Lists.ConcatAssociates(front, open + (dest + (bar + ")")), tail);
    Lists.ConcatAssociates(bar, ")", tail);
    Lists.ConcatRegroups(bar, ")", p, link + rest);
  }

  lemma ForgedText(dest: string, link: Digest, id: string)
    ensures Canonical(Forged(dest, link, id)) == Flat(dest, link, id)
  {
    var r := Forged(dest, link, id);
    CanonicalEnds(r);
    BodyText(dest, link, id);
    OneKey(id);
    hide Canonical, Body, Front, Hex, MetadataText;
    var open := "\n" + ("egress=" + "(");
    Lists.ConcatRegroups("\n", "egress=", "(", (dest + ("|" + OUT)) + ")");
    RegroupSix("\n", "metadata=", "k", "=", "id:", id + ";");
    Flatten(Front(), open, dest, "|" + OUT, "\n", "prev_hash=", Hex(link), TO_ID + (id + ";"));
  }

  lemma BodyText(dest: string, link: Digest, id: string)
    ensures Body(Forged(dest, link, id)) == Front() + ("\n" + ("egress=" + ("(" + ((dest + ("|" + OUT)) + ")"))))
  {
    hide DetectionsText, ActionsText, PolicyText, IdentityText, MetadataText, HopTag, Hex, Decimal;
    var a, b := Lines(Forged(dest, link, id)), Lines(Forged("", ZERO_DIGEST, ""));
    LastLine(a, 8);
    SameFront(dest, link, id);
    EgressParts(dest);
    hide JoinLines, EgressText;
  }

  lemma SameFront(dest: string, link: Digest, id: string)
    ensures Lines(Forged(dest, link, id))[..8] == Lines(Forged("", ZERO_DIGEST, ""))[..8]
  {
    hide DetectionsText, ActionsText, PolicyText, IdentityText, EgressText, MetadataText, HopTag, Hex, Decimal;
  }

  lemma EgressParts(dest: string)
    ensures EgressText(Egress(dest, ZERO_DIGEST)) == "(" + ((dest + ("|" + OUT)) + ")")
  {
    hide Hex;
    var f := [dest, OUT];
    assert f[1..] == [OUT] && Bars([OUT]) == OUT;
    assert EgressText(Egress(dest, ZERO_DIGEST)) == Tuple(f);
  }

  lemma OneKey(id: string)
    ensures MetadataText(map["k" := MOpaqueId(id)], SortedStrings(map["k" := MOpaqueId(id)].Keys))
            == "k" + ("=" + ("id:" + (id + ";")))
  {
    var m := map["k" := MOpaqueId(id)];
    assert m.Keys == {"k"} && {"k"} - {"k"} == {};
    assert SortedStrings(m.Keys) == ["k"];
    assert MetadataText(m, []) == "" && ";" + "" == ";";
    Lists.ConcatAssociates("id:", id, ";");
  }

  /** Metadata that was not validated can move the link: for any two links there
      are records that name them and have the same canonical text. */
  lemma UnvalidatedMetadataMovesLink(p: Digest, q: Digest)
    ensures exists r: Record, s: Record :: r.prevHash == p && s.prevHash == q && Canonical(r) == Canonical(s)
  {
    var id, dest := TO_LINK + (Hex(q) + TO_ID), TO_LINK + (Hex(p) + TO_ID);
    ForgedText("", p, id);
    ForgedText(dest, q, "");
    hide Canonical, Hex, Front;
    Lists.ConcatRegroups(TO_LINK, Hex(q), TO_ID, ";");
    Lists.ConcatRegroups(TO_LINK, Hex(p), TO_ID, id + ";");
    assert "" + (TO_LINK + (Hex(p) + (TO_ID + (id + ";")))) == TO_LINK + (Hex(p) + (TO_ID + (id + ";")));
    assert "" + ";" == ";";
    var r, s := Forged("", p, id), Forged(dest, q, "");
    assert r.prevHash == p && s.prevHash == q && Canonical(r) == Canonical(s);
  }
}
