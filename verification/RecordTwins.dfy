/** When the canonical text of a record determines it: exactly the records that no
    other record the builder accepts is written like. */
module RecordTwins {
  import opened Text
  import Lists
  import opened HashLinks
  import opened LedgerRecord
  import opened CanonicalRecord
  import opened RecordFields

  // ----- counting separators -----

  function Marks(c: char, s: string): nat {
    if s == "" then 0 else (if s[0] == c then 1 else 0) + Marks(c, s[1..])
  }

  lemma {:induction false} MarksConcat(c: char, a: string, b: string)
    ensures Marks(c, a + b) == Marks(c, a) + Marks(c, b)
  {
    if a == "" {
      assert a + b == b;
    } else {
      MarksConcat(c, a[1..], b);
      assert (a + b)[1..] == a[1..] + b;
    }
  }

  lemma {:induction false} MarksNone(c: char, s: string)
    ensures Marks(c, s) == 0 <==> Avoids(c, s)
  {
    if s != "" {
      MarksNone(c, s[1..]);
      assert forall i :: 0 < i < |s| ==> s[i] == s[1..][i - 1];
    }
  }

  function Join(c: char, parts: seq<string>): string
    requires parts != []
  {
    if |parts| == 1 then parts[0] else parts[0] + ([c] + Join(c, parts[1..]))
  }

  lemma {:induction false} BarsAreJoined(fields: seq<string>)
    requires fields != []
    ensures Bars(fields) == Join('|', fields)
  {
    if |fields| > 1 {
      BarsAreJoined(fields[1..]);
    }
  }

  lemma {:induction false} LinesAreJoined(lines: seq<string>)
    requires lines != []
    ensures JoinLines(lines) == Join('\n', lines)
  {
    if |lines| > 1 {
      LinesAreJoined(lines[1..]);
    }
  }

  ghost predicate AllAvoid(c: char, parts: seq<string>) {
    forall i :: 0 <= i < |parts| ==> Avoids(c, parts[i])
  }

  /** A joined text has a separator between any two parts, and no others exactly
      when no part holds one. */
  lemma {:induction false} JoinMarks(c: char, parts: seq<string>)
    requires parts != []
    ensures Marks(c, Join(c, parts)) >= |parts| - 1
    ensures Marks(c, Join(c, parts)) == |parts| - 1 <==> AllAvoid(c, parts)
  {
    hide Avoids, Marks;
    MarksNone(c, parts[0]);
    if |parts| > 1 {
      var rest := Join(c, parts[1..]);
      JoinMarks(c, parts[1..]);
      MarksConcat(c, parts[0], [c] + rest);
      MarksConcat(c, [c], rest);
      OneMarkOnly(c);
      assert parts == [parts[0]] + parts[1..];
    }
  }

  lemma OneMarkOnly(c: char)
    ensures Marks(c, [c]) == 1
  {
    assert [c][1..] == "" && Marks(c, "") == 0;
  }

  lemma {:induction false} JoinSplits(c: char, f: seq<string>, g: seq<string>)
    requires f != [] && |f| == |g| && AllAvoid(c, f) && AllAvoid(c, g) && Join(c, f) == Join(c, g)
    ensures f == g
  {
    if |f| > 1 {
      FirstSplit(c, f[0], Join(c, f[1..]), g[0], Join(c, g[1..]));
      JoinSplits(c, f[1..], g[1..]);
      assert f == [f[0]] + f[1..] && g == [g[0]] + g[1..];
    }
  }

  lemma FirstSplit(c: char, a: string, x: string, b: string, y: string)
    requires Avoids(c, a) && Avoids(c, b) && a + ([c] + x) == b + ([c] + y)
    ensures a == b && x == y
  {
    SplitUnique(d => d != c, a, [c] + x, b, [c] + y);
    ConcatCancels([c], x, [c], y);
  }

  /** If the parts of one text hold no separator, no other parts, as many, give it:
      nothing is asked of the others. */
  lemma JoinOneSided(c: char, f: seq<string>, g: seq<string>)
    requires f != [] && |f| == |g| && AllAvoid(c, f) && Join(c, f) == Join(c, g)
    ensures f == g
  {
    hide AllAvoid, Join, Marks;
    JoinMarks(c, f);
    JoinMarks(c, g);
    JoinSplits(c, f, g);
  }

  predicate NoBars(s: string) {
    Avoids('|', s)
  }

  lemma TupleCancels(f: seq<string>, g: seq<string>)
    requires f != [] && |f| == |g| && Tuple(f) == Tuple(g)
    ensures Join('|', f) == Join('|', g)
  {
    hide Bars, Join;
    BarsAreJoined(f);
    BarsAreJoined(g);
    ConcatCancels("(", Bars(f) + ")", "(", Bars(g) + ")");
    SuffixCancels(Bars(f), ")", Bars(g), ")");
  }

  lemma PlainHasNoBars(s: string)
    requires IsPlain(s)
    ensures NoBars(s)
  {
  }

  lemma SplitAtBar(s: string) returns (x: string, y: string)
    requires !NoBars(s)
    ensures s == x + ("|" + y)
  {
    var i :| 0 <= i < |s| && s[i] == '|';
    x, y := s[..i], s[i + 1..];
  }

  // ----- policies and identities -----

  predicate PolicyExact(p: Policy) {
    NoBars(p.packId) && NoBars(p.packVersion) && NoBars(p.ruleId)
  }

  lemma PolicyOneSided(p: Policy, q: Policy)
    requires PolicyExact(p) && PolicyText(p) == PolicyText(q)
    ensures p == q
  {
    DecisionTagPlain(p.decision);
    PlainHasNoBars(DecisionTag(p.decision));
    TagsInjective();
    hide Tuple, DecisionTag, Join, Avoids;
    var f, g := PolicyFields(p), PolicyFields(q);
    TupleCancels(f, g);
    JoinOneSided('|', f, g);
    assert f[0] == g[0] && f[1] == g[1] && f[2] == g[2] && f[3] == g[3];
  }

  lemma FourFields(a: string, b: string, c: string, d: string)
    ensures Tuple([a, b, c, d]) == "(" + ((a + ("|" + (b + ("|" + (c + ("|" + d)))))) + ")")
  {
    var f, g, h := [a, b, c, d], [b, c, d], [c, d];
    assert f[1..] == g && g[1..] == h && h[1..] == [d];
    assert Bars([d]) == d && Bars(h) == c + ("|" + d);
    assert Bars(g) == b + ("|" + Bars(h)) && Bars(f) == a + ("|" + Bars(g));
  }

  /** A bar inside a field may as well be the one that ends it. */
  lemma BarMoves(x: string, y: string, b: string, rest: string)
    ensures (x + ("|" + y)) + ("|" + (b + rest)) == x + ("|" + ((y + ("|" + b)) + rest))
  {
    assert (y + ("|" + b)) + rest == y + ("|" + (b + rest));
    assert (x + ("|" + y)) + ("|" + (b + rest)) == x + ("|" + (y + ("|" + (b + rest))));
  }

  lemma PolicyTwin(p: Policy) returns (q: Policy)
    requires !PolicyExact(p)
    ensures q != p && PolicyText(q) == PolicyText(p)
  {
    var tag := DecisionTag(p.decision);
    hide Tuple, DecisionTag, Avoids;
    FourFields(p.packId, p.packVersion, p.ruleId, tag);
    if !NoBars(p.packId) {
      var x, y := SplitAtBar(p.packId);
      q := p.(packId := x, packVersion := y + ("|" + p.packVersion));
      BarMoves(x, y, p.packVersion, "|" + (p.ruleId + ("|" + tag)));
    } else if !NoBars(p.packVersion) {
      var x, y := SplitAtBar(p.packVersion);
      q := p.(packId := p.packId + ("|" + x), packVersion := y);
      BarMoves(p.packId, x, y, "|" + (p.ruleId + ("|" + tag)));
    } else {
      var x, y := SplitAtBar(p.ruleId);
      q := p.(packVersion := p.packVersion + ("|" + x), ruleId := y);
      BarMoves(p.packVersion, x, y, "|" + tag);
    }
    FourFields(q.packId, q.packVersion, q.ruleId, tag);
    assert |q.packId| != |p.packId| || |q.ruleId| != |p.ruleId|;
  }

  predicate IdentityExact(p: Identity) {
    NoBars(p.upstream) && NoBars(p.region)
  }

  lemma IdentityOneSided(p: Identity, q: Identity)
    requires IdentityExact(p) && IdentityText(p) == IdentityText(q)
    ensures p == q
  {
    UuidPlain(p.agentId);
    PrincipalTextInjective(p.humanPrincipal, q.humanPrincipal);
    PlainHasNoBars(p.agentId);
    PlainHasNoBars(PrincipalText(p.humanPrincipal));
    var f, g := IdentityFields(p), IdentityFields(q);
    assert IdentityText(p) == Tuple(f) && IdentityText(q) == Tuple(g);
    hide Tuple, PrincipalText, Join, Avoids;
    TupleCancels(f, g);
    JoinOneSided('|', f, g);
    assert f[0] == g[0] && f[1] == g[1] && f[2] == g[2] && f[3] == g[3];
  }

  lemma IdentityTwin(p: Identity) returns (q: Identity)
    requires !IdentityExact(p)
    ensures q != p && IdentityText(q) == IdentityText(p)
  {
    var human := PrincipalText(p.humanPrincipal);
    FourFields(p.agentId, human, p.upstream, p.region);
    hide Tuple, Avoids;
    if !NoBars(p.upstream) {
      var x, y := SplitAtBar(p.upstream);
      q := p.(upstream := x, region := y + ("|" + p.region));
      BarMoves(x, y, p.region, "");
      assert p.region + "" == p.region && q.region + "" == q.region;
    } else {
      var x, y := SplitAtBar(p.region);
      q := p.(upstream := p.upstream + ("|" + x), region := y);
      BarMoves(p.upstream, x, y, "");
      assert y + "" == y && p.region + "" == p.region;
    }
    FourFields(q.agentId, human, q.upstream, q.region);
    assert |q.region| != |p.region|;
  }

  /** The destination may hold anything: the hash after it has a fixed length. */
  lemma EgressOneSided(p: Egress, q: Egress)
    requires EgressText(p) == EgressText(q)
    ensures p == q
  {
    var x, y := Hex(p.bytesOutHash), Hex(q.bytesOutHash);
    var f, g := [p.destination, x], [q.destination, y];
    assert f[1..] == [x] && g[1..] == [y];
    assert Join('|', [x]) == x && Join('|', [y]) == y;
    assert Join('|', f) == p.destination + ("|" + x) && Join('|', g) == q.destination + ("|" + y);
    hide Tuple, Join, Hex;
    TupleCancels(f, g);
    SuffixCancels(p.destination, "|" + x, q.destination, "|" + y);
    ConcatCancels("|", x, "|", y);
    HexInjective(p.bytesOutHash, q.bytesOutHash);
  }

  // ----- detections -----

  /** A detection after its entity type. */
  function Close(d: Detection): string {
    "|" + (Decimal(d.count) + ("|" + (DetectorTag(d.detector) + ("|" + "<confidence>"))))
  }

  lemma DetectionIs(d: Detection)
    ensures DetectionText(d) == "(" + ((d.entityType + Close(d)) + ")")
  {
    hide Tuple, Decimal, DetectorTag;
    FourFields(d.entityType, Decimal(d.count), DetectorTag(d.detector), "<confidence>");
  }

  /** Everything between the first parenthesis and the end of the last detection. */
  function Before(ds: seq<Detection>): string
    requires ds != []
  {
    if |ds| == 1 then ds[0].entityType else Hiding(ds[0].entityType, ds[0], Before(ds[1..]))
  }

  /** An entity type that spells out the end of a detection and the start of one. */
  function Hiding(x: string, d: Detection, y: string): string {
    x + (Close(d) + (")(" + y))
  }

  ghost predicate HidesDetection(e: string) {
    exists x, d, y :: e == Hiding(x, d, y)
  }

  ghost predicate DetectionsExact(ds: seq<Detection>) {
    |ds| <= 1 && forall d :: d in ds ==> !HidesDetection(d.entityType)
  }

  lemma HidingMerges(x: string, d: Detection, y: string, rest: string)
    ensures ("(" + ((x + Close(d)) + ")")) + ("(" + (y + rest)) == "(" + (Hiding(x, d, y) + rest)
  {
    hide Close;
    var a := x + Close(d);
    assert Hiding(x, d, y) == a + (")(" + y);
    assert ("(" + (a + ")")) + ("(" + (y + rest)) == "(" + ((a + (")(" + y)) + rest);
  }

  lemma {:induction false} DetectionsShape(ds: seq<Detection>)
    requires ds != []
    ensures DetectionsText(ds) == "(" + (Before(ds) + (Close(ds[|ds| - 1]) + ")"))
  {
    hide Close, DetectionText, Hiding;
    var d, close := ds[0], Close(ds[|ds| - 1]) + ")";
    DetectionIs(d);
    if |ds| == 1 {
      assert ds[1..] == [] && DetectionsText(ds) == DetectionText(d);
      Lists.ConcatAssociates(d.entityType, Close(d), ")");
    } else {
      assert DetectionsText(ds) == DetectionText(d) + DetectionsText(ds[1..]);
      hide DetectionsText;
      DetectionsShape(ds[1..]);
      HidingMerges(d.entityType, d, Before(ds[1..]), close);
    }
  }

  lemma CloseGroups(e: string, count: string, tag: string, c: string)
    ensures e + ("|" + (count + ("|" + (tag + ("|" + c))))) == ((e + ("|" + count)) + ("|" + tag)) + ("|" + c)
  {
    var w := e + ("|" + count);
    assert e + ("|" + (count + ("|" + (tag + ("|" + c))))) == w + ("|" + (tag + ("|" + c)));
  }

  /** A detection is read from its end in one way. */
  lemma CloseUnique(e: string, d: Detection, e': string, d': Detection)
    requires e + Close(d) == e' + Close(d')
    ensures e == e' && d.count == d'.count && d.detector == d'.detector
  {
    var count, tag, count', tag' := Decimal(d.count), DetectorTag(d.detector), Decimal(d'.count),
      DetectorTag(d'.detector);
    CountAndTag(d);
    CountAndTag(d');
    TagsInjective();
    CloseGroups(e, count, tag, "<confidence>");
    CloseGroups(e', count', tag', "<confidence>");
    hide Decimal, DetectorTag;
    LastSplitUnique('|', (e + ("|" + count)) + ("|" + tag), "<confidence>", (e' + ("|" + count')) + ("|" + tag'),
                    "<confidence>");
    LastSplitUnique('|', e + ("|" + count), tag, e' + ("|" + count'), tag');
    LastSplitUnique('|', e, count, e', count');
    DecimalInjective(d.count, d'.count);
  }

  lemma CountAndTag(d: Detection)
    ensures NoBars(Decimal(d.count)) && NoBars(DetectorTag(d.detector))
  {
    hide Decimal, DetectorTag;
    DecimalPlain(d.count);
    DetectorTagPlain(d.detector);
    PlainHasNoBars(Decimal(d.count));
    PlainHasNoBars(DetectorTag(d.detector));
  }

  lemma DetectionsOneSided(ds: seq<Detection>, es: seq<Detection>)
    requires DetectionsExact(ds) && DetectionsText(ds) == DetectionsText(es)
    ensures ds == es
  {
    TextsNonEmpty(ds, es);
    if ds != [] && es != [] {
      DetectionsShape(ds);
      DetectionsShape(es);
      hide DetectionsText, Close;
      var d, last := ds[0], es[|es| - 1];
      var x, y := Before(ds) + (Close(d) + ")"), Before(es) + (Close(last) + ")");
      ConcatCancels("(", x, "(", y);
      Lists.ConcatAssociates(Before(ds), Close(d), ")");
      Lists.ConcatAssociates(Before(es), Close(last), ")");
      SuffixCancels(Before(ds) + Close(d), ")", Before(es) + Close(last), ")");
      CloseUnique(Before(ds), d, Before(es), last);
      assert d in ds;
    }
  }

  lemma MergedDetection(x: string, d: Detection, y: string, last: Detection)
    ensures DetectionText(last.(entityType := Hiding(x, d, y))) ==
            DetectionText(d.(entityType := x)) + DetectionText(last.(entityType := y))
  {
    DetectionIs(last.(entityType := Hiding(x, d, y)));
    DetectionIs(d.(entityType := x));
    DetectionIs(last.(entityType := y));
    assert Close(last.(entityType := Hiding(x, d, y))) == Close(last) == Close(last.(entityType := y));
    assert Close(d.(entityType := x)) == Close(d);
    hide Close, DetectionText;
    HidingMerges(x, d, y, Close(last) + ")");
    Lists.ConcatAssociates(Hiding(x, d, y), Close(last), ")");
    Lists.ConcatAssociates(y, Close(last), ")");
  }

  lemma TwoDetections(d: Detection, e: Detection)
    ensures DetectionsText([d, e]) == DetectionText(d) + DetectionText(e)
  {
    hide DetectionText;
    var both := [d, e];
    assert both[1..] == [e] && DetectionsText([e]) == DetectionText(e) + DetectionsText([]);
  }

  lemma DetectionsTwin(ds: seq<Detection>) returns (es: seq<Detection>)
    requires !DetectionsExact(ds)
    ensures es != ds && DetectionsText(es) == DetectionsText(ds)
  {
    hide DetectionText, Close, Hiding;
    if |ds| > 1 {
      var d, e := ds[0], ds[1];
      es := [e.(entityType := Hiding(d.entityType, d, e.entityType))] + ds[2..];
      MergedDetection(d.entityType, d, e.entityType, e);
      assert ds[1..][1..] == ds[2..] && es[1..] == ds[2..];
      Lists.ConcatAssociates(DetectionText(d), DetectionText(e), DetectionsText(ds[2..]));
    } else {
      var d := ds[0];
      var x, c, y :| d.entityType == Hiding(x, c, y);
      es := [c.(entityType := x), d.(entityType := y)];
      MergedDetection(x, c, y, d);
      assert d.(entityType := Hiding(x, c, y)) == d;
      TwoDetections(es[0], es[1]);
      assert ds[1..] == [] && DetectionsText(ds) == DetectionText(d);
    }
  }

  // ----- actions -----

  function Mark(k: ActionKind): string {
    "|" + (KindTag(k) + "|")
  }

  function Ref(a: Action): string {
    OrElse(a.tokenRef, "")
  }

  lemma ActionIs(a: Action)
    ensures ActionText(a) == "(" + ((a.entityType + (Mark(a.kind) + Ref(a))) + ")")
  {
    hide KindTag;
    var tag := KindTag(a.kind);
    var f, g := [a.entityType, tag, Ref(a)], [tag, Ref(a)];
    assert f[1..] == g && g[1..] == [Ref(a)];
    assert Bars([Ref(a)]) == Ref(a) && Bars(g) == tag + ("|" + Ref(a)) && Bars(f) == a.entityType + ("|" + Bars(g));
    assert Mark(a.kind) + Ref(a) == "|" + (tag + ("|" + Ref(a)));
  }

  /** Everything after the first kind, up to the last parenthesis. */
  function After(xs: seq<Action>): string
    requires xs != []
  {
    if |xs| == 1 then Ref(xs[0])
    else Ref(xs[0]) + (")(" + KindIn(xs[1].entityType, xs[1].kind, After(xs[1..])))
  }

  /** A text that spells out a kind between bars. */
  function KindIn(x: string, k: ActionKind, y: string): string {
    x + (Mark(k) + y)
  }

  ghost predicate HidesKind(s: string) {
    exists x, k, y :: s == KindIn(x, k, y)
  }

  ghost predicate ActionExact(a: Action) {
    !HidesKind(a.entityType + "|") && !HidesKind("|" + Ref(a))
  }

  ghost predicate ActionsExact(xs: seq<Action>) {
    |xs| <= 1 && forall a :: a in xs ==> ActionExact(a)
  }

  lemma KindMerges(x: string, mark: string, ref: string, inner: string)
    ensures ("(" + ((x + (mark + ref)) + ")")) + ("(" + (inner + ")"))
            == "(" + ((x + (mark + (ref + (")(" + inner)))) + ")")
  {
    var a := x + (mark + ref);
    assert x + (mark + (ref + (")(" + inner))) == a + (")(" + inner);
    assert ("(" + (a + ")")) + ("(" + (inner + ")")) == "(" + ((a + (")(" + inner)) + ")");
  }

  lemma {:induction false} ActionsShape(xs: seq<Action>)
    requires xs != []
    ensures ActionsText(xs) == "(" + (KindIn(xs[0].entityType, xs[0].kind, After(xs)) + ")")
  {
    var a := xs[0];
    ActionIs(a);
    if |xs| == 1 {
      assert xs[1..] == [] && ActionsText(xs) == ActionText(a);
    } else {
      ActionsShape(xs[1..]);
      hide Mark, ActionText;
      KindMerges(a.entityType, Mark(a.kind), Ref(a), KindIn(xs[1].entityType, xs[1].kind, After(xs[1..])));
    }
  }

  lemma KindHasNoBars(k: ActionKind)
    ensures NoBars(KindTag(k))
  {
    hide KindTag;
    KindTagPlain(k);
    PlainHasNoBars(KindTag(k));
  }

  lemma MarkAt(k: ActionKind)
    ensures var m := Mark(k);
            |m| >= 2 && m[0] == '|' && m[|m| - 1] == '|' && forall i :: 0 < i < |m| - 1 ==> m[i] != '|'
  {
    KindHasNoBars(k);
    hide KindTag;
    assert forall i :: 0 < i < |Mark(k)| - 1 ==> Mark(k)[i] == KindTag(k)[i - 1];
  }

  /** A kind that is spelt out before another one ends no later than that one starts. */
  lemma KindsApart(x: string, k: ActionKind, y: string, e: string, l: ActionKind, r: string)
    requires KindIn(x, k, y) == KindIn(e, l, r) && |x| < |e|
    ensures |x| + |Mark(k)| <= |e| + 1
  {
    MarkAt(k);
    MarkAt(l);
    hide Mark;
    var s, m := KindIn(x, k, y), |Mark(k)|;
    assert s[|e|] == Mark(l)[0];
    forall i | |x| < i < |x| + m - 1 ensures s[i] != '|' {
      assert s[i] == Mark(k)[i - |x|];
    }
  }

  /** Of two splits of one text the shorter head starts the longer one. */
  lemma HeadStarts(p: string, a: string, q: string, b: string)
    requires p + a == q + b && |p| <= |q|
    ensures q == p + a[..|q| - |p|] && a == q[|p|..] + b
  {
    var s := p + a;
    assert p == s[..|p|] && q == s[..|q|] && a == s[|p|..];
  }

  lemma MarkParts(k: ActionKind, s: string)
    ensures Mark(k) + s == "|" + ((KindTag(k) + "|") + s) && Mark(k) + s == ("|" + KindTag(k)) + ("|" + s)
  {
    hide KindTag;
  }

  lemma EarlierKind(x: string, k: ActionKind, y: string, e: string, l: ActionKind, r: string)
    requires KindIn(x, k, y) == KindIn(e, l, r) && |x| < |e|
    ensures HidesKind(e + "|") && HidesKind("|" + y)
  {
    KindsApart(x, k, y, e, l, r);
    MarkParts(k, y);
    MarkParts(l, r);
    assert |Mark(k)| == |"|" + KindTag(k)| + 1;
    hide Mark, KindTag;
    var m, open, n := Mark(k), "|" + KindTag(k), (KindTag(l) + "|") + r;
    assert HidesKind(e + "|") by {
      Lists.ConcatAssociates(x, m, y);
      Lists.ConcatAssociates(e, "|", n);
      HeadStarts(x + m, y, e + "|", n);
      var z := y[..|e + "|"| - |x + m|];
      Lists.ConcatAssociates(x, m, z);
      assert e + "|" == KindIn(x, k, z);
    }
    Lists.ConcatAssociates(x, open, "|" + y);
    HeadStarts(x + open, "|" + y, e, Mark(l) + r);
    assert "|" + y == KindIn(e[|x + open|..], l, r);
  }

  lemma SameKind(e: string, k: ActionKind, r: string, l: ActionKind, t: string)
    requires KindIn(e, k, r) == KindIn(e, l, t)
    ensures k == l && r == t
  {
    KindHasNoBars(k);
    KindHasNoBars(l);
    TagsInjective();
    hide KindTag;
    ConcatCancels(e, Mark(k) + r, e, Mark(l) + t);
    var x, y := KindTag(k) + ("|" + r), KindTag(l) + ("|" + t);
    assert Mark(k) + r == "|" + x && Mark(l) + t == "|" + y;
    ConcatCancels("|", x, "|", y);
    FirstSplit('|', KindTag(k), r, KindTag(l), t);
  }

  /** With no other kind spelt out a text is split at its kind in one way. */
  lemma OneKind(e: string, k: ActionKind, r: string, x: string, l: ActionKind, y: string)
    requires KindIn(e, k, r) == KindIn(x, l, y) && !HidesKind(e + "|") && !HidesKind("|" + r)
    ensures e == x && k == l && r == y
  {
    if |x| < |e| {
      EarlierKind(x, l, y, e, k, r);
      assert false;
    } else if |e| < |x| {
      EarlierKind(e, k, r, x, l, y);
      assert false;
    }
    hide HidesKind, Mark;
    ConcatCancels(e, Mark(k) + r, x, Mark(l) + y);
    SameKind(e, k, r, l, y);
  }

  lemma ActionsOneSided(xs: seq<Action>, ys: seq<Action>)
    requires ActionsExact(xs) && ActionsText(xs) == ActionsText(ys)
    ensures ReadActions(xs) == ReadActions(ys)
  {
    ActionTextsNonEmpty(xs, ys);
    if xs != [] && ys != [] {
      ActionsShape(xs);
      ActionsShape(ys);
      var a, b := xs[0], ys[0];
      hide ActionsText, Mark, HidesKind;
      var s, t := KindIn(a.entityType, a.kind, After(xs)), KindIn(b.entityType, b.kind, After(ys));
      assert a in xs;
      ConcatCancels("(", s + ")", "(", t + ")");
      SuffixCancels(s, ")", t, ")");
      OneKind(a.entityType, a.kind, Ref(a), b.entityType, b.kind, After(ys));
      if |ys| > 1 {
        SecondKind(ys);
        assert false;
      }
      assert xs == [a] && ys == [b] && ReadAction(a) == ReadAction(b);
    }
  }

  lemma SecondKind(ys: seq<Action>)
    requires |ys| > 1
    ensures HidesKind("|" + After(ys))
  {
    hide Mark;
    var x, c, z := Ref(ys[0]), ys[1], After(ys[1..]);
    Lists.ConcatAssociates(")(", c.entityType, Mark(c.kind) + z);
    Lists.ConcatAssociates(x, ")(" + c.entityType, Mark(c.kind) + z);
    Lists.ConcatAssociates("|", x + (")(" + c.entityType), Mark(c.kind) + z);
    assert "|" + After(ys) == KindIn("|" + (x + (")(" + c.entityType)), c.kind, z);
  }

  /** Two actions are written like one whose token reference holds the second. */
  function Merged(a: Action, b: Action): Action {
    Action(a.entityType, a.kind, Some(Ref(a) + (")(" + KindIn(b.entityType, b.kind, Ref(b)))))
  }

  lemma MergedAction(a: Action, b: Action)
    ensures ActionText(Merged(a, b)) == ActionText(a) + ActionText(b)
  {
    ActionIs(a);
    ActionIs(b);
    ActionIs(Merged(a, b));
    hide Mark, ActionText;
    KindMerges(a.entityType, Mark(a.kind), Ref(a), KindIn(b.entityType, b.kind, Ref(b)));
  }

  /** A kind spelt out in a field may as well be the action's kind. */
  lemma OtherAction(a: Action) returns (b: Action)
    requires !ActionExact(a)
    ensures ActionText(b) == ActionText(a) && |b.entityType| != |a.entityType|
  {
    ActionIs(a);
    var e, tag, ref := a.entityType, KindTag(a.kind), Ref(a);
    hide KindTag, ActionText;
    if HidesKind(e + "|") {
      var x, k, y :| e + "|" == KindIn(x, k, y);
      b := Action(x, k, Some(y + (tag + ("|" + ref))));
      assert KindIn(x, k, y + (tag + ("|" + ref))) == (e + "|") + (tag + ("|" + ref)) by {
        hide Mark;
        Lists.ConcatRegroups(x, Mark(k), y, tag + ("|" + ref));
      }
      assert KindIn(e, a.kind, ref) == (e + "|") + (tag + ("|" + ref));
      assert |e| + 1 == |x| + |Mark(k)| + |y|;
    } else {
      var x, k, y :| "|" + ref == KindIn(x, k, y);
      b := Action((e + ("|" + tag)) + x, k, Some(y));
      assert KindIn(e, a.kind, ref) == (e + ("|" + tag)) + ("|" + ref);
      Lists.ConcatAssociates(e + ("|" + tag), x, Mark(k) + y);
    }
    ActionIs(b);
  }

  lemma ActionsTwin(xs: seq<Action>) returns (ys: seq<Action>)
    requires !ActionsExact(xs)
    ensures ReadActions(ys) != ReadActions(xs) && ActionsText(ys) == ActionsText(xs)
  {
    hide ActionText, ActionExact;
    if |xs| > 1 {
      var a, b := xs[0], xs[1];
      ys := [Merged(a, b)] + xs[2..];
      MergedAction(a, b);
      assert xs[1..][1..] == xs[2..] && ys[1..] == xs[2..];
      Lists.ConcatAssociates(ActionText(a), ActionText(b), ActionsText(xs[2..]));
      ReadLength(xs);
      ReadLength(ys);
    } else {
      var b := OtherAction(xs[0]);
      ys := [b];
      assert ys[1..] == [] == xs[1..];
      assert ReadActions(xs)[0] == ReadAction(xs[0]) && ReadActions(ys)[0] == ReadAction(b);
    }
  }

  lemma {:induction false} ReadLength(xs: seq<Action>)
    ensures |ReadActions(xs)| == |xs|
  {
    if xs != [] {
      ReadLength(xs[1..]);
    }
  }

  // ----- records -----

  /** No other reading of any line: at most one detection and one action, no text that
      spells out the end of a detection or a kind, and no bar in the policy's and the
      identities' free strings. */
  ghost predicate IsUnambiguous(r: Record) {
    DetectionsExact(r.detections) && ActionsExact(r.actions) && PolicyExact(r.policy) && IdentityExact(r.identities)
  }

  /** All records the builder accepts with this text show the same. */
  ghost predicate TextDetermines(r: Record) {
    forall q: Record :: ValidMetadata(q.metadata) && Canonical(q) == Canonical(r) ==> Visible(q) == Visible(r)
  }

  /** A text of eleven lines has no other eleven parts. */
  lemma LinesOneSided(r: Record, q: Record)
    requires LineRecord(r) && ValidMetadata(r.metadata) && Canonical(r) == Canonical(q)
    ensures Lines(r) == Lines(q)
  {
    LineCount(r);
    LineCount(q);
    forall i | 0 <= i < 11 ensures Avoids('\n', Lines(r)[i]) {
      LinesAreLines(r, i);
      LineAvoids(Lines(r)[i]);
    }
    hide LineRecord, ValidMetadata, Lines, Join, JoinLines, Avoids;
    LinesAreJoined(Lines(r));
    LinesAreJoined(Lines(q));
    JoinOneSided('\n', Lines(r), Lines(q));
  }

  lemma LineAvoids(s: string)
    requires IsLine(s)
    ensures Avoids('\n', s)
  {
  }

  lemma OneSided(r: Record, q: Record)
    requires LineRecord(r) && IsUnambiguous(r) && ValidMetadata(r.metadata) && ValidMetadata(q.metadata)
    requires Canonical(r) == Canonical(q)
    ensures Visible(r) == Visible(q)
  {
    CanonicalDetermines(r, q);
    LinesOneSided(r, q);
    hide LineRecord, ValidMetadata, Canonical;
    PartsOneSided(r, q);
  }

  lemma PartsOneSided(r: Record, q: Record)
    requires IsUnambiguous(r) && Lines(r) == Lines(q)
    requires r.seqNo == q.seqNo && r.prevHash == q.prevHash && r.metadata == q.metadata
    ensures Visible(r) == Visible(q)
  {
    hide DetectionsText, ActionsText, PolicyText, IdentityText, EgressText, MetadataText, HopTag, Hex, Decimal,
      ReadActions, DetectionsExact, ActionsExact, PolicyExact, IdentityExact;
    var a, b := Lines(r), Lines(q);
    assert forall i :: 0 <= i < 11 ==> a[i] == b[i];
    ConcatCancels("ts=", r.ts, "ts=", q.ts);
    ConcatCancels("tenant_id=", r.tenantId, "tenant_id=", q.tenantId);
    ConcatCancels("hop=", HopTag(r.hop), "hop=", HopTag(q.hop));
    HopTagInjective(r.hop, q.hop);
    ConcatCancels("detections=", DetectionsText(r.detections), "detections=", DetectionsText(q.detections));
    DetectionsOneSided(r.detections, q.detections);
    ConcatCancels("actions=", ActionsText(r.actions), "actions=", ActionsText(q.actions));
    ActionsOneSided(r.actions, q.actions);
    ConcatCancels("policy=", PolicyText(r.policy), "policy=", PolicyText(q.policy));
    PolicyOneSided(r.policy, q.policy);
    ConcatCancels("identities=", IdentityText(r.identities), "identities=", IdentityText(q.identities));
    IdentityOneSided(r.identities, q.identities);
    ConcatCancels("egress=", EgressText(r.egress), "egress=", EgressText(q.egress));
    EgressOneSided(r.egress, q.egress);
  }

  /** A record written like `r` that shows something else; whatever is not free text
      stays. No newline or delimiter has to be in `r`. */
  lemma Twin(r: Record) returns (q: Record)
    requires !IsUnambiguous(r)
    ensures Canonical(q) == Canonical(r) && Visible(q) != Visible(r)
    ensures q.seqNo == r.seqNo && q.metadata == r.metadata && q.prevHash == r.prevHash && q.recordHash == r.recordHash
  {
    hide DetectionsText, ActionsText, PolicyText, IdentityText, EgressText, MetadataText, HopTag, Hex, Decimal,
      ReadActions, DetectionsExact, ActionsExact, PolicyExact, IdentityExact, JoinLines;
    q := r;
    if !DetectionsExact(r.detections) {
      var ds := DetectionsTwin(r.detections);
      q := q.(detections := ds);
    } else if !ActionsExact(r.actions) {
      var xs := ActionsTwin(r.actions);
      q := q.(actions := xs);
      assert Visible(q).actions == ReadActions(xs);
    } else if !PolicyExact(r.policy) {
      var p := PolicyTwin(r.policy);
      q := q.(policy := p);
    } else {
      var i := IdentityTwin(r.identities);
      q := q.(identities := i);
    }
    assert Lines(q) == Lines(r);
  }

  /** A record without newlines in its free strings is determined by its text, among
      all the builder accepts, exactly when it is unambiguous. */
  lemma DeterminedExactly(r: Record)
    requires LineRecord(r) && ValidMetadata(r.metadata)
    ensures TextDetermines(r) <==> IsUnambiguous(r)
  {
    hide LineRecord, ValidMetadata, Canonical, Visible, IsUnambiguous;
    if IsUnambiguous(r) {
      forall q: Record | ValidMetadata(q.metadata) && Canonical(q) == Canonical(r) ensures Visible(q) == Visible(r) {
        OneSided(r, q);
      }
    } else {
      var q := Twin(r);
      assert ValidMetadata(q.metadata);
    }
  }

  /** Any two actions, however plain, are written like one. */
  lemma TwoActionsHaveTwin(r: Record, a: Action, b: Action)
    requires r.actions == [a, b]
    ensures var q := r.(actions := [Merged(a, b)]);
            Canonical(q) == Canonical(r) && Visible(q) != Visible(r) && q.metadata == r.metadata
  {
    hide DetectionsText, PolicyText, IdentityText, EgressText, MetadataText, HopTag, Hex, Decimal, JoinLines,
      ActionText;
    var q := r.(actions := [Merged(a, b)]);
    MergedAction(a, b);
    assert q.actions[1..] == [] && r.actions[1..] == [b] && [b][1..] == [] && ActionsText([]) == "";
    assert ActionsText(q.actions) == ActionText(Merged(a, b)) == ActionText(a) + ActionsText([b])
      == ActionsText(r.actions);
    ReadLength(r.actions);
    ReadLength(q.actions);
    assert |Visible(q).actions| == 1 && |Visible(r).actions| == 2;
    assert Lines(q) == Lines(r);
  }
}
