/** The auditor's reader of canonical record texts: eleven lines, and metadata that
    reads one way only. It shares no code with the ledger that writes them. */
module RecordReading {
  import opened Ordering
  import opened Text
  import Lists
  import opened HashLinks
  import opened LedgerRecord
  import opened CanonicalRecord
  import opened RecordFields
  import opened RecordTwins
  import opened CanonicalJson
  import opened JsonReader

  datatype AuditError =
    | NotElevenLines | NoSemicolon | Malformed(entry: string) | NotPlain(key: string) | OutOfOrder(key: string)
    | BadValue(entry: string) | NotAHash(kind: string)

  /** What a pack needs of a record: its hop, its time and the release it is bound to. */
  datatype HopRead = HopRead(hop: string, ts: string, release: Option<string>)

  const RECORD_LINES: seq<string> := [
    "seq=", "ts=", "tenant_id=", "hop=", "detections=", "actions=", "policy=", "identities=", "egress=", "prev_hash=",
    "metadata="]

  // ----- reading -----

  /** `str.split` */
  function SplitOn(c: char, s: string): (parts: seq<string>)
    ensures parts != []
    decreases |s|
  {
    var first := CutBefore(s, c);
    if |first| == |s| then [s] else [first] + SplitOn(c, CutAfter(s, c))
  }

  /** `str.split_once`: both parts, or none without the separator. */
  function SplitOnce(c: char, s: string): Option<(string, string)> {
    if |CutBefore(s, c)| == |s| then None else Some((CutBefore(s, c), CutAfter(s, c)))
  }

  predicate IsGraphic(c: char) {
    '!' <= c <= '~'
  }

  predicate IsHex64(s: string) {
    |s| == 64 && forall i :: 0 <= i < 64 ==> IsDecimalDigit(s[i]) || 'a' <= s[i] <= 'f'
  }

  /** Parsed as `i64` and printed again, the value is the same. */
  predicate IsI64Text(s: string) {
    var n := NumberOf(s);
    n.Some? && n.value.Int? && -0x8000_0000_0000_0000 <= n.value.value < 0x8000_0000_0000_0000
  }

  predicate IsWellTyped(kind: string, value: string) {
    if kind == "bool" then value == "true" || value == "false"
    else if kind == "int" then IsI64Text(value)
    else if kind == "hash" then IsHex64(value)
    else if kind == "id" then forall i :: 0 <= i < |value| ==> value[i] != '=' && !IsWhitespace(value[i])
    else false
  }

  /** The release an entry names, if its key is the release's; `previous` is the key before. */
  function ReadEntry(entry: string, previous: Option<string>): Result<(string, Option<string>), AuditError> {
    var pair := SplitOnce('=', entry);
    if pair.None? then Err(Malformed(entry))
    else
      var (key, typed) := pair.value;
      var kindAndValue := SplitOnce(':', typed);
      if kindAndValue.None? then Err(Malformed(entry))
      else
        var (kind, value) := kindAndValue.value;
        if key == "" || !All(IsGraphic, key) then Err(NotPlain(key))
        else if previous.Some? && CompareString(previous.value, key) != Less then Err(OutOfOrder(key))
        else if !IsWellTyped(kind, value) then Err(BadValue(entry))
        else if key != "release_hash" then Result.Ok((key, None))
        else if kind != "hash" then Err(NotAHash(kind))
        else Result.Ok((key, Some("sha256:" + value)))
  }

  /** What entries say after those that ended with key `previous` and named `release`. */
  function ReadEntries(entries: seq<string>, previous: Option<string>, release: Option<string>)
    : Result<Option<string>, AuditError>
    decreases |entries|
  {
    if entries == [] then Result.Ok(release)
    else
      match ReadEntry(entries[0], previous)
      case Err(e) => Err(e)
      case Ok(read) =>
        ReadEntries(entries[1..], Some(read.0), if read.1.Some? then read.1 else release)
  }

  function ReadMetadata(meta: string): Result<Option<string>, AuditError> {
    if meta == "" then Result.Ok(None)
    else if meta[|meta| - 1] != ';' then Err(NoSemicolon)
    else ReadEntries(SplitOn(';', meta[..|meta| - 1]), None, None)
  }

  function ReadHop(canonical: string): Result<HopRead, AuditError> {
    var lines := SplitOn('\n', canonical);
    if |lines| != 11 || exists i :: 0 <= i < 11 && !(RECORD_LINES[i] <= lines[i]) then Err(NotElevenLines)
    else
      match ReadMetadata(lines[10][9..])
      case Err(e) => Err(e)
      case Ok(release) => Result.Ok(HopRead(lines[3][4..], lines[1][3..], release))
  }

  method ParseMetadata(meta: string) returns (result: Result<Option<string>, AuditError>)
    ensures result == ReadMetadata(meta)
  {
    if meta == "" {
      return Result.Ok(None);
    }
    if meta[|meta| - 1] != ';' {
      return Err(NoSemicolon);
    }
    var entries := SplitOn(';', meta[..|meta| - 1]);
    var previous: Option<string>, release: Option<string> := None, None;
    assert entries[0..] == entries;
    for i := 0 to |entries|
      invariant ReadEntries(entries, None, None) == ReadEntries(entries[i..], previous, release)
    {
      hide ReadEntry;
      assert entries[i..][0] == entries[i] && entries[i..][1..] == entries[i + 1..];
      match ReadEntry(entries[i], previous) {
        case Err(e) =>
          return Err(e);
        case Ok(read) =>
          previous := Some(read.0);
          if read.1.Some? {
            release := read.1;
          }
      }
    }
    assert entries[|entries|..] == [];
    result := Result.Ok(release);
  }

  // ----- splitting what was joined -----

  lemma {:induction false} SplitJoined(c: char, parts: seq<string>)
    requires parts != [] && AllAvoid(c, parts)
    ensures SplitOn(c, Join(c, parts)) == parts
  {
    if |parts| == 1 {
      CutNone(parts[0], c);
    } else {
      hide Avoids, CutBefore, CutAfter, SplitOn;
      SplitJoined(c, parts[1..]);
      SplitFirst(c, parts[0], Join(c, parts[1..]));
      assert parts == [parts[0]] + parts[1..];
    }
  }

  lemma SplitFirst(c: char, a: string, rest: string)
    requires Avoids(c, a)
    ensures SplitOn(c, a + ([c] + rest)) == [a] + SplitOn(c, rest)
  {
    CutAt(a, c, rest);
    hide Avoids, CutBefore, CutAfter;
  }

  // ----- what the ledger writes is read back -----

  /** One metadata entry, without the semicolon after it. */
  function EntryOf(k: string, v: MetadataValue): string {
    k + ("=" + ValueText(v))
  }

  function EntriesOf(m: map<string, MetadataValue>, keys: seq<string>): (entries: seq<string>)
    requires forall k :: k in keys ==> k in m
    ensures |entries| == |keys|
  {
    if keys == [] then [] else [EntryOf(keys[0], m[keys[0]])] + EntriesOf(m, keys[1..])
  }

  lemma {:induction false} MetadataIsJoined(m: map<string, MetadataValue>, keys: seq<string>)
    requires keys != [] && forall k :: k in keys ==> k in m
    ensures MetadataText(m, keys) == Join(';', EntriesOf(m, keys)) + ";"
  {
    hide ValueText;
    var k, v, tail := keys[0], ValueText(m[keys[0]]), keys[1..];
    var entry, rest := EntryOf(k, m[k]), MetadataText(m, tail);
    OneEntryThen(k, v, rest);
    if tail == [] {
      assert Join(';', EntriesOf(m, keys)) == entry && ";" + rest == ";";
    } else {
      MetadataIsJoined(m, tail);
      assert EntriesOf(m, keys)[1..] == EntriesOf(m, tail);
      Lists.ConcatAssociates(entry, ";" + Join(';', EntriesOf(m, tail)), ";");
      Lists.ConcatAssociates(";", Join(';', EntriesOf(m, tail)), ";");
    }
  }

  lemma OneEntryThen(k: string, v: string, rest: string)
    ensures k + ("=" + (v + (";" + rest))) == (k + ("=" + v)) + (";" + rest)
  {
  }

  function TypeName(v: MetadataValue): string {
    match v
    case MBool(_) => "bool"
    case MInteger(_) => "int"
    case MHash(_) => "hash"
    case MOpaqueId(_) => "id"
  }

  function BareText(v: MetadataValue): string {
    match v
    case MBool(b) => if b then "true" else "false"
    case MInteger(i) => DecimalInt(i)
    case MHash(h) => Hex(h)
    case MOpaqueId(o) => o
  }

  lemma TypedText(v: MetadataValue)
    ensures ValueText(v) == TypeName(v) + (":" + BareText(v)) && Avoids(':', TypeName(v))
  {
    hide DecimalInt, Hex;
    match v
    case MBool(_) =>
    case MInteger(i) => Typed("int", "int:", DecimalInt(i));
    case MHash(h) => Typed("hash", "hash:", Hex(h));
    case MOpaqueId(o) => Typed("id", "id:", o);
  }

  lemma Typed(kind: string, title: string, text: string)
    requires title == kind + ":"
    ensures title + text == kind + (":" + text)
  {
  }

  lemma IntIsI64(i: I64)
    ensures IsI64Text(DecimalInt(i))
  {
    hide NumberOf, DecimalInt;
    IntRead(i);
  }

  lemma HashIsHex64(h: Digest)
    ensures IsHex64(Hex(h))
  {
    HexPlain(h);
    hide Hex;
    forall i | 0 <= i < 64 ensures IsDecimalDigit(Hex(h)[i]) || 'a' <= Hex(h)[i] <= 'f' {
      assert Hex(h)[i] in Hex(h);
    }
  }

  lemma ValidIsWellTyped(k: string, v: MetadataValue)
    requires ValidateEntry(k, v).None?
    ensures IsWellTyped(TypeName(v), BareText(v))
  {
    hide Hex, DecimalInt, IsI64Text, IsHex64, FirstMarker, Utf8Length, AsciiLower;
    match v
    case MBool(_) =>
    case MInteger(i) => IntIsI64(i);
    case MHash(h) => HashIsHex64(h);
    case MOpaqueId(o) =>
  }

  lemma ValidKeyIsPlain(k: string, v: MetadataValue)
    requires ValidateEntry(k, v).None?
    ensures k != "" && All(IsGraphic, k) && Avoids('=', k)
  {
    hide ValidateOpaqueId;
    assert forall i :: 0 <= i < |k| ==> IsPlainKeyChar(k[i]);
  }

  lemma CutOnce(a: string, c: char, b: string)
    requires Avoids(c, a)
    ensures SplitOnce(c, a + ([c] + b)) == Some((a, b))
  {
    CutAt(a, c, b);
    hide CutBefore, CutAfter;
  }

  /** What the reader makes of one entry the ledger wrote. */
  function EntryMeans(k: string, v: MetadataValue): Result<(string, Option<string>), AuditError> {
    if k != "release_hash" then Result.Ok((k, None))
    else if v.MHash? then Result.Ok((k, Some("sha256:" + Hex(v.hash))))
    else Err(NotAHash(TypeName(v)))
  }

  lemma EntryRead(k: string, v: MetadataValue, previous: Option<string>)
    requires ValidateEntry(k, v).None?
    requires previous.Some? ==> CompareString(previous.value, k) == Less
    ensures ReadEntry(EntryOf(k, v), previous) == EntryMeans(k, v)
  {
    ValidKeyIsPlain(k, v);
    ValidIsWellTyped(k, v);
    TypedText(v);
    HashTyped(v);
    hide ValidateEntry, IsWellTyped, CompareString, SplitOnce, ValueText, IsGraphic, TypeName, BareText, Hex, Avoids;
    CutOnce(k, '=', ValueText(v));
    CutOnce(TypeName(v), ':', BareText(v));
  }

  lemma HashTyped(v: MetadataValue)
    ensures TypeName(v) == "hash" <==> v.MHash?
    ensures v.MHash? ==> BareText(v) == Hex(v.hash)
  {
    hide Hex, DecimalInt;
    assert "hash"[0] != "int"[0] && "hash"[0] != "id"[0] && "hash"[0] != "bool"[0];
  }

  /** The keys rise, from `previous` on. */
  ghost predicate RisesFrom(keys: seq<string>, previous: Option<string>) {
    && (forall i, j :: 0 <= i < j < |keys| ==> CompareString(keys[i], keys[j]) == Less)
    && (previous.Some? && keys != [] ==> CompareString(previous.value, keys[0]) == Less)
  }

  lemma RisesOn(keys: seq<string>, previous: Option<string>)
    requires keys != [] && RisesFrom(keys, previous)
    ensures RisesFrom(keys[1..], Some(keys[0])) && keys[0] !in keys[1..]
  {
    hide CompareString;
    var tail := keys[1..];
    forall j | 0 <= j < |tail| ensures tail[j] != keys[0] && CompareString(keys[0], tail[j]) == Less {
      assert tail[j] == keys[j + 1];
      CompareStringTies(keys[0], keys[j + 1]);
    }
  }

  /** The binding read is the entry under `release_hash`, which must be a hash. */
  lemma {:induction false} EntriesRead(m: map<string, MetadataValue>, keys: seq<string>, previous: Option<string>,
                                       release: Option<string>)
    requires (forall k :: k in keys ==> k in m) && ValidMetadata(m) && RisesFrom(keys, previous)
    ensures ReadEntries(EntriesOf(m, keys), previous, release) ==
            if "release_hash" !in keys then Result.Ok(release)
            else if m["release_hash"].MHash? then Result.Ok(Some("sha256:" + Hex(m["release_hash"].hash)))
            else Err(NotAHash(TypeName(m["release_hash"])))
    decreases |keys|
  {
    hide ReadEntry, EntryOf, RisesFrom, TypeName, Hex, ValidateEntry;
    if keys != [] {
      var k, tail := keys[0], keys[1..];
      RisesOn(keys, previous);
      FirstRises(keys, previous);
      assert k in m && ValidateEntry(k, m[k]).None?;
      EntryRead(k, m[k], previous);
      assert EntriesOf(m, keys)[1..] == EntriesOf(m, tail);
      if EntryMeans(k, m[k]).Ok? {
        EntriesRead(m, tail, Some(k), if k == "release_hash" then EntryMeans(k, m[k]).value.1 else release);
      }
      assert "release_hash" in keys <==> k == "release_hash" || "release_hash" in tail;
    }
  }

  lemma FirstRises(keys: seq<string>, previous: Option<string>)
    requires keys != [] && RisesFrom(keys, previous)
    ensures previous.Some? ==> CompareString(previous.value, keys[0]) == Less
  {
  }

  lemma {:induction false} EntriesAvoid(m: map<string, MetadataValue>, keys: seq<string>)
    requires (forall k :: k in keys ==> k in m) && ValidMetadata(m)
    ensures AllAvoid(';', EntriesOf(m, keys))
  {
    hide ValueText, ValidateEntry;
    if keys != [] {
      var k := keys[0];
      assert k in m && ValidateEntry(k, m[k]).None?;
      EntriesAvoid(m, keys[1..]);
      EntryAvoids(k, m[k]);
    }
  }

  lemma EntryAvoids(k: string, v: MetadataValue)
    requires ValidateEntry(k, v).None?
    ensures Avoids(';', EntryOf(k, v))
  {
    ValidValueChars(k, v);
    KeyAvoids(k, v);
    hide ValueText, ValidateEntry;
  }

  lemma KeyAvoids(k: string, v: MetadataValue)
    requires ValidateEntry(k, v).None?
    ensures Avoids(';', k)
  {
    hide ValidateOpaqueId;
    assert forall i :: 0 <= i < |k| ==> IsPlainKeyChar(k[i]);
  }

  /** What the auditor reads off the metadata of a record. */
  function BindingOf(m: map<string, MetadataValue>): Result<Option<string>, AuditError> {
    if "release_hash" !in m then Result.Ok(None)
    else
      match m["release_hash"]
      case MHash(hash) => Result.Ok(Some("sha256:" + Hex(hash)))
      case MBool(_) => Err(NotAHash("bool"))
      case MInteger(_) => Err(NotAHash("int"))
      case MOpaqueId(_) => Err(NotAHash("id"))
  }

  lemma BindingIs(m: map<string, MetadataValue>)
    ensures BindingOf(m) == if "release_hash" !in SortedStrings(m.Keys) then Result.Ok(None)
                            else if m["release_hash"].MHash?
                              then Result.Ok(Some("sha256:" + Hex(m["release_hash"].hash)))
                            else Err(NotAHash(TypeName(m["release_hash"])))
  {
    hide SortedStrings, Hex;
  }

  lemma ReadsEntries(entries: seq<string>)
    requires entries != [] && AllAvoid(';', entries)
    ensures ReadMetadata(Join(';', entries) + ";") == ReadEntries(entries, None, None)
  {
    hide ReadEntries, SplitOn, Join, AllAvoid;
    SplitJoined(';', entries);
    var body := Join(';', entries);
    assert (body + ";")[..|body|] == body;
  }

  lemma MetadataRead(m: map<string, MetadataValue>)
    requires ValidMetadata(m)
    ensures ReadMetadata(MetadataText(m, SortedStrings(m.Keys))) == BindingOf(m)
  {
    hide *;
    var keys := SortedStrings(m.Keys);
    BindingIs(m);
    SortedRises(m.Keys);
    if keys == [] {
      NoMetadataText(m, keys);
      ReadsNothing();
    } else {
      MetadataIsJoined(m, keys);
      EntriesAvoid(m, keys);
      ReadsEntries(EntriesOf(m, keys));
      EntriesRead(m, keys, None, None);
    }
  }

  lemma ReadsNothing()
    ensures ReadMetadata("") == Result.Ok(None)
  {
  }

  lemma SortedRises(keys: set<string>)
    ensures RisesFrom(SortedStrings(keys), None)
  {
    SortedStringsStrictlyAscend(keys);
  }

  // ----- newlines in a record's texts -----

  lemma AvoidsParts(c: char, a: string, b: string)
    ensures Avoids(c, a + b) <==> Avoids(c, a) && Avoids(c, b)
  {
    if Avoids(c, a + b) {
      assert forall i :: 0 <= i < |a| ==> a[i] == (a + b)[i];
      forall i | 0 <= i < |b| ensures b[i] != c {
        assert (a + b)[|a| + i] == b[i];
      }
    }
  }

  lemma {:induction false} BarsAvoid(c: char, fields: seq<string>, i: nat)
    requires i < |fields| && Avoids(c, Bars(fields))
    ensures Avoids(c, fields[i])
  {
    hide Avoids;
    if |fields| > 1 {
      AvoidsParts(c, fields[0], "|" + Bars(fields[1..]));
      AvoidsParts(c, "|", Bars(fields[1..]));
      if i > 0 {
        BarsAvoid(c, fields[1..], i - 1);
      }
    }
  }

  lemma TupleAvoids(c: char, fields: seq<string>)
    requires fields != [] && Avoids(c, Tuple(fields))
    ensures AllAvoid(c, fields)
  {
    hide Avoids, Bars;
    AvoidsParts(c, "(", Bars(fields) + ")");
    AvoidsParts(c, Bars(fields), ")");
    forall i | 0 <= i < |fields| ensures Avoids(c, fields[i]) {
      BarsAvoid(c, fields, i);
    }
  }

  lemma IsLineIs(s: string)
    ensures IsLine(s) <==> Avoids('\n', s)
  {
  }

  lemma {:induction false} DetectionsTell(ds: seq<Detection>)
    requires Avoids('\n', DetectionsText(ds))
    ensures forall i :: 0 <= i < |ds| ==> IsLine(ds[i].entityType)
  {
    hide Avoids, Tuple, Decimal, DetectorTag, IsLine;
    if ds != [] {
      var fields := DetectionFields(ds[0]);
      AvoidsParts('\n', DetectionText(ds[0]), DetectionsText(ds[1..]));
      assert DetectionText(ds[0]) == Tuple(fields);
      TupleAvoids('\n', fields);
      assert Avoids('\n', fields[0]);
      IsLineIs(ds[0].entityType);
      DetectionsTell(ds[1..]);
      assert forall i :: 0 < i < |ds| ==> ds[i] == ds[1..][i - 1];
    }
  }

  lemma {:induction false} ActionsTell(xs: seq<Action>)
    requires Avoids('\n', ActionsText(xs))
    ensures forall i :: 0 <= i < |xs| ==> IsLine(xs[i].entityType) && IsLine(OrElse(xs[i].tokenRef, ""))
  {
    hide Avoids, Tuple, KindTag, IsLine;
    if xs != [] {
      var fields := ActionFields(xs[0]);
      AvoidsParts('\n', ActionText(xs[0]), ActionsText(xs[1..]));
      assert ActionText(xs[0]) == Tuple(fields);
      TupleAvoids('\n', fields);
      assert Avoids('\n', fields[0]) && Avoids('\n', fields[2]);
      IsLineIs(xs[0].entityType);
      IsLineIs(OrElse(xs[0].tokenRef, ""));
      ActionsTell(xs[1..]);
      assert forall i :: 0 < i < |xs| ==> xs[i] == xs[1..][i - 1];
    }
  }

  lemma RestTells(r: Record)
    requires Avoids('\n', PolicyText(r.policy)) && Avoids('\n', IdentityText(r.identities))
            && Avoids('\n', EgressText(r.egress))
    ensures IsLine(r.policy.packId) && IsLine(r.policy.packVersion) && IsLine(r.policy.ruleId)
    ensures IsLine(r.identities.upstream) && IsLine(r.identities.region) && IsLine(r.egress.destination)
  {
    hide Avoids, Tuple, DecisionTag, IsLine, Hex;
    var p, i, e := r.policy, r.identities, r.egress;
    var f := [p.packId, p.packVersion, p.ruleId, DecisionTag(p.decision)];
    var g := [i.agentId, if i.humanPrincipal.Some? then i.humanPrincipal.value else "-", i.upstream, i.region];
    var h := [e.destination, Hex(e.bytesOutHash)];
    TupleAvoids('\n', f);
    TupleAvoids('\n', g);
    TupleAvoids('\n', h);
    assert Avoids('\n', f[0]) && Avoids('\n', f[1]) && Avoids('\n', f[2]);
    assert Avoids('\n', g[2]) && Avoids('\n', g[3]) && Avoids('\n', h[0]);
    IsLineIs(p.packId);
    IsLineIs(p.packVersion);
    IsLineIs(p.ruleId);
    IsLineIs(i.upstream);
    IsLineIs(i.region);
    IsLineIs(e.destination);
  }

  /** Eleven lines without a newline inside come only from a record without one. */
  lemma LinesTell(r: Record)
    requires AllAvoid('\n', Lines(r))
    ensures LineRecord(r)
  {
    hide Avoids, DetectionsText, ActionsText, PolicyText, IdentityText, EgressText, MetadataText, HopTag, Hex, Decimal,
      IsLine, SortedStrings;
    var l := Lines(r);
    assert Avoids('\n', l[1]) && Avoids('\n', l[4]) && Avoids('\n', l[5]) && Avoids('\n', l[6]) && Avoids('\n', l[7])
      && Avoids('\n', l[8]);
    AvoidsParts('\n', "ts=", r.ts);
    AvoidsParts('\n', "detections=", DetectionsText(r.detections));
    AvoidsParts('\n', "actions=", ActionsText(r.actions));
    AvoidsParts('\n', "policy=", PolicyText(r.policy));
    AvoidsParts('\n', "identities=", IdentityText(r.identities));
    AvoidsParts('\n', "egress=", EgressText(r.egress));
    IsLineIs(r.ts);
    DetectionsTell(r.detections);
    ActionsTell(r.actions);
    RestTells(r);
  }

  lemma {:induction false} SplitCount(c: char, s: string)
    ensures |SplitOn(c, s)| == Marks(c, s) + 1
    decreases |s|
  {
    hide Avoids, Marks;
    var a := CutBefore(s, c);
    MarksNone(c, a);
    if |a| == |s| {
      assert a == s;
    } else {
      SplitCount(c, CutAfter(s, c));
      MarksAfterCut(c, s);
      hide CutBefore, CutAfter;
    }
  }

  lemma MarksAfterCut(c: char, s: string)
    requires |CutBefore(s, c)| < |s|
    ensures Marks(c, s) == 1 + Marks(c, CutAfter(s, c))
  {
    hide Avoids, Marks;
    var a, b := CutBefore(s, c), CutAfter(s, c);
    MarksNone(c, a);
    assert s == a + ([c] + b);
    hide CutBefore, CutAfter;
    MarksConcat(c, a, [c] + b);
    MarksConcat(c, [c], b);
    OneMarkOnly(c);
  }

  /** A newline in one of the record's texts makes more than eleven lines. */
  lemma NotSplit(r: Record)
    requires !LineRecord(r)
    ensures |SplitOn('\n', Canonical(r))| > 11
  {
    LineCount(r);
    hide Lines, JoinLines, AllAvoid, SplitOn, Marks, LineRecord;
    LinesAreJoined(Lines(r));
    JoinMarks('\n', Lines(r));
    SplitCount('\n', Canonical(r));
    if AllAvoid('\n', Lines(r)) {
      LinesTell(r);
    }
  }

  /** The text of a record with no newline in it splits into its eleven lines. */
  lemma LinesSplit(r: Record)
    requires LineRecord(r) && ValidMetadata(r.metadata)
    ensures SplitOn('\n', Canonical(r)) == Lines(r) && |Lines(r)| == 11
  {
    LineCount(r);
    LinesAreJoined(Lines(r));
    forall i | 0 <= i < 11 ensures Avoids('\n', Lines(r)[i]) {
      LinesAreLines(r, i);
      LineAvoids(Lines(r)[i]);
    }
    hide Lines, JoinLines, Avoids, SplitOn;
    SplitJoined('\n', Lines(r));
  }

  lemma LineTitles(r: Record)
    ensures |Lines(r)| == 11 && forall i :: 0 <= i < 11 ==> RECORD_LINES[i] <= Lines(r)[i]
    ensures Lines(r)[1][3..] == r.ts && Lines(r)[3][4..] == HopTag(r.hop)
    ensures Lines(r)[10][9..] == MetadataText(r.metadata, SortedStrings(r.metadata.Keys))
  {
    hide DetectionsText, ActionsText, PolicyText, IdentityText, EgressText, MetadataText, HopTag, Hex, Decimal,
      SortedStrings;
  }

  /** The auditor reads off a record the builder accepts exactly its hop, its time and the
      release it is bound to; it refuses exactly the records with a newline in one of their
      texts and those bound to something that is not a hash. */
  lemma AuditorReads(r: Record)
    requires ValidMetadata(r.metadata)
    ensures ReadHop(Canonical(r)) ==
            if !LineRecord(r) then Err(NotElevenLines)
            else
              match BindingOf(r.metadata)
              case Ok(release) => Result.Ok(HopRead(HopTag(r.hop), r.ts, release))
              case Err(e) => Err(e)
  {
    hide Canonical, Lines, ReadMetadata, BindingOf, HopTag, SplitOn, MetadataText, SortedStrings, ValidMetadata,
      LineRecord;
    if LineRecord(r) {
      LinesSplit(r);
      LineTitles(r);
      MetadataRead(r.metadata);
    } else {
      NotSplit(r);
    }
  }
}
