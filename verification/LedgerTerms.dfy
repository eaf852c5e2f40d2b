/**
 * The terms of the audit ledger, its second reader and its exports spelled out over the fields of
 * events, queries, chunks and directories (audit_provenance.py, audit_readonly.py, audit_export.py, audit_sinks.py).
 */
module LedgerTerms {
  import opened Prelude
  import opened Json
  import opened JsonTerms
  import opened AuditContracts
  import opened AuditEvents
  import opened AuditEventProofs
  import opened AuditLedger
  import opened AuditReadOnly
  import JsonProofs
  import opened AuditExport
  import opened AuditExportProofs
  import opened EventTerms
  import opened AuditSinks
  import R = LedgerRuns
  import L = LedgerProtocol
  import Utf8

  // ---------- what a record says

  function TextOrNull(s: Option<string>): Json
  {
    match s case Some(text) => Str(text) case None => Null
  }

  /** An event's record names what happened. */
  lemma EventFields(e: AuditEvent)
    ensures var v := EventJson(e);
            && Field(v, "sequence") == Some(Int(e.sequence)) && Field(v, "category") == Some(Str(e.category))
            && Field(v, "actor") == Some(ActorJson(e.actor)) && Field(v, "action") == Some(ActionJson(e.action))
            && Field(v, "execution") == Some(ExecutionJson(e.execution))
            && Field(v, "bindings") == Some(Arr(BindingsJson(e.bindings)))
            && Field(v, "metadata") == Some(Obj(e.metadata))
  {
    EventMembersSorted(e);
    var v := EventJson(e);
    hide ActorJson, ActionJson, ExecutionJson, BindingsJson, Sorted, Field, Less;
    MemberFound(v, 11, "sequence");
    MemberFound(v, 4, "category");
    MemberFound(v, 1, "actor");
    MemberFound(v, 0, "action");
    MemberFound(v, 6, "execution");
    MemberFound(v, 3, "bindings");
    MemberFound(v, 8, "metadata");
  }

  /** And where and when it stands in the chain. */
  lemma EventPlace(e: AuditEvent)
    ensures var v := EventJson(e);
            && Field(v, "apiVersion") == Some(Str("sdai.audit-event/v1")) && Field(v, "eventId") == Some(Str(e.eventId))
            && Field(v, "featureId") == Some(Str(e.featureId)) && Field(v, "occurredAt") == Some(Str(e.occurredAt))
            && Field(v, "previousSha256") == Some(Str(e.previousSha256)) && Field(v, "sha256") == Some(Str(e.sha256))
  {
    EventMembersSorted(e);
    var v := EventJson(e);
    hide ActorJson, ActionJson, ExecutionJson, BindingsJson, Sorted, Field, Less;
    MemberFound(v, 2, "apiVersion");
    MemberFound(v, 5, "eventId");
    MemberFound(v, 7, "featureId");
    MemberFound(v, 9, "occurredAt");
    MemberFound(v, 10, "previousSha256");
    MemberFound(v, 12, "sha256");
  }

  /** So do its parts. */
  lemma ExecutionFields(x: AuditExecution)
    ensures var v := ExecutionJson(x);
            && Field(v, "runId") == Some(TextOrNull(x.runId)) && Field(v, "workflow") == Some(TextOrNull(x.workflow))
            && Field(v, "stepId") == Some(TextOrNull(x.stepId)) && Field(v, "taskId") == Some(TextOrNull(x.taskId))
            && Field(v, "gitCommit") == Some(TextOrNull(x.gitCommit))
            && Field(v, "workspace") == Some(TextOrNull(x.workspace))
  {
    var v := ExecutionJson(x);
    ExecutionSorted(x);
    hide Sorted, Field, Less;
    MemberFound(v, 0, "gitCommit");
    MemberFound(v, 1, "runId");
    MemberFound(v, 2, "stepId");
    MemberFound(v, 3, "taskId");
    MemberFound(v, 4, "workflow");
    MemberFound(v, 5, "workspace");
  }

  lemma ExecutionSorted(x: AuditExecution)
    ensures Sorted(ExecutionJson(x).members)
  {
    hide Less, Sorted;
    assert Keys(ExecutionJson(x).members) == EXECUTION_KEYS;
    ExecutionKeysSorted();
    SortedByKeys(ExecutionJson(x).members);
  }

  lemma ActorFields(a: AuditActor)
    ensures var v := ActorJson(a);
            && Field(v, "kind") == Some(Str(a.kind)) && Field(v, "subject") == Some(Str(a.subject))
            && Field(v, "semanticRole") == Some(TextOrNull(a.semanticRole))
            && Field(v, "provider") == Some(TextOrNull(a.provider)) && Field(v, "model") == Some(TextOrNull(a.model))
  {
    var v := ActorJson(a);
    assert Less("kind", "model") && Less("model", "provider") && Less("provider", "semanticRole");
    assert Less("semanticRole", "subject");
    hide Less, Field;
    MemberFound(v, 0, "kind");
    MemberFound(v, 1, "model");
    MemberFound(v, 2, "provider");
    MemberFound(v, 3, "semanticRole");
    MemberFound(v, 4, "subject");
  }

  lemma ActionFields(a: AuditAction)
    ensures var v := ActionJson(a);
            && Field(v, "kind") == Some(Str(a.kind)) && Field(v, "subject") == Some(Str(a.subject))
            && Field(v, "reason") == Some(TextOrNull(a.reason))
  {
    var v := ActionJson(a);
    assert Less("kind", "reason") && Less("reason", "subject");
    hide Less, Field;
    MemberFound(v, 0, "kind");
    MemberFound(v, 1, "reason");
    MemberFound(v, 2, "subject");
  }

  lemma BindingFields(b: AuditBinding)
    ensures var v := BindingJson(b);
            && Field(v, "kind") == Some(Str(b.kind)) && Field(v, "source") == Some(Str(b.source))
            && Field(v, "sha256") == Some(Str(b.sha256))
  {
    var v := BindingJson(b);
    assert Less("kind", "sha256") && Less("sha256", "source");
    hide Less, Field;
    MemberFound(v, 0, "kind");
    MemberFound(v, 1, "sha256");
    MemberFound(v, 2, "source");
  }

  /** A manifest's text is one line, and says whose export it is, in which state, and how it is cut. */
  lemma ManifestFields(m: Manifest)
    ensures var v := ManifestJson(m);
            && ToJson(m) == Dumps(v) + "\n" && Field(v, "apiVersion") == Some(Str("sdai.audit-export/v1"))
            && Field(v, "exportId") == Some(Str(m.exportId)) && Field(v, "featureId") == Some(Str(m.featureId))
            && Field(v, "eventCount") == Some(Int(m.eventCount)) && Field(v, "ledgerHeadSha256") == Some(Str(m.head))
            && Field(v, "exportSha256") == Some(Str(m.exportSha256))
            && Field(v, "manifestSha256") == Some(Str(m.manifestSha256))
  {
    var v := ManifestJson(m);
    ManifestMembersSorted(m);
    hide Sorted, Field, Less, ChunksJson, Dumps;
    MemberFound(v, 0, "apiVersion");
    MemberFound(v, 5, "eventCount");
    MemberFound(v, 6, "exportId");
    MemberFound(v, 7, "exportSha256");
    MemberFound(v, 8, "featureId");
    MemberFound(v, 9, "ledgerHeadSha256");
    MemberFound(v, 10, "manifestSha256");
  }

  lemma ManifestSizes(m: Manifest)
    ensures var v := ManifestJson(m);
            && Field(v, "byteLength") == Some(Int(m.byteLength)) && Field(v, "chunkSize") == Some(Int(m.chunkSize))
            && Field(v, "chunkCount") == Some(Int(|m.chunks|)) && Field(v, "chunks") == Some(Arr(ChunksJson(m.chunks)))
  {
    var v := ManifestJson(m);
    ManifestMembersSorted(m);
    hide Sorted, Field, Less, ChunksJson;
    MemberFound(v, 1, "byteLength");
    MemberFound(v, 2, "chunkCount");
    MemberFound(v, 3, "chunkSize");
    MemberFound(v, 4, "chunks");
  }

  /** A manifest is read only from version 1 with exactly its eleven names and the right number of chunks. */
  lemma ManifestRead(text: string, env: Platform)
    requires FromJson(text, env).Some?
    ensures var raw, m := Loads(text, env.floatRepr), FromJson(text, env).value;
            && raw.Some? && raw.value.Obj? && Keys(raw.value.members) == MANIFEST_KEYS
            && var k := raw.value.members;
               && k[0].value == Str("sdai.audit-export/v1") && k[1].value == Int(m.byteLength)
               && k[2].value == Int(|m.chunks|) && k[3].value == Int(m.chunkSize) && k[5].value == Int(m.eventCount)
               && k[7].value == Str(m.exportSha256) && k[9].value == Str(m.head)
               && k[10].value == Str(m.manifestSha256)
  {
    hide ReadChunks, ValidManifest, AsText, IsSha256, Loads;
  }

  lemma ManifestMembersSorted(m: Manifest)
    ensures Sorted(ManifestJson(m).members)
  {
    hide Less, Sorted, ChunksJson;
    assert Keys(ManifestJson(m).members) == MANIFEST_KEYS;
    ManifestKeysSorted();
    SortedByKeys(ManifestJson(m).members);
  }

  lemma ChunkFields(k: Chunk)
    ensures var v := ChunkJson(k);
            && Field(v, "index") == Some(Int(k.index)) && Field(v, "name") == Some(Str(k.name))
            && Field(v, "offset") == Some(Int(k.offset)) && Field(v, "byteLength") == Some(Int(k.byteLength))
            && Field(v, "sha256") == Some(Str(k.sha256))
  {
    var v := ChunkJson(k);
    assert Less("byteLength", "index") && Less("index", "name") && Less("name", "offset") && Less("offset", "sha256");
    hide Less, Field;
    MemberFound(v, 0, "byteLength");
    MemberFound(v, 1, "index");
    MemberFound(v, 2, "name");
    MemberFound(v, 3, "offset");
    MemberFound(v, 4, "sha256");
  }

  // ---------- selection

  /** Positions in increasing order. */
  predicate Increasing(positions: seq<nat>)
  {
    forall i, j :: 0 <= i < j < |positions| ==> positions[i] < positions[j]
  }

  /** The event has the asked run and the asked task, where one is asked for. */
  predicate AskedFor(e: AuditEvent, query: Selector)
  {
    && (query.runId == None || e.execution.runId == query.runId)
    && (query.taskId == None || e.execution.taskId == query.taskId)
  }

  /** These events stand at these positions of the list. */
  ghost predicate PickedAt(picked: seq<AuditEvent>, events: seq<AuditEvent>, positions: seq<nat>)
  {
    && |positions| == |picked| && Increasing(positions)
    && forall k :: 0 <= k < |positions| ==> positions[k] < |events| && picked[k] == events[positions[k]]
  }

  /** The second reader selects exactly the events asked for, and keeps their order. */
  lemma {:induction false} SelectMeans(events: seq<AuditEvent>, query: Selector) returns (positions: seq<nat>)
    ensures PickedAt(Select(events, query), events, positions)
    ensures forall i: nat :: i in positions <==> i < |events| && AskedFor(events[i], query)
  {
    hide Matches, AskedFor;
    positions := [];
    if |events| > 0 {
      var later := SelectMeans(events[1..], query);
      MatchMeans(events[0], query);
      if Matches(events[0], query) {
        assert Select(events, query) == [events[0]] + Select(events[1..], query);
        hide Select;
        positions := TakenFirst(Select(events[1..], query), events, later);
      } else {
        assert Select(events, query) == Select(events[1..], query);
        hide Select;
        positions := Shifted(later);
        ShiftedUp(later);
        ShiftPicks(Select(events[1..], query), events, later);
      }
      forall i: nat ensures i in positions <==> i < |events| && AskedFor(events[i], query) {
        if i > 0 { assert i < |events| ==> events[1..][i - 1] == events[i]; }
      }
    }
  }

  lemma ShiftPicks(picked: seq<AuditEvent>, events: seq<AuditEvent>, later: seq<nat>)
    requires |events| > 0 && PickedAt(picked, events[1..], later)
    ensures PickedAt(picked, events, Shifted(later))
  {
    ShiftedUp(later);
  }

  lemma TakenFirst(picked: seq<AuditEvent>, events: seq<AuditEvent>, later: seq<nat>) returns (positions: seq<nat>)
    requires |events| > 0 && PickedAt(picked, events[1..], later)
    ensures PickedAt([events[0]] + picked, events, positions)
    ensures forall i: nat :: i in positions <==> i == 0 || i - 1 in later
  {
    ShiftPicks(picked, events, later);
    ShiftedUp(later);
    positions := [0] + Shifted(later);
    hide Shifted;
  }

  lemma MatchMeans(e: AuditEvent, query: Selector)
    ensures Matches(e, query) <==> AskedFor(e, query)
  {
  }

  function Shifted(positions: seq<nat>): seq<nat>
  {
    seq(|positions|, k requires 0 <= k < |positions| => positions[k] + 1)
  }

  lemma ShiftedUp(positions: seq<nat>)
    requires Increasing(positions)
    ensures var shifted := Shifted(positions);
            && Increasing(shifted) && |shifted| == |positions|
            && (forall k :: 0 <= k < |positions| ==> shifted[k] == positions[k] + 1)
            && forall i :: i in shifted <==> i > 0 && i - 1 in positions
  {
    var shifted := Shifted(positions);
    forall i | i > 0 && i - 1 in positions ensures i in shifted {
      var k :| 0 <= k < |positions| && positions[k] == i - 1;
      assert shifted[k] == i;
    }
  }

  // ---------- packages

  function AtMost(n: nat, bound: nat): nat
  {
    if n <= bound then n else bound
  }

  /** The j-th stretch of this size. */
  function Stretch(data: Bytes, size: nat, j: nat): Bytes
  {
    data[AtMost(j * size, |data|)..AtMost(j * size + size, |data|)]
  }

  /** The j-th piece is the j-th stretch of the data. */
  lemma {:induction false} PieceMeans(data: Bytes, size: nat, j: nat)
    requires size > 0 && j < |Pieces(data, size)|
    ensures j * size <= |data| && Pieces(data, size)[j] == Stretch(data, size, j)
    decreases j
  {
    if j > 0 {
      var rest := data[size..];
      PieceMeans(rest, size, j - 1);
      assert (j - 1) * size + size == j * size;
      assert Stretch(rest, size, j - 1) == Stretch(data, size, j);
    } else {
      assert 0 * size == 0;
    }
  }

  lemma {:induction false} OffsetMeans(data: Bytes, size: nat, j: nat)
    requires size > 0 && j <= |Pieces(data, size)|
    ensures |Concat(Pieces(data, size)[..j])| == if j * size <= |data| then j * size else |data|
    decreases j
  {
    var pieces := Pieces(data, size);
    if j > 0 {
      OffsetMeans(data, size, j - 1);
      PieceMeans(data, size, j - 1);
      assert pieces[..j] == pieces[..j - 1] + [pieces[j - 1]];
      ConcatSnoc(pieces[..j - 1], pieces[j - 1]);
      assert (j - 1) * size + size == j * size;
    } else {
      assert pieces[..0] == [] && 0 * size == 0;
    }
  }

  /** The file name of a chunk: its number in at least six digits. */
  ghost predicate NumberedChunk(name: string, number: int)
  {
    exists digits: string ::
      && name == "chunk-" + digits + ".bin" && |digits| >= 6 && (forall c <- digits :: '0' <= c <= '9')
      && DigitsValue(digits) == number && (|digits| > 6 ==> digits[0] != '0')
  }

  lemma ChunkNameMeans(j: nat)
    ensures NumberedChunk(ChunkName(j), j)
  {
    hide Pad, DigitsValue;
    PadIsNumber(j, 6);
    assert ChunkName(j) == "chunk-" + Pad(j, 6) + ".bin";
  }

  /** This chunk and its descriptor are the j-th stretch of the data, under its number and its digest. */
  ghost predicate Lies(k: Chunk, content: Bytes, data: Bytes, size: nat, j: nat, env: Platform)
  {
    && content == Stretch(data, size, j) && k.index == j && NumberedChunk(k.name, j)
    && k.offset == j * size <= |data| && k.byteLength == |content| && k.sha256 == Digest(content, env)
  }

  lemma MadeMeans(featureId: string, s: R.Snapshot, data: Bytes, chunkSize: nat, env: Platform)
    requires chunkSize > 0
    ensures var p := MakePackage(featureId, s, data, chunkSize, env);
            var m := p.manifest;
            && m.featureId == featureId && m.chunkSize == chunkSize && m.byteLength == |data|
            && m.eventCount == s.eventCount && m.head == s.head && m.exportSha256 == s.exportSha256
            && |m.chunks| == |p.contents|
            && forall j :: 0 <= j < |m.chunks| ==> Lies(m.chunks[j], p.contents[j], data, chunkSize, j, env)
  {
    hide BodySha, ExportId, Digest, Pieces, ChunkName, NumberedChunk, Concat, Stretch;
    var p := MakePackage(featureId, s, data, chunkSize, env);
    forall j | 0 <= j < |p.contents| ensures Lies(p.manifest.chunks[j], p.contents[j], data, chunkSize, j, env) {
      PieceMeans(data, chunkSize, j);
      OffsetMeans(data, chunkSize, j);
      ChunkNameMeans(j);
    }
  }

  /** What a built package says: whose ledger, in which state, and where each chunk lies in it. */
  lemma PackageMeans(before: Bytes, middle: Bytes, after: Bytes, chunkSize: int, c: L.Config)
    requires Packaged(before, middle, after, chunkSize, c).Some?
    ensures R.Export(middle, c).Some? && chunkSize > 0
    ensures var p, data := Packaged(before, middle, after, chunkSize, c).value, R.Export(middle, c).value;
            var m := p.manifest;
            && m.featureId == c.feature && m.chunkSize == chunkSize && m.byteLength == |data|
            && R.Verify(before, c) == Some(R.Snapshot(m.eventCount, m.head, m.exportSha256))
            && |m.chunks| == |p.contents|
            && forall j :: 0 <= j < |m.chunks| ==> Lies(m.chunks[j], p.contents[j], data, chunkSize, j, c.env)
  {
    hide R.Verify, R.Export, ValidManifest, ValidPackage, CanonicalJsonl, Digest, MakePackage, Lies, ValidChunk;
    var snapshot, data := StableSnapshot(before, middle, after, c).value, R.Export(middle, c).value;
    MadeMeans(c.feature, snapshot, data, chunkSize, c.env);
  }

  /** The text whose digest names an export. */
  lemma IdentityText(featureId: string, head: string, exportSha256: string)
    ensures Dumps(Identity(featureId, head, exportSha256)) ==
              "{" + ((Quote("exportSha256") + ":" + Quote(exportSha256)) + ","
                     + ((Quote("featureId") + ":" + Quote(featureId)) + ","
                        + (Quote("ledgerHeadSha256") + ":" + Quote(head)))) + "}"
  {
    hide Quote;
    var ms := Identity(featureId, head, exportSha256).members;
    assert ms[1..] == [ms[1], ms[2]] && ms[1..][1..] == [ms[2]];
    assert DumpMember(ms[2]) == Quote("ledgerHeadSha256") + ":" + Quote(head);
    assert DumpMembers([ms[2]]) == DumpMember(ms[2]);
    assert DumpMembers([ms[1], ms[2]]) == DumpMember(ms[1]) + "," + DumpMembers([ms[2]]);
    assert DumpMembers(ms) == DumpMember(ms[0]) + "," + DumpMembers(ms[1..]);
    assert DumpMember(ms[0]) == Quote("exportSha256") + ":" + Quote(exportSha256);
    assert DumpMember(ms[1]) == Quote("featureId") + ":" + Quote(featureId);
    assert Dumps(Obj(ms)) == "{" + DumpMembers(ms) + "}";
  }

  // ---------- records of an export

  /** The canonical text of each value, in UTF-8, with a newline after it. */
  function Records(values: seq<Json>): Bytes
  {
    if |values| == 0 then [] else Utf8.Encode(Dumps(values[0])) + [10] + Records(values[1..])
  }

  predicate AllWellFormed(values: seq<Json>, env: Platform)
  {
    forall v <- values :: WellFormed(v, env.floatRepr)
  }

  /** An export is accepted as JSONL exactly when it is the canonical records of so many JSON values. */
  lemma JsonlMeans(value: Bytes, eventCount: int, env: Platform)
    requires Lawful(env)
    ensures CanonicalJsonl(value, eventCount, env) <==>
              exists values :: |values| == eventCount && AllWellFormed(values, env) && value == Records(values)
  {
    hide CanonicalRecord, Records, AllWellFormed, Lawful;
    if CanonicalJsonl(value, eventCount, env) {
      if |value| == 0 {
        var none: seq<Json> := [];
        NoRecords(env);
        assert |none| == eventCount && AllWellFormed(none, env);
      } else {
        var lines := SplitLF(DropLast(value));
        var values := LinesRead(lines, env);
        TerminatedSplit(DropLast(value));
        assert value == DropLast(value) + [LF];
      }
    }
    if values :| |values| == eventCount && AllWellFormed(values, env) && value == Records(values) {
      var lines := LinesOf(values, env);
      if |lines| == 0 {
        assert value == [];
      } else {
        SplitTerminated(lines);
        TerminatedEndsWithLF(lines);
      }
    }
  }

  lemma NoRecords(env: Platform)
    ensures AllWellFormed([], env) && Records([]) == []
  {
  }

  lemma {:induction false} LinesRead(lines: seq<Bytes>, env: Platform) returns (values: seq<Json>)
    requires Lawful(env) && forall line <- lines :: CanonicalRecord(line, env)
    ensures |values| == |lines| && AllWellFormed(values, env) && Records(values) == Terminated(lines)
  {
    hide CanonicalRecord, WellFormed, Lawful, Utf8.Encode, Dumps;
    values := [];
    if |lines| > 0 {
      var rest := LinesRead(lines[1..], env);
      var v := LineRead(lines[0], env);
      values := [v] + rest;
    }
  }

  lemma LineRead(line: Bytes, env: Platform) returns (v: Json)
    requires Lawful(env) && CanonicalRecord(line, env)
    ensures WellFormed(v, env.floatRepr) && line == Utf8.Encode(Dumps(v))
  {
    hide Utf8.Decode, Utf8.Encode, Dumps, Loads, Encodable, WellFormed, JsonProofs.Readable;
    v := LoadBytes(line, env).value;
    JsonProofs.LoadsReadable(Utf8.Decode(line).value, env.floatRepr);
    JsonProofs.ReadableIsWellFormed(v, env.floatRepr);
  }

  lemma {:induction false} LinesOf(values: seq<Json>, env: Platform) returns (lines: seq<Bytes>)
    requires AllWellFormed(values, env)
    ensures |lines| == |values| && (forall line <- lines :: CanonicalRecord(line, env) && LF !in line)
    ensures Terminated(lines) == Records(values)
  {
    hide CanonicalRecord, WellFormed, Utf8.Encode, Dumps;
    lines := [];
    if |values| > 0 {
      var rest := LinesOf(values[1..], env);
      LineOf(values[0], env);
      lines := [Utf8.Encode(Dumps(values[0]))] + rest;
    }
  }

  lemma LineOf(v: Json, env: Platform)
    requires WellFormed(v, env.floatRepr)
    ensures var line := Utf8.Encode(Dumps(v)); CanonicalRecord(line, env) && LF !in line
  {
    hide WellFormed, LoadBytes;
    LoadCanonical(v, env);
    CanonicalHasNoLF(v, env);
  }

  // ---------- valid manifests

  /** Chunk `j` is numbered, starts where the one before it ends, and is neither empty nor too long. */
  ghost predicate Placed(chunks: seq<Chunk>, j: nat, chunkSize: int)
    requires j < |chunks|
  {
    var k := chunks[j];
    && k.index == j && k.name == ChunkName(j) && DigestText(k.sha256) && 0 < k.byteLength <= chunkSize
    && k.offset == if j == 0 then 0 else chunks[j - 1].offset + chunks[j - 1].byteLength
  }

  /** A valid manifest, field by field. */
  lemma ManifestMeans(m: Manifest, env: Platform)
    requires Lawful(env)
    ensures ValidManifest(m, env) <==>
              && m.featureId != "" && m.eventCount >= 0 && DigestText(m.head) && DigestText(m.exportSha256)
              && 1024 <= m.chunkSize <= 4_194_304
              && m.exportId == ExportId(m.featureId, m.head, m.exportSha256, env)
              && m.manifestSha256 == BodySha(m, env)
              && (forall j :: 0 <= j < |m.chunks| ==> Placed(m.chunks, j, m.chunkSize))
              && m.byteLength == EndOf(m.chunks)
  {
    HeaderFields(m, env);
    hide ValidHeader, BodySha, ExportId, DigestText, ChunkName;
    if forall j :: 0 <= j < |m.chunks| ==> Placed(m.chunks, j, m.chunkSize) {
      PlacedAreContiguous(m.chunks, m.chunkSize, |m.chunks|);
      assert m.chunks[..|m.chunks|] == m.chunks;
    }
    if ValidManifest(m, env) {
      ContiguousArePlaced(m.chunks, m.chunkSize);
    }
  }

  /** Where the last chunk ends. */
  function EndOf(chunks: seq<Chunk>): int
  {
    if |chunks| == 0 then 0 else chunks[|chunks| - 1].offset + chunks[|chunks| - 1].byteLength
  }

  lemma HeaderFields(m: Manifest, env: Platform)
    requires Lawful(env)
    ensures ValidHeader(m, env) <==>
              && m.featureId != "" && m.eventCount >= 0 && DigestText(m.head) && DigestText(m.exportSha256)
              && 1024 <= m.chunkSize <= 4_194_304 && m.byteLength >= 0
              && m.exportId == ExportId(m.featureId, m.head, m.exportSha256, env)
              && m.manifestSha256 == BodySha(m, env)
  {
    DigestMeans(m.head);
    DigestMeans(m.exportSha256);
    BodyShaIsSha(m, env);
    ExportIdIsId(m.featureId, m.head, m.exportSha256, env);
    hide IsExportId, ExportId, BodySha, IsSha256, DigestText;
  }

  lemma BodyShaIsSha(m: Manifest, env: Platform)
    requires Lawful(env)
    ensures IsSha256(BodySha(m, env))
  {
    DigestIsSha(Utf8.Encode(Dumps(UnsignedJson(m))), env);
    hide Digest, IsSha256;
  }

  lemma ExportIdIsId(featureId: string, head: string, exportSha256: string, env: Platform)
    requires Lawful(env)
    ensures IsExportId(ExportId(featureId, head, exportSha256, env))
  {
    var hex := env.sha256(Utf8.Encode(Dumps(Identity(featureId, head, exportSha256))));
    assert IsHex(hex, 64);
    assert ("audit-export-" + hex)[13..] == hex && ("audit-export-" + hex)[..13] == "audit-export-";
  }

  lemma {:induction false} PlacedAreContiguous(chunks: seq<Chunk>, chunkSize: int, n: nat)
    requires n <= |chunks| && forall j :: 0 <= j < |chunks| ==> Placed(chunks, j, chunkSize)
    ensures TotalLength(chunks[..n]) == EndOf(chunks[..n]) >= 0
    ensures forall j :: 0 <= j < n ==> Contiguous(chunks, j, chunkSize) && ValidChunk(chunks[j])
  {
    hide DigestText, IsSha256, ChunkName;
    if n > 0 {
      PlacedAreContiguous(chunks, chunkSize, n - 1);
      assert chunks[..n][..n - 1] == chunks[..n - 1];
      assert Placed(chunks, n - 1, chunkSize);
      DigestMeans(chunks[n - 1].sha256);
    }
  }

  lemma ContiguousArePlaced(chunks: seq<Chunk>, chunkSize: int)
    requires (forall k <- chunks :: ValidChunk(k)) && forall j :: 0 <= j < |chunks| ==> Contiguous(chunks, j, chunkSize)
    ensures forall j :: 0 <= j < |chunks| ==> Placed(chunks, j, chunkSize)
    ensures TotalLength(chunks) == EndOf(chunks)
  {
    hide DigestText, IsSha256, ChunkName;
    forall j | 0 <= j < |chunks| ensures Placed(chunks, j, chunkSize) {
      assert Contiguous(chunks, j, chunkSize) && chunks[j] in chunks;
      DigestMeans(chunks[j].sha256);
      if j > 0 {
        assert Contiguous(chunks, j - 1, chunkSize);
        assert chunks[..j][..j - 1] == chunks[..j - 1];
      }
    }
    if |chunks| > 0 { assert Contiguous(chunks, |chunks| - 1, chunkSize); }
  }

  // ---------- published directories and receipts

  /** The directory of a package: its manifest's text, and each chunk under its name, and nothing else. */
  ghost predicate HoldsPackage(dir: Dir, p: Package)
  {
    && dir.Keys == {"manifest.json"} + (set k <- p.manifest.chunks :: k.name)
    && dir["manifest.json"] == Utf8.Encode(ToJson(p.manifest))
    && |p.manifest.chunks| == |p.contents|
    && forall j :: 0 <= j < |p.contents| ==> HoldsChunk(dir, p.manifest.chunks[j].name, p.contents[j])
  }

  ghost predicate HoldsChunk(dir: Dir, name: string, content: Bytes)
  {
    name in dir && dir[name] == content
  }

  lemma DirectoryMeans(dir: Dir, p: Package, env: Platform)
    requires GoodPackage(p, env) && |p.manifest.chunks| == |p.contents|
    ensures dir == DirOf(p) <==> HoldsPackage(dir, p)
  {
    OwnDirectory(p, env);
    if HoldsPackage(dir, p) { SameDirectory(dir, DirOf(p), p); }
  }

  lemma OwnDirectory(p: Package, env: Platform)
    requires GoodPackage(p, env) && |p.manifest.chunks| == |p.contents|
    ensures HoldsPackage(DirOf(p), p)
  {
    hide GoodPackage, FirstFiles, ToJson;
    DirKeys(p, env);
    FirstFilesHold(p, FileCount(p), env);
    assert FileName(p, 0) == "manifest.json";
    forall j | 0 <= j < |p.contents| ensures HoldsChunk(DirOf(p), p.manifest.chunks[j].name, p.contents[j]) {
      assert FileName(p, j + 1) == p.manifest.chunks[j].name && FileBytes(p, j + 1) == p.contents[j];
    }
  }

  lemma SameDirectory(a: Dir, b: Dir, p: Package)
    requires HoldsPackage(a, p) && HoldsPackage(b, p)
    ensures a == b
  {
    hide ToJson;
    forall name | name in a.Keys ensures a[name] == b[name] {
      if name != "manifest.json" {
        var k :| k in p.manifest.chunks && k.name == name;
        var j :| 0 <= j < |p.manifest.chunks| && p.manifest.chunks[j] == k;
        assert HoldsChunk(a, p.manifest.chunks[j].name, p.contents[j]);
        assert HoldsChunk(b, p.manifest.chunks[j].name, p.contents[j]);
      }
    }
    assert a.Keys == b.Keys;
  }

  /** A receipt verifies exactly for its own sink and for packages with its export id and its digests. */
  lemma ReceiptMeans(sinkId: string, p: Package, status: AuditSinks.Status, asked: string, q: Package)
    ensures VerifiesReceipt(MakeReceipt(sinkId, p, status), asked, q) <==>
              && asked == sinkId && q.manifest.exportId == p.manifest.exportId
              && q.manifest.manifestSha256 == p.manifest.manifestSha256
              && |q.manifest.chunks| == |p.manifest.chunks|
              && forall j :: 0 <= j < |p.manifest.chunks| ==> q.manifest.chunks[j].sha256 == p.manifest.chunks[j].sha256
    ensures MakeReceipt(sinkId, p, status).status == status
  {
    var a, b := ChunkShas(p.manifest), ChunkShas(q.manifest);
    if |a| == |b| && forall j :: 0 <= j < |a| ==> q.manifest.chunks[j].sha256 == p.manifest.chunks[j].sha256 {
      assert a == b;
    }
    if a == b {
      forall j | 0 <= j < |a| ensures q.manifest.chunks[j].sha256 == p.manifest.chunks[j].sha256 {
        assert a[j] == b[j];
      }
    }
  }
}
