/** Exports reassemble, packages built from the ledger always validate, and manifests round trip. */
module AuditExportProofs {
  import opened Prelude
  import opened Json
  import opened JsonProofs
  import opened AuditContracts
  import opened AuditEvents
  import opened AuditEventProofs
  import opened AuditLedger
  import opened AuditLedgerProofs
  import opened LedgerProtocol
  import opened LedgerRuns
  import opened AuditExport
  import Utf8

  // ---------- chunks

  /** `count` is the number of pieces of `size` that `n` bytes need: ceil(n / size). */
  predicate IsCeil(count: int, n: int, size: int)
  {
    (count - 1) * size < n <= count * size
  }

  /** Reassembling gives the data back; every piece but the last is full and none is empty. */
  lemma {:induction false} PiecesReassemble(data: Bytes, size: nat)
    requires size > 0
    ensures var pieces := Pieces(data, size);
            && Concat(pieces) == data
            && (forall j :: 0 <= j < |pieces| ==> 0 < |pieces[j]| <= size)
            && (forall j :: 0 <= j < |pieces| - 1 ==> |pieces[j]| == size)
    decreases |data|
  {
    if |data| > size {
      PiecesReassemble(data[size..], size);
    } else if |data| > 0 {
      assert Concat([data]) == data + Concat([]);
    }
  }

  lemma {:induction false} PieceCount(data: Bytes, size: nat)
    requires size > 0
    ensures IsCeil(|Pieces(data, size)|, |data|, size)
    decreases |data|
  {
    if |data| > size {
      PieceCount(data[size..], size);
      var n := |Pieces(data[size..], size)|;
      assert n * size == (n - 1) * size + size && (n + 1) * size == n * size + size;
    }
  }

  /** Chunk files never share a name, nor the manifest's. */
  lemma ChunkNamesDistinct(i: nat, j: nat)
    ensures ChunkName(i) == ChunkName(j) ==> i == j
    ensures ChunkName(i) != "manifest.json"
  {
    hide Pad;
    var a, b := ChunkName(i), ChunkName(j);
    PadIsNumber(i, 6);
    PadIsNumber(j, 6);
    assert a[0] == 'c' && "manifest.json"[0] == 'm';
    assert a[6..|a| - 4] == Pad(i, 6) && b[6..|b| - 4] == Pad(j, 6);
  }

  lemma {:induction false} DescribedTotal(pieces: seq<Bytes>, n: nat, env: Platform)
    requires n <= |pieces|
    ensures TotalLength(DescribeAll(pieces, env)[..n]) == |Concat(pieces[..n])|
    decreases n
  {
    hide Digest, ChunkName;
    var chunks := DescribeAll(pieces, env);
    if n > 0 {
      DescribedTotal(pieces, n - 1, env);
      assert chunks[..n][..n - 1] == chunks[..n - 1];
      assert pieces[..n] == pieces[..n - 1] + [pieces[n - 1]];
      ConcatSnoc(pieces[..n - 1], pieces[n - 1]);
    }
  }

  lemma ExportIdWellFormed(featureId: string, head: string, exportSha256: string, env: Platform)
    requires Lawful(env)
    ensures IsExportId(ExportId(featureId, head, exportSha256, env))
  {
    hide Identity;
    var hex := env.sha256(Utf8.Encode(Dumps(Identity(featureId, head, exportSha256))));
    assert IsHex(hex, 64);
    assert ExportId(featureId, head, exportSha256, env)[13..] == hex;
  }

  // ---------- the ledger's own bytes are canonical JSONL

  lemma ConstructKeepsMetadata(raw: AuditEvent, env: Platform)
    requires Construct(raw, env).Some?
    ensures Construct(raw, env).value.metadata == raw.metadata
  {
  }

  lemma ReadMetadata(v: Json, env: Platform)
    requires Readable(v, env.floatRepr) && FromMapping(v, env).Some?
    ensures Readable(Obj(FromMapping(v, env).value.metadata), env.floatRepr)
  {
    hide Construct, ReadActor, ReadAction, ReadExecution, ReadBindings, BodyDigest;
    var m := v.members;
    var raw := AuditEvent(m[11].value.i, m[5].value.s, m[7].value.s, m[4].value.s, m[9].value.s,
                          ReadActor(m[1].value).value, ReadAction(m[0].value).value,
                            ReadExecution(m[6].value, env).value,
                          ReadBindings(m[3].value.items).value, m[8].value.members, m[10].value.s, m[12].value.s);
    ConstructKeepsMetadata(raw, env);
    assert m[8] in m;
  }

  lemma EncodableMetadata(e: AuditEvent)
    requires Record(e).Some?
    ensures Encodable(Obj(e.metadata))
  {
    var ms := EventJson(e).members;
    assert ms[8] in ms;
  }

  /** The JSON form of any event read from a ledger is well formed. */
  lemma ReadEventWellFormed(line: Bytes, env: Platform)
    requires Lawful(env) && ReadRecord(line, env).Some? && Record(ReadRecord(line, env).value).Some?
    ensures WellFormed(EventJson(ReadRecord(line, env).value), env.floatRepr)
  {
    hide FromMapping, EventJson, Lawful, Loads, Record;
    var v := LoadBytes(line, env).value;
    LawfulRepr(env);
    LoadsReadable(Utf8.Decode(line).value, env.floatRepr);
    ReadMetadata(v, env);
    var e := FromMapping(v, env).value;
    EncodableMetadata(e);
    ReadableIsWellFormed(Obj(e.metadata), env.floatRepr);
    EventWellFormed(e, env.floatRepr);
  }

  lemma LawfulRepr(env: Platform)
    requires Lawful(env)
    ensures ReprLaw(env.floatRepr)
  {
  }

  /** A record of a valid chain is a canonical JSON line. */
  lemma LinkIsCanonical(events: seq<AuditEvent>, j: nat, feature: string, env: Platform)
    requires Lawful(env) && j < |events| && Link(events, j, feature, env)
    ensures CanonicalRecord(Record(events[j]).value, env)
  {
    hide ReadRecord, EventJson, Lawful, LoadBytes, WellFormed, CanonicalBytes;
    ReadEventWellFormed(Record(events[j]).value, env);
    LoadCanonical(EventJson(events[j]), env);
  }

  /** Every accepted ledger is canonical JSONL with one record an event. */
  lemma AcceptedIsCanonicalJsonl(file: Bytes, c: Config)
    requires Lawful(c.env) && StrictRead(file, c.feature, c.env).Some?
    ensures CanonicalJsonl(file, |StrictRead(file, c.feature, c.env).value|, c.env)
  {
    hide Link, Record, ReadLines, CanonicalRecord;
    var events := StrictRead(file, c.feature, c.env).value;
    if |file| > 0 {
      var records := SplitLF(DropLast(file));
      LinesReadIff(file, events, c.feature, c.env);
      SplitHasNoLF(DropLast(file));
      ReadLinesIff(records, events, c.feature, c.env);
      forall r | r in records ensures CanonicalRecord(r, c.env) {
        var j :| 0 <= j < |records| && records[j] == r;
        LinkIsCanonical(events, j, c.feature, c.env);
      }
    }
  }

  // ---------- building always succeeds

  lemma DescribedChunksValid(pieces: seq<Bytes>, size: nat, env: Platform)
    requires Lawful(env) && forall j :: 0 <= j < |pieces| ==> 0 < |pieces[j]| <= size
    ensures var chunks := DescribeAll(pieces, env);
            && (forall k <- chunks :: ValidChunk(k))
            && (forall j :: 0 <= j < |chunks| ==> Contiguous(chunks, j, size))
            && TotalLength(chunks) == |Concat(pieces)|
  {
    hide Digest, ChunkName, Lawful, Concat, IsSha256;
    var chunks := DescribeAll(pieces, env);
    forall k | k in chunks ensures ValidChunk(k) {
      var j :| 0 <= j < |chunks| && chunks[j] == k;
      DigestIsSha(pieces[j], env);
    }
    forall j | 0 <= j < |chunks| ensures Contiguous(chunks, j, size) {
      DescribedTotal(pieces, j, env);
    }
    DescribedTotal(pieces, |pieces|, env);
    assert chunks[..|pieces|] == chunks && pieces[..|pieces|] == pieces;
  }

  lemma MadeManifestValid(s: Snapshot, data: Bytes, chunkSize: nat, c: Config)
    requires Sound(c) && MIN_CHUNK_BYTES <= chunkSize <= MAX_CHUNK_BYTES
    requires IsSha256(s.head) && IsSha256(s.exportSha256)
    ensures ValidManifest(MakePackage(c.feature, s, data, chunkSize, c.env).manifest, c.env)
  {
    hide ExportId, IsSha256, IsExportId, Contiguous, ValidChunk, Pieces, DescribeAll, TotalLength, Lawful, Concat;
    PiecesReassemble(data, chunkSize);
    DescribedChunksValid(Pieces(data, chunkSize), chunkSize, c.env);
    ExportIdWellFormed(c.feature, s.head, s.exportSha256, c.env);
    var m := MakePackage(c.feature, s, data, chunkSize, c.env).manifest;
    assert BodySha(m, c.env) == m.manifestSha256;
    DigestIsSha(Utf8.Encode(Dumps(UnsignedJson(m))), c.env);
  }

  lemma MadePackageValid(s: Snapshot, data: Bytes, chunkSize: nat, c: Config)
    requires chunkSize > 0 && s.exportSha256 == Digest(data, c.env) && CanonicalJsonl(data, s.eventCount, c.env)
    ensures ValidPackage(MakePackage(c.feature, s, data, chunkSize, c.env), c.env)
  {
    hide Digest, ExportId, BodySha, ChunkName, CanonicalJsonl, Pieces, Concat;
    PiecesReassemble(data, chunkSize);
  }

  /** Packaging an accepted file that all three reads saw never trips over its own checks. */
  lemma PackagedSame(file: Bytes, chunkSize: int, c: Config)
    requires Sound(c) && StrictRead(file, c.feature, c.env).Some? && MIN_CHUNK_BYTES <= chunkSize <= MAX_CHUNK_BYTES
    ensures StableSnapshot(file, file, file, c) == Verify(file, c)
    ensures Packaged(file, file, file, chunkSize, c) ==
              Some(MakePackage(c.feature, Verify(file, c).value, file, chunkSize, c.env))
    ensures ValidManifest(MakePackage(c.feature, Verify(file, c).value, file, chunkSize, c.env).manifest, c.env)
    ensures ValidPackage(MakePackage(c.feature, Verify(file, c).value, file, chunkSize, c.env), c.env)
  {
    hide StrictRead, ValidManifest, ValidPackage, CanonicalJsonl, Digest, Pieces, Concat, DescribeAll, BodySha,
         ExportId;
    hide Head, Render, IsSha256, ValidChunk, Lawful;
    ExportIsFile(file, c);
    AcceptedIsCanonicalJsonl(file, c);
    VerifiedHashes(file, c);
    MadeManifestValid(Verify(file, c).value, file, chunkSize, c);
    MadePackageValid(Verify(file, c).value, file, chunkSize, c);
    PiecesReassemble(file, chunkSize);
    DescribedChunksValid(Pieces(file, chunkSize), chunkSize, c.env);
  }

  /** What packaging needs before it looks at the bytes. */
  lemma PackagedNeeds(before: Bytes, middle: Bytes, after: Bytes, chunkSize: int, c: Config)
    requires Packaged(before, middle, after, chunkSize, c).Some?
    ensures MIN_CHUNK_BYTES <= chunkSize <= MAX_CHUNK_BYTES
    ensures Verify(before, c).Some? && Verify(before, c) == Verify(after, c) && Export(middle, c).Some?
  {
    hide Verify, Export, ValidManifest, ValidPackage, CanonicalJsonl, Digest, MakePackage, ValidChunk;
  }

  /**
   * Packaging during any run: a package exists exactly when the chunk size is in range, the two
   * verifications agree and the export could be read. Then it passes all its checks, holds one
   * real state of the ledger cut into ceil(n / size) pieces, and reassembles to it. The branch
   * that compares the exported bytes with the verified digest is never taken.
   */
  lemma PackagedInRun(s: State, acts: seq<Action>, i: nat, m: nat, j: nat, chunkSize: int, c: Config)
    requires Sound(c) && Start(s, c) && Legal(s, acts, c) && i <= m <= j <= |acts|
    ensures var before, middle, after := FileAt(s, acts, i, c), FileAt(s, acts, m, c), FileAt(s, acts, j, c);
            var p := Packaged(before, middle, after, chunkSize, c);
            && (p.Some? <==>
                  && MIN_CHUNK_BYTES <= chunkSize <= MAX_CHUNK_BYTES
                  && Verify(before, c).Some? && Verify(before, c) == Verify(after, c) && Export(middle, c).Some?)
            && (p.Some? ==>
                  && before == middle == after && Concat(p.value.contents) == middle
                  && IsCeil(|p.value.contents|, |middle|, chunkSize)
                  && ValidManifest(p.value.manifest, c.env) && ValidPackage(p.value, c.env)
                  && Verify(middle, c) == Some(Snapshot(p.value.manifest.eventCount, p.value.manifest.head,
                     p.value.manifest.exportSha256)))
  {
    hide StrictRead, ValidManifest, ValidPackage, Pieces, Concat, FileAt, Start, Legal, Verify, Export, Packaged,
         Sound, IsCeil;
    var before, middle, after := FileAt(s, acts, i, c), FileAt(s, acts, m, c), FileAt(s, acts, j, c);
    if Packaged(before, middle, after, chunkSize, c).Some? {
      PackagedNeeds(before, middle, after, chunkSize, c);
    }
    if Verify(before, c).Some? && Verify(before, c) == Verify(after, c) && Export(middle, c).Some? {
      VerifyNeedsRead(before, c);
      ExportNeedsRead(middle, c);
      SnapshotSandwich(s, acts, i, m, j, c);
      if MIN_CHUNK_BYTES <= chunkSize <= MAX_CHUNK_BYTES {
        PackagedSame(middle, chunkSize, c);
        PiecesReassemble(middle, chunkSize);
        PieceCount(middle, chunkSize);
      }
    }
  }

  lemma ExportNeedsRead(file: Bytes, c: Config)
    requires Export(file, c).Some?
    ensures StrictRead(file, c.feature, c.env).Some?
  {
  }

  lemma VerifiedHashes(file: Bytes, c: Config)
    requires Lawful(c.env) && Verify(file, c).Some?
    ensures IsSha256(Verify(file, c).value.head) && IsSha256(Verify(file, c).value.exportSha256)
  {
    hide StrictRead, IsSha256, Lawful, Digest, Record;
    var events := StrictRead(file, c.feature, c.env).value;
    AcceptedIff(file, events, c.feature, c.env);
    HeadIsSha(events, c.feature, c.env);
    DigestIsSha(Render(events), c.env);
  }

  // ---------- manifests

  lemma ChunkWellFormed(k: Chunk, fr: FloatRepr)
    ensures WellFormed(ChunkJson(k), fr)
  {
    assert Less("byteLength", "index") && Less("index", "name") && Less("name", "offset") && Less("offset", "sha256");
  }

  lemma ChunksWellFormed(ks: seq<Chunk>, fr: FloatRepr)
    ensures WellFormed(Arr(ChunksJson(ks)), fr)
  {
    hide ChunkJson;
    forall item | item in ChunksJson(ks) ensures WellFormed(item, fr) {
      var j :| 0 <= j < |ks| && ChunksJson(ks)[j] == item;
      ChunkWellFormed(ks[j], fr);
    }
  }

  lemma FirstMembersInOrder()
    ensures Less("apiVersion", "byteLength") && Less("byteLength", "chunkCount")
  {
  }

  lemma ChunkMembersInOrder()
    ensures Less("chunkCount", "chunkSize") && Less("chunkSize", "chunks") && Less("chunks", "eventCount")
  {
  }

  lemma ExportMembersInOrder()
    ensures Less("eventCount", "exportId") && Less("exportId", "exportSha256")
  {
  }

  lemma LastMembersInOrder()
    ensures Less("exportSha256", "featureId") && Less("featureId", "ledgerHeadSha256")
    ensures Less("ledgerHeadSha256", "manifestSha256")
  {
  }

  lemma ManifestKeysSorted()
    ensures forall j :: 0 < j < |MANIFEST_KEYS| ==> Less(MANIFEST_KEYS[j - 1], MANIFEST_KEYS[j])
  {
    hide Less;
    FirstMembersInOrder();
    ChunkMembersInOrder();
    ExportMembersInOrder();
    LastMembersInOrder();
  }

  lemma ManifestWellFormed(m: Manifest, fr: FloatRepr)
    ensures WellFormed(ManifestJson(m), fr)
  {
    hide Less, Sorted, ChunksJson;
    var ms := ManifestJson(m).members;
    assert Keys(ms) == MANIFEST_KEYS;
    ManifestKeysSorted();
    SortedByKeys(ms);
    ChunksWellFormed(m.chunks, fr);
    ObjectWellFormed(ms, fr);
  }

  lemma {:induction false} ChunksRoundTrip(ks: seq<Chunk>, env: Platform)
    requires forall k <- ks :: ValidChunk(k)
    ensures ReadChunks(ChunksJson(ks), env) == Some(ks)
  {
    hide ChunkName, IsSha256;
    if |ks| > 0 {
      var k := ks[0];
      assert k in ks;
      assert Keys(ChunkJson(k).members) == CHUNK_KEYS;
      assert ReadChunk(ChunkJson(k), env) == Some(k);
      ChunksRoundTrip(ks[1..], env);
      assert ks == [ks[0]] + ks[1..];
    }
  }

  lemma ManifestShaped(m: Manifest, env: Platform)
    requires ValidManifest(m, env)
    ensures ManifestShape(ManifestJson(m))
  {
    hide ChunksJson, IsSha256, BodySha, ExportId, IsExportId, Contiguous, TotalLength;
    assert Keys(ManifestJson(m).members) == MANIFEST_KEYS;
  }

  /** Manifest round trip: reading back what was written gives the manifest, whatever it is. */
  lemma ManifestRoundTrip(m: Manifest, env: Platform)
    requires ValidManifest(m, env)
    ensures FromJson(ToJson(m), env) == Some(m)
  {
    hide ManifestShape, ChunksJson, ReadChunks, Dumps, WellFormed, Loads, ValidHeader, Contiguous, TotalLength,
         ValidChunk;
    ManifestWellFormed(m, env.floatRepr);
    LoadsDumpsLine(ManifestJson(m), env.floatRepr);
    ManifestShaped(m, env);
    ChunksRoundTrip(m.chunks, env);
  }

  /** Equal texts, equal manifests. */
  lemma ToJsonInjective(m: Manifest, n: Manifest, env: Platform)
    requires ValidManifest(m, env) && ValidManifest(n, env) && ToJson(m) == ToJson(n)
    ensures m == n
  {
    hide ValidManifest, ToJson, FromJson;
    ManifestRoundTrip(m, env);
    ManifestRoundTrip(n, env);
  }

  /** Two accepted packages of one export digest hold the same bytes, or exhibit a collision. */
  lemma SameExportOrCollision(p: Package, q: Package, env: Platform)
    requires ValidPackage(p, env) && ValidPackage(q, env)
    requires p.manifest.exportSha256 == q.manifest.exportSha256
    ensures Concat(p.contents) == Concat(q.contents) || IsCollision(Concat(p.contents), Concat(q.contents), env)
  {
  }

  lemma IdentityInjective(f: string, head: string, sha: string, g: string, head': string, sha': string, fr: FloatRepr)
    requires Dumps(Identity(f, head, sha)) == Dumps(Identity(g, head', sha'))
    ensures f == g && head == head' && sha == sha'
  {
    hide Dumps, WellFormed;
    IdentityWellFormed(f, head, sha, fr);
    IdentityWellFormed(g, head', sha', fr);
    LoadsDumps(Identity(f, head, sha), fr);
    LoadsDumps(Identity(g, head', sha'), fr);
    var ms, ns := Identity(f, head, sha).members, Identity(g, head', sha').members;
    assert ms[0] == ns[0] && ms[1] == ns[1] && ms[2] == ns[2];
  }

  lemma IdentityWellFormed(f: string, head: string, sha: string, fr: FloatRepr)
    ensures WellFormed(Identity(f, head, sha), fr)
  {
    var ms := Identity(f, head, sha).members;
    assert Less("exportSha256", "featureId") && Less("featureId", "ledgerHeadSha256");
    SortedByKeys(ms);
    ObjectWellFormed(ms, fr);
  }

  /**
   * Two accepted packages with one export id describe one ledger state, feature, head and event count included, and
   * hold the same bytes however they are cut; or they exhibit a collision of their identities or of their bytes.
   */
  lemma SameExportIdOrCollision(p: Package, q: Package, env: Platform)
    requires ValidManifest(p.manifest, env) && ValidPackage(p, env)
    requires ValidManifest(q.manifest, env) && ValidPackage(q, env)
    requires p.manifest.exportId == q.manifest.exportId
    ensures var m, n := p.manifest, q.manifest;
            || IsCollision(Utf8.Encode(Dumps(Identity(m.featureId, m.head, m.exportSha256))),
                           Utf8.Encode(Dumps(Identity(n.featureId, n.head, n.exportSha256))), env)
            || IsCollision(Concat(p.contents), Concat(q.contents), env)
            || (Concat(p.contents) == Concat(q.contents) && m.featureId == n.featureId && m.head == n.head
                && m.exportSha256 == n.exportSha256 && m.eventCount == n.eventCount && m.byteLength == n.byteLength)
  {
    hide Dumps, Identity, Contiguous, ContentMatches, TotalLength, ValidChunk, IsSha256, IsExportId,
         CanonicalRecord, BodySha;
    var m, n := p.manifest, q.manifest;
    var a := Dumps(Identity(m.featureId, m.head, m.exportSha256));
    var b := Dumps(Identity(n.featureId, n.head, n.exportSha256));
    var x, y := env.sha256(Utf8.Encode(a)), env.sha256(Utf8.Encode(b));
    assert ("audit-export-" + x)[13..] == x && ("audit-export-" + y)[13..] == y;
    if Utf8.Encode(a) == Utf8.Encode(b) {
      Utf8.EncodeInjective(a, b);
      IdentityInjective(m.featureId, m.head, m.exportSha256, n.featureId, n.head, n.exportSha256, env.floatRepr);
      SameExportOrCollision(p, q, env);
    }
  }
}
