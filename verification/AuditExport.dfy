/** Immutable export packages: chunks, manifest, building and validation (audit_export.py). */
module AuditExport {
  import opened Prelude
  import opened Json
  import opened AuditContracts
  import opened AuditEvents
  import opened AuditLedger
  import opened LedgerProtocol
  import opened LedgerRuns
  import Utf8

  const MIN_CHUNK_BYTES := 1024
  const MAX_CHUNK_BYTES := 4 * 1024 * 1024
  const EXPORT_API_VERSION := "sdai.audit-export/v1"

  datatype Chunk = Chunk(index: int, name: string, offset: int, byteLength: int, sha256: string)

  datatype Manifest = Manifest(
    exportId: string, featureId: string, eventCount: int, head: string, exportSha256: string,
    byteLength: int, chunkSize: int, chunks: seq<Chunk>, manifestSha256: string)

  datatype Package = Package(manifest: Manifest, contents: seq<Bytes>)

  // ---------- identities

  function ChunkName(index: nat): string
  {
    "chunk-" + Pad(index, 6) + ".bin"
  }

  function Identity(featureId: string, head: string, exportSha256: string): Json
  {
    Obj([Member("exportSha256", Str(exportSha256)), Member("featureId", Str(featureId)),
         Member("ledgerHeadSha256", Str(head))])
  }

  function ExportId(featureId: string, head: string, exportSha256: string, env: Platform): string
  {
    "audit-export-" + env.sha256(Utf8.Encode(Dumps(Identity(featureId, head, exportSha256))))
  }

  predicate IsExportId(s: string)
  {
    |s| == 77 && s[..13] == "audit-export-" && IsHex(s[13..], 64)
  }

  // ---------- JSON form, members in sort_keys order

  function ChunkJson(k: Chunk): Json
  {
    Obj([Member("byteLength", Int(k.byteLength)), Member("index", Int(k.index)), Member("name", Str(k.name)),
         Member("offset", Int(k.offset)), Member("sha256", Str(k.sha256))])
  }

  function ChunksJson(ks: seq<Chunk>): (items: seq<Json>)
    ensures |items| == |ks| && forall j :: 0 <= j < |ks| ==> items[j] == ChunkJson(ks[j])
  {
    if |ks| == 0 then [] else [ChunkJson(ks[0])] + ChunksJson(ks[1..])
  }

  function UnsignedMembers(m: Manifest): seq<Member>
  {
    [Member("apiVersion", Str(EXPORT_API_VERSION)),
     Member("byteLength", Int(m.byteLength)),
     Member("chunkCount", Int(|m.chunks|)),
     Member("chunkSize", Int(m.chunkSize)),
     Member("chunks", Arr(ChunksJson(m.chunks))),
     Member("eventCount", Int(m.eventCount)),
     Member("exportId", Str(m.exportId)),
     Member("exportSha256", Str(m.exportSha256)),
     Member("featureId", Str(m.featureId)),
     Member("ledgerHeadSha256", Str(m.head))]
  }

  /** _unsigned(): the body that manifestSha256 covers. */
  function UnsignedJson(m: Manifest): Json
  {
    Obj(UnsignedMembers(m))
  }

  function ManifestJson(m: Manifest): Json
  {
    Obj(UnsignedMembers(m) + [Member("manifestSha256", Str(m.manifestSha256))])
  }

  function ToJson(m: Manifest): string
  {
    Dumps(ManifestJson(m)) + "\n"
  }

  function BodySha(m: Manifest, env: Platform): string
  {
    Digest(Utf8.Encode(Dumps(UnsignedJson(m))), env)
  }

  // ---------- manifest invariants

  predicate ValidChunk(k: Chunk)
  {
    && k.index >= 0 && k.name == ChunkName(k.index) && k.offset >= 0 && k.byteLength >= 0 && IsSha256(k.sha256)
  }

  function TotalLength(ks: seq<Chunk>): int
  {
    if |ks| == 0 then 0 else TotalLength(ks[..|ks| - 1]) + ks[|ks| - 1].byteLength
  }

  /** Chunk `j` continues where the chunks before it end, and is neither empty nor too long. */
  predicate Contiguous(ks: seq<Chunk>, j: nat, chunkSize: int)
    requires j < |ks|
  {
    ks[j].index == j && ks[j].offset == TotalLength(ks[..j]) && 0 < ks[j].byteLength <= chunkSize
  }

  predicate ValidHeader(m: Manifest, env: Platform)
  {
    && IsExportId(m.exportId) && m.featureId != "" && m.eventCount >= 0 && IsSha256(m.head)
    && IsSha256(m.exportSha256) && m.byteLength >= 0 && MIN_CHUNK_BYTES <= m.chunkSize <= MAX_CHUNK_BYTES
    && IsSha256(m.manifestSha256) && m.exportId == ExportId(m.featureId, m.head, m.exportSha256, env)
    && m.manifestSha256 == BodySha(m, env)
  }

  /** The invariants of AuditExportManifest and of its chunks. */
  predicate ValidManifest(m: Manifest, env: Platform)
  {
    && (forall k <- m.chunks :: ValidChunk(k)) && ValidHeader(m, env)
    && (forall j :: 0 <= j < |m.chunks| ==> Contiguous(m.chunks, j, m.chunkSize))
    && TotalLength(m.chunks) == m.byteLength
  }

  /** AuditExportManifest.__post_init__ over chunks that were checked when they were built. */
  method CheckManifest(m: Manifest, env: Platform) returns (ok: bool)
    requires forall k <- m.chunks :: ValidChunk(k)
    ensures ok <==> ValidManifest(m, env)
  {
    hide BodySha, ExportId, IsExportId, IsSha256, ValidChunk;
    if !ValidHeader(m, env) {
      return false;
    }
    var offset := 0;
    for index := 0 to |m.chunks|
      invariant offset == TotalLength(m.chunks[..index])
      invariant forall j :: 0 <= j < index ==> Contiguous(m.chunks, j, m.chunkSize)
    {
      var chunk := m.chunks[index];
      assert m.chunks[..index + 1][..index] == m.chunks[..index];
      if chunk.index != index || chunk.offset != offset || chunk.byteLength <= 0 || chunk.byteLength > m.chunkSize {
        assert !Contiguous(m.chunks, index, m.chunkSize);
        return false;
      }
      offset := offset + chunk.byteLength;
    }
    assert m.chunks[..|m.chunks|] == m.chunks;
    if offset != m.byteLength {
      return false;
    }
    PositiveTotal(m.chunks, m.chunkSize);
    return !(m.byteLength == 0 && |m.chunks| > 0) && !(m.byteLength > 0 && |m.chunks| == 0);
  }

  /** Contiguous chunks are all non-empty, so only an empty export has none. */
  lemma {:induction false} PositiveTotal(ks: seq<Chunk>, chunkSize: int)
    requires forall j :: 0 <= j < |ks| ==> Contiguous(ks, j, chunkSize)
    ensures TotalLength(ks) >= |ks|
  {
    if |ks| > 0 {
      var init := ks[..|ks| - 1];
      forall j | 0 <= j < |init| ensures Contiguous(init, j, chunkSize) {
        assert Contiguous(ks, j, chunkSize);
        assert init[..j] == ks[..j];
      }
      PositiveTotal(init, chunkSize);
      assert Contiguous(ks, |ks| - 1, chunkSize);
    }
  }

  // ---------- reading a manifest

  const CHUNK_KEYS := ["byteLength", "index", "name", "offset", "sha256"]
  const MANIFEST_KEYS := [
    "apiVersion", "byteLength", "chunkCount", "chunkSize", "chunks", "eventCount", "exportId",
    "exportSha256", "featureId", "ledgerHeadSha256", "manifestSha256"]

  /** str(value). */
  function AsText(v: Json, env: Platform): string
  {
    if v.Str? then v.s else env.str(v)
  }

  predicate IsNat(v: Json)
  {
    v.Int? && v.i >= 0
  }

  predicate IsSha(v: Json)
  {
    v.Str? && IsSha256(v.s)
  }

  function ReadChunk(v: Json, env: Platform): Option<Chunk>
  {
    if !v.Obj? || Keys(v.members) != CHUNK_KEYS then None
    else
      var m := v.members;
      if !IsNat(m[0].value) || !IsNat(m[1].value) || !IsNat(m[3].value) || !IsSha(m[4].value) then None
      else
        var k := Chunk(m[1].value.i, AsText(m[2].value, env), m[3].value.i, m[0].value.i, m[4].value.s);
        if ValidChunk(k) then Some(k) else None
  }

  function ReadChunks(items: seq<Json>, env: Platform): (r: Option<seq<Chunk>>)
    ensures r.Some? ==> forall k <- r.value :: ValidChunk(k)
  {
    if |items| == 0 then Some([])
    else
      var first, rest := ReadChunk(items[0], env), ReadChunks(items[1..], env);
      if first.None? || rest.None? then None else Some([first.value] + rest.value)
  }

  predicate ManifestShape(v: Json)
  {
    v.Obj? && Keys(v.members) == MANIFEST_KEYS &&
    var m := v.members;
    && m[0].value == Str(EXPORT_API_VERSION) && m[4].value.Arr? && IsNat(m[1].value) && IsNat(m[2].value)
    && IsNat(m[3].value) && m[3].value.i >= 1 && IsNat(m[5].value) && IsSha(m[7].value) && IsSha(m[9].value)
    && IsSha(m[10].value)
  }

  /** AuditExportManifest.from_json on decoded text. */
  function FromJson(text: string, env: Platform): Option<Manifest>
  {
    var raw := Loads(text, env.floatRepr);
    if raw.None? || !ManifestShape(raw.value) then None
    else
      var m := raw.value.members;
      var chunks := ReadChunks(m[4].value.items, env);
      if chunks.None? || m[2].value.i != |chunks.value| then None
      else
        var manifest := Manifest(
          AsText(m[6].value, env), AsText(m[8].value, env), m[5].value.i, m[9].value.s, m[7].value.s,
          m[1].value.i, m[3].value.i, chunks.value, m[10].value.s);
        if ValidManifest(manifest, env) then Some(manifest) else None
  }

  // ---------- packages

  function Concat(pieces: seq<Bytes>): Bytes
  {
    if |pieces| == 0 then [] else pieces[0] + Concat(pieces[1..])
  }

  predicate CanonicalRecord(line: Bytes, env: Platform)
  {
    var v := LoadBytes(line, env);
    |line| > 0 && v.Some? && CanonicalBytes(v.value) == Some(line)
  }

  /** _validate_canonical_jsonl: LF-terminated canonical JSON records, as many as announced. */
  predicate CanonicalJsonl(value: Bytes, eventCount: int, env: Platform)
  {
    if |value| == 0 then eventCount == 0
    else
      && EndsWithLF(value)
      && var records := SplitLF(DropLast(value));
         |records| == eventCount && forall r <- records :: CanonicalRecord(r, env)
  }

  /** Content `j` is the bytes its descriptor announces. */
  predicate ContentMatches(p: Package, j: nat, env: Platform)
    requires j < |p.manifest.chunks| && j < |p.contents|
  {
    var d, content := p.manifest.chunks[j], p.contents[j];
    |content| == d.byteLength && Digest(content, env) == d.sha256
  }

  /** What validate_audit_export_package accepts. */
  predicate ValidPackage(p: Package, env: Platform)
  {
    var m := p.manifest;
    && |p.contents| == |m.chunks|
    && (forall j :: 0 <= j < |m.chunks| ==> ContentMatches(p, j, env))
    && |Concat(p.contents)| == m.byteLength
    && Digest(Concat(p.contents), env) == m.exportSha256
    && CanonicalJsonl(Concat(p.contents), m.eventCount, env)
  }

  lemma {:induction false} ConcatSnoc(pieces: seq<Bytes>, last: Bytes)
    ensures Concat(pieces + [last]) == Concat(pieces) + last
  {
    if |pieces| > 0 {
      ConcatSnoc(pieces[1..], last);
      assert (pieces + [last])[1..] == pieces[1..] + [last];
    } else {
      assert Concat([last]) == last + Concat([]);
    }
  }

  /** The validation loop over descriptors and contents. */
  method ValidatePackage(p: Package, env: Platform) returns (ok: bool)
    ensures ok <==> ValidPackage(p, env)
  {
    hide CanonicalRecord, Digest;
    var m := p.manifest;
    if |p.contents| != |m.chunks| {
      return false;
    }
    var assembled: Bytes := [];
    for j := 0 to |m.chunks|
      invariant assembled == Concat(p.contents[..j])
      invariant forall i :: 0 <= i < j ==> ContentMatches(p, i, env)
    {
      if |p.contents[j]| != m.chunks[j].byteLength || Digest(p.contents[j], env) != m.chunks[j].sha256 {
        assert !ContentMatches(p, j, env);
        return false;
      }
      assert p.contents[..j + 1] == p.contents[..j] + [p.contents[j]];
      ConcatSnoc(p.contents[..j], p.contents[j]);
      assembled := assembled + p.contents[j];
    }
    assert p.contents[..|m.chunks|] == p.contents;
    if |assembled| != m.byteLength || Digest(assembled, env) != m.exportSha256 {
      return false;
    }
    ok := ValidateJsonl(assembled, m.eventCount, env);
  }

  method ValidateJsonl(value: Bytes, eventCount: int, env: Platform) returns (ok: bool)
    ensures ok <==> CanonicalJsonl(value, eventCount, env)
  {
    hide CanonicalRecord;
    if |value| == 0 {
      return eventCount == 0;
    }
    if !EndsWithLF(value) {
      return false;
    }
    var records := SplitLF(DropLast(value));
    if |records| != eventCount {
      return false;
    }
    for j := 0 to |records|
      invariant forall i :: 0 <= i < j ==> CanonicalRecord(records[i], env)
    {
      if !CanonicalRecord(records[j], env) {
        assert records[j] in records;
        return false;
      }
    }
    return true;
  }

  // ---------- building

  /** The data cut every `size` bytes. */
  function Pieces(data: Bytes, size: nat): seq<Bytes>
    requires size > 0
    decreases |data|
  {
    if |data| == 0 then []
    else if |data| <= size then [data]
    else [data[..size]] + Pieces(data[size..], size)
  }

  function Describe(pieces: seq<Bytes>, j: nat, env: Platform): Chunk
    requires j < |pieces|
  {
    Chunk(j, ChunkName(j), |Concat(pieces[..j])|, |pieces[j]|, Digest(pieces[j], env))
  }

  /** One descriptor a piece, each at the offset where the pieces before it end. */
  function DescribeAll(pieces: seq<Bytes>, env: Platform): (chunks: seq<Chunk>)
    ensures |chunks| == |pieces|
  {
    seq(|pieces|, j requires 0 <= j < |pieces| => Describe(pieces, j, env))
  }

  /** AuditExportManifest.create, without the final checks. */
  function MakeManifest(featureId: string, s: Snapshot, byteLength: nat, chunkSize: int, chunks: seq<Chunk>,
                        env: Platform): Manifest
  {
    var m := Manifest(ExportId(featureId, s.head, s.exportSha256, env), featureId, s.eventCount, s.head,
                      s.exportSha256, byteLength, chunkSize, chunks, "");
    m.(manifestSha256 := BodySha(m, env))
  }

  function MakePackage(featureId: string, s: Snapshot, data: Bytes, chunkSize: nat, env: Platform): Package
    requires chunkSize > 0
  {
    var pieces := Pieces(data, chunkSize);
    Package(MakeManifest(featureId, s, |data|, chunkSize, DescribeAll(pieces, env), env), pieces)
  }

  /** The snapshot that packaging trusts: the same before and after the export was read. */
  function StableSnapshot(before: Bytes, middle: Bytes, after: Bytes, c: Config): Option<Snapshot>
  {
    var first, data, last := Verify(before, c), Export(middle, c), Verify(after, c);
    if first.None? || data.None? || last.None? || first != last then None
    else if Digest(data.value, c.env) != first.value.exportSha256 then None
    else first
  }

  /** What build_audit_export_package returns for the files its three reads of the ledger see. */
  function Packaged(before: Bytes, middle: Bytes, after: Bytes, chunkSize: int, c: Config): Option<Package>
  {
    var snapshot := StableSnapshot(before, middle, after, c);
    if !(MIN_CHUNK_BYTES <= chunkSize <= MAX_CHUNK_BYTES) || snapshot.None? then None
    else
      var data := Export(middle, c).value;
      var p := MakePackage(c.feature, snapshot.value, data, chunkSize, c.env);
      if CanonicalJsonl(data, snapshot.value.eventCount, c.env) && (forall k <- p.manifest.chunks :: ValidChunk(k))
         && ValidManifest(p.manifest, c.env) && ValidPackage(p, c.env)
      then Some(p) else None
  }

  /** The slicing loop of build_audit_export_package. */
  method CutChunks(data: Bytes, chunkSize: nat, env: Platform) returns (chunks: seq<Chunk>, contents: seq<Bytes>)
    requires chunkSize > 0
    ensures contents == Pieces(data, chunkSize) && chunks == DescribeAll(contents, env)
  {
    chunks, contents := [], [];
    var offset := 0;
    assert Concat(contents) == [] && Pieces(data[|data|..], chunkSize) == [] && DescribeAll([], env) == [];
    assert data[0..] == data;
    hide Digest, ChunkName, Concat, Pieces, DescribeAll;
    while offset < |data|
      invariant 0 <= offset <= |data|
      invariant Concat(contents) == data[..offset]
      invariant contents + Pieces(data[offset..], chunkSize) == Pieces(data, chunkSize)
      invariant chunks == DescribeAll(contents, env)
    {
      var end := if offset + chunkSize <= |data| then offset + chunkSize else |data|;
      var content := data[offset..end];
      FirstPiece(data, offset, end, chunkSize);
      ConcatSnoc(contents, content);
      assert data[..end] == data[..offset] + content;
      DescribeSnoc(contents, content, env);
      assert contents + ([content] + Pieces(data[end..], chunkSize))
             == (contents + [content]) + Pieces(data[end..], chunkSize);
      chunks := chunks + [Chunk(|chunks|, ChunkName(|chunks|), offset, |content|, Digest(content, env))];
      contents := contents + [content];
      offset := end;
    }
    assert contents + [] == contents;
  }

  lemma FirstPiece(data: Bytes, offset: nat, end: nat, chunkSize: nat)
    requires chunkSize > 0 && offset < |data|
    requires end == if offset + chunkSize <= |data| then offset + chunkSize else |data|
    ensures Pieces(data[offset..], chunkSize) == [data[offset..end]] + Pieces(data[end..], chunkSize)
  {
    var rest := data[offset..];
    assert rest[..end - offset] == data[offset..end];
    assert rest[end - offset..] == data[end..];
    if |rest| <= chunkSize {
      assert rest == data[offset..end];
    }
  }

  lemma DescribeSnoc(pieces: seq<Bytes>, last: Bytes, env: Platform)
    ensures DescribeAll(pieces + [last], env) ==
              DescribeAll(pieces, env)
                + [Chunk(|pieces|, ChunkName(|pieces|), |Concat(pieces)|, |last|, Digest(last, env))]
  {
    hide Concat, Digest, ChunkName;
    var all := pieces + [last];
    assert all[..|pieces|] == pieces;
    forall j | 0 <= j < |pieces| ensures Describe(all, j, env) == Describe(pieces, j, env) {
      assert all[..j] == pieces[..j];
    }
  }

  /** build_audit_export_package. */
  method BuildPackage(before: Bytes, middle: Bytes, after: Bytes, chunkSize: int,
                      c: Config) returns (r: Option<Package>)
    ensures r == Packaged(before, middle, after, chunkSize, c)
  {
    hide Verify, Export, ValidChunk, ValidManifest, ValidPackage, CanonicalJsonl, BodySha, ExportId, Pieces, Digest;
    if !(MIN_CHUNK_BYTES <= chunkSize <= MAX_CHUNK_BYTES) {
      return None;
    }
    var snapshot := StableSnapshot(before, middle, after, c);
    if snapshot.None? {
      return None;
    }
    var data := Export(middle, c).value;
    var canonical := ValidateJsonl(data, snapshot.value.eventCount, c.env);
    if !canonical {
      return None;
    }
    var chunks, contents := CutChunks(data, chunkSize, c.env);
    if exists k <- chunks :: !ValidChunk(k) {
      return None;
    }
    var m := MakeManifest(c.feature, snapshot.value, |data|, chunkSize, chunks, c.env);
    var manifestOk := CheckManifest(m, c.env);
    if !manifestOk {
      return None;
    }
    var p := Package(m, contents);
    var packageOk := ValidatePackage(p, c.env);
    return if packageOk then Some(p) else None;
  }
}
