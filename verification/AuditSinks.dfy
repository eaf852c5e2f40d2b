/** The local filesystem sink: package directories, loading them back, one handoff, receipts (audit_sinks.py). */
module AuditSinks {
  import opened Prelude
  import opened Json
  import opened JsonProofs
  import opened AuditContracts
  import opened AuditLedgerProofs
  import opened AuditExport
  import opened AuditExportProofs
  import Utf8

  type Dir = map<string, Bytes>

  /** A writer of the destination: its staging directory is named after it. */
  datatype Writer = Writer(process: nat, thread: nat)

  /** The directory names the sink uses; no two of them coincide. */
  datatype Name = Final(id: string) | Legacy(id: string) | Staging(id: string, writer: Writer)

  /** A package as its constructors let it through. */
  predicate GoodPackage(p: Package, env: Platform)
  {
    ValidManifest(p.manifest, env) && ValidPackage(p, env)
  }

  function ManifestBytes(m: Manifest): Bytes
  {
    Utf8.Encode(ToJson(m))
  }

  // ---------- the files of a package, in the order they are written

  function FileCount(p: Package): nat
  {
    |p.contents| + 1
  }

  function FileName(p: Package, i: nat): string
    requires i < FileCount(p) && |p.manifest.chunks| == |p.contents|
  {
    if i == 0 then "manifest.json" else p.manifest.chunks[i - 1].name
  }

  function FileBytes(p: Package, i: nat): Bytes
    requires i < FileCount(p)
  {
    if i == 0 then ManifestBytes(p.manifest) else p.contents[i - 1]
  }

  /** A directory holding the first `n` files. */
  function FirstFiles(p: Package, n: nat): Dir
    requires n <= FileCount(p) && |p.manifest.chunks| == |p.contents|
  {
    if n == 0 then map[] else FirstFiles(p, n - 1)[FileName(p, n - 1) := FileBytes(p, n - 1)]
  }

  function DirOf(p: Package): Dir
    requires |p.manifest.chunks| == |p.contents|
  {
    FirstFiles(p, FileCount(p))
  }

  /** The file set a manifest announces. */
  function ExpectedNames(m: Manifest): set<string>
  {
    {"manifest.json"} + (set k <- m.chunks :: k.name)
  }

  /** _load_existing: a canonical manifest, exactly its files, and contents that validate. */
  function LoadedFrom(dir: Dir, env: Platform): Option<Package>
  {
    if "manifest.json" !in dir then None
    else
      var text := Utf8.Decode(dir["manifest.json"]);
      var m := if text.Some? then FromJson(text.value, env) else None;
      if m.None? || dir["manifest.json"] != ManifestBytes(m.value) || dir.Keys != ExpectedNames(m.value) then None
      else
        var p := Package(m.value, ContentsIn(dir, m.value));
        if ValidPackage(p, env) then Some(p) else None
  }

  function ContentsIn(dir: Dir, m: Manifest): seq<Bytes>
    requires dir.Keys == ExpectedNames(m)
  {
    seq(|m.chunks|, j requires 0 <= j < |m.chunks| => assert m.chunks[j] in m.chunks; dir[m.chunks[j].name])
  }

  /** _assert_same: equal manifest text and equal chunk bytes. */
  predicate Same(current: Package, expected: Package)
  {
    ToJson(current.manifest) == ToJson(expected.manifest) && current.contents == expected.contents
  }

  /** Finding `dir` at the final path is as good as having published `p`. */
  predicate Confirms(dir: Dir, p: Package, env: Platform)
  {
    var current := LoadedFrom(dir, env);
    current.Some? && Same(current.value, p)
  }

  // ---------- loading

  lemma NamesDistinct(p: Package, i: nat, j: nat, env: Platform)
    requires GoodPackage(p, env) && i < FileCount(p) && j < FileCount(p)
    ensures FileName(p, i) == FileName(p, j) ==> i == j
  {
    hide ValidHeader, ContentMatches, CanonicalJsonl, ChunkName;
    forall n: nat | 0 < n < FileCount(p) ensures FileName(p, n) == ChunkName(n - 1) {
      var k := p.manifest.chunks[n - 1];
      assert k in p.manifest.chunks && Contiguous(p.manifest.chunks, n - 1, p.manifest.chunkSize);
    }
    if i > 0 && j > 0 {
      ChunkNamesDistinct(i - 1, j - 1);
    } else if i + j > 0 {
      ChunkNamesDistinct(i + j - 1, 0);
    }
  }

  /** Every file already written is in the directory with its own bytes, and nothing else is. */
  lemma {:induction false} FirstFilesHold(p: Package, n: nat, env: Platform)
    requires GoodPackage(p, env) && n <= FileCount(p)
    ensures forall i: nat :: i < n
              ==> FileName(p, i) in FirstFiles(p, n) && FirstFiles(p, n)[FileName(p, i)] == FileBytes(p, i)
    ensures forall name <- FirstFiles(p, n) :: exists i: nat :: i < n && name == FileName(p, i)
  {
    hide GoodPackage, FileBytes;
    assert |p.manifest.chunks| == |p.contents| by { GoodSizes(p, env); }
    if n > 0 {
      FirstFilesHold(p, n - 1, env);
      forall i: nat | i < n - 1 ensures FileName(p, i) != FileName(p, n - 1) {
        NamesDistinct(p, i, n - 1, env);
      }
    }
  }

  lemma GoodSizes(p: Package, env: Platform)
    requires GoodPackage(p, env)
    ensures |p.manifest.chunks| == |p.contents|
  {
  }

  lemma DirKeys(p: Package, env: Platform)
    requires GoodPackage(p, env)
    ensures |p.manifest.chunks| == |p.contents| && DirOf(p).Keys == ExpectedNames(p.manifest)
  {
    hide GoodPackage, FirstFiles, FileBytes;
    GoodSizes(p, env);
    FirstFilesHold(p, FileCount(p), env);
    forall name | name in ExpectedNames(p.manifest) ensures name in DirOf(p) {
      if name == "manifest.json" {
        assert name == FileName(p, 0);
      } else {
        var k :| k in p.manifest.chunks && k.name == name;
        var j :| 0 <= j < |p.manifest.chunks| && p.manifest.chunks[j] == k;
        assert name == FileName(p, j + 1);
      }
    }
    forall name | name in DirOf(p) ensures name in ExpectedNames(p.manifest) {
      var i: nat :| i < FileCount(p) && name == FileName(p, i);
      if i > 0 { assert p.manifest.chunks[i - 1] in p.manifest.chunks; }
    }
  }

  /** What is loaded from a package's own directory is the package. */
  lemma LoadsOwnDir(p: Package, env: Platform)
    requires GoodPackage(p, env)
    ensures |p.manifest.chunks| == |p.contents| && LoadedFrom(DirOf(p), env) == Some(p)
  {
    hide ValidManifest, ValidPackage, FirstFiles, ToJson, FromJson;
    GoodSizes(p, env);
    DirKeys(p, env);
    FirstFilesHold(p, FileCount(p), env);
    var dir := DirOf(p);
    assert FileName(p, 0) == "manifest.json" && dir["manifest.json"] == ManifestBytes(p.manifest);
    Utf8.DecodeEncode(ToJson(p.manifest));
    ManifestRoundTrip(p.manifest, env);
    forall j | 0 <= j < |p.contents| ensures ContentsIn(dir, p.manifest)[j] == p.contents[j] {
      assert FileName(p, j + 1) == p.manifest.chunks[j].name;
      assert dir[FileName(p, j + 1)] == FileBytes(p, j + 1);
    }
    assert ContentsIn(dir, p.manifest) == p.contents;
  }

  lemma FromJsonValid(text: string, env: Platform)
    requires FromJson(text, env).Some?
    ensures ValidManifest(FromJson(text, env).value, env)
  {
  }

  lemma LoadedShape(dir: Dir, p: Package, env: Platform)
    requires LoadedFrom(dir, env) == Some(p)
    ensures GoodPackage(p, env) && |p.manifest.chunks| == |p.contents|
    ensures dir.Keys == DirOf(p).Keys &&
              forall i :: 0 <= i < FileCount(p) ==> FileName(p, i) in dir && dir[FileName(p, i)] == FileBytes(p, i)
  {
    hide ValidManifest, ValidPackage, FirstFiles, ToJson, FromJson, Utf8.Decode;
    FromJsonValid(Utf8.Decode(dir["manifest.json"]).value, env);
    DirKeys(p, env);
  }

  /** A directory loads as `p` exactly when it is complete: `p` is good and the directory is its own. */
  lemma LoadsIff(dir: Dir, p: Package, env: Platform)
    ensures LoadedFrom(dir, env) == Some(p) <==>
              GoodPackage(p, env) && |p.manifest.chunks| == |p.contents| && dir == DirOf(p)
  {
    hide ValidManifest, ValidPackage, GoodPackage, FirstFiles, ToJson, FromJson, LoadedFrom, FileName, FileBytes;
    if LoadedFrom(dir, env) == Some(p) {
      LoadedShape(dir, p, env);
      DirKeys(p, env);
      FirstFilesHold(p, FileCount(p), env);
      forall name | name in dir ensures dir[name] == DirOf(p)[name] {
        var i: nat :| i < FileCount(p) && name == FileName(p, i);
        assert DirOf(p)[FileName(p, i)] == FileBytes(p, i);
      }
    }
    if GoodPackage(p, env) {
      LoadsOwnDir(p, env);
    }
  }

  /** A directory confirms a good package exactly when it is that package's directory. */
  lemma ConfirmsIff(dir: Dir, p: Package, env: Platform)
    requires GoodPackage(p, env)
    ensures |p.manifest.chunks| == |p.contents|
    ensures Confirms(dir, p, env) <==> dir == DirOf(p)
  {
    hide LoadedFrom, ValidPackage, ValidManifest, ToJson, DirOf;
    GoodSizes(p, env);
    LoadsIff(dir, p, env);
    if Confirms(dir, p, env) {
      var current := LoadedFrom(dir, env).value;
      LoadsIff(dir, current, env);
      ToJsonInjective(current.manifest, p.manifest, env);
    }
  }

  // ---------- one handoff, alone in the destination

  datatype Status = Accepted | AlreadyPresent

  function TotalBytes(p: Package, n: nat): nat
    requires n <= FileCount(p)
  {
    if n == 0 then 0 else TotalBytes(p, n - 1) + |FileBytes(p, n - 1)|
  }

  /** The destination directory; `room` is how many more bytes the disk takes before writes fail. */
  class Destination {
    var dirs: map<Name, Dir>
    var room: nat

    constructor (dirs: map<Name, Dir>, room: nat)
      ensures this.dirs == dirs && this.room == room
    {
      this.dirs, this.room := dirs, room;
    }

    /** Remove a leftover staging directory, if there is one. */
    method RemoveStaging(at: Name)
      modifies this`dirs
      ensures dirs == old(dirs) - {at}
    {
      dirs := dirs - {at};
    }

    /** Create a new file and write it: an existing name is refused, a failed write leaves a prefix. */
    method WriteExclusive(at: Name, name: string, bytes: Bytes) returns (done: bool)
      modifies this
      ensures at !in old(dirs) || name in old(dirs)[at] ==> !done && dirs == old(dirs) && room == old(room)
      ensures at in old(dirs) && name !in old(dirs)[at] ==>
                && (done <==> |bytes| <= old(room))
                && (done ==> dirs == old(dirs)[at := old(dirs)[at][name := bytes]] && room == old(room) - |bytes|)
                && (!done ==> dirs == old(dirs)[at := old(dirs)[at][name := bytes[..old(room)]]] && room == 0)
    {
      if at !in dirs || name in dirs[at] {
        return false;
      }
      var sent := if |bytes| <= room then |bytes| else room;
      assert bytes[..|bytes|] == bytes;
      dirs := dirs[at := dirs[at][name := bytes[..sent]]];
      room := room - sent;
      return sent == |bytes|;
    }

    /**
     * handoff(): an existing export is confirmed or refused and nothing changes; otherwise the
     * package is staged and appears at the final path whole, or the staging is removed again.
     */
    method Handoff(p: Package, me: Writer, env: Platform) returns (r: Option<Status>)
      requires ValidManifest(p.manifest, env)
      modifies this
      ensures !ValidPackage(p, env) ==> r.None? && dirs == old(dirs)
      ensures ValidPackage(p, env) ==>
                var final := Final(p.manifest.exportId);
                var cleared := old(dirs) - {Legacy(p.manifest.exportId), Staging(p.manifest.exportId, me)};
                if final in old(dirs) then
                  dirs == old(dirs) && r == if old(dirs)[final] == DirOf(p) then Some(AlreadyPresent) else None
                else if TotalBytes(p, FileCount(p)) <= old(room) then
                  dirs == cleared[final := DirOf(p)] && r == Some(Accepted)
                else dirs == cleared && r.None?
    {
      hide LoadedFrom, ValidManifest, Confirms, FirstFiles, TotalBytes, DirOf, FileCount;
      var ok := ValidatePackage(p, env);
      if !ok {
        return None;
      }
      hide ValidPackage;
      var final := Final(p.manifest.exportId);
      if final in dirs {
        ConfirmsIff(dirs[final], p, env);
        return if Confirms(dirs[final], p, env) then Some(AlreadyPresent) else None;
      }
      var published := StageAndPublish(p, me, env);
      if !published {
        return None;
      }
      ConfirmsIff(dirs[final], p, env);
      return if Confirms(dirs[final], p, env) then Some(Accepted) else None;
    }

    /** The branch without an existing export: stage, then rename, or remove the staging again. */
    method StageAndPublish(p: Package, me: Writer, env: Platform) returns (published: bool)
      requires GoodPackage(p, env) && Final(p.manifest.exportId) !in dirs
      modifies this
      ensures published <==> TotalBytes(p, FileCount(p)) <= old(room)
      ensures var cleared := old(dirs) - {Legacy(p.manifest.exportId), Staging(p.manifest.exportId, me)};
              && |p.manifest.chunks| == |p.contents|
              && dirs == if published then cleared[Final(p.manifest.exportId) := DirOf(p)] else cleared
    {
      hide *;
      GoodSizes(p, env);
      var final, staging := Final(p.manifest.exportId), Staging(p.manifest.exportId, me);
      RemoveStaging(Legacy(p.manifest.exportId));
      RemoveStaging(staging);
      RemovedBoth(old(dirs), Legacy(p.manifest.exportId), staging);
      ghost var cleared := dirs;
      dirs := dirs[staging := map[]];
      published := WriteFiles(p, staging, env);
      StagedAndGone(cleared, staging, map[], dirs[staging]);
      dirs := if published then (dirs - {staging})[final := dirs[staging]] else dirs - {staging};
    }

    /** Write the manifest and every chunk into an empty staging directory. */
    method WriteFiles(p: Package, at: Name, env: Platform) returns (done: bool)
      requires GoodPackage(p, env) && at in dirs && dirs[at] == map[]
      modifies this
      ensures done <==> TotalBytes(p, FileCount(p)) <= old(room)
      ensures |p.manifest.chunks| == |p.contents| && (done ==> dirs == old(dirs)[at := DirOf(p)])
      ensures at in dirs && dirs == old(dirs)[at := dirs[at]]
    {
      hide FileBytes, FileName, GoodPackage;
      GoodSizes(p, env);
      var i := 0;
      while i < FileCount(p)
        invariant i <= FileCount(p)
        invariant dirs == old(dirs)[at := FirstFiles(p, i)]
        invariant room == old(room) - TotalBytes(p, i) && TotalBytes(p, i) <= old(room)
      {
        FreshName(p, i, env);
        var written := WriteExclusive(at, FileName(p, i), FileBytes(p, i));
        if !written {
          TotalGrows(p, i + 1, FileCount(p));
          return false;
        }
        i := i + 1;
      }
      return true;
    }
  }

  lemma RemovedBoth<K, V>(m: map<K, V>, a: K, b: K)
    ensures m - {a} - {b} == m - {a, b}
  {
  }

  /** Creating, filling and removing an entry leaves the map as it was. */
  lemma StagedAndGone<K, V>(m: map<K, V>, k: K, first: V, last: V)
    requires k !in m
    ensures m[k := first][k := last] == m[k := last] && m[k := last] - {k} == m
  {
  }

  lemma FreshName(p: Package, i: nat, env: Platform)
    requires GoodPackage(p, env) && i < FileCount(p)
    ensures |p.manifest.chunks| == |p.contents| && FileName(p, i) !in FirstFiles(p, i)
  {
    hide ValidManifest, ValidPackage, FileBytes, FirstFiles, FileName;
    GoodSizes(p, env);
    FirstFilesHold(p, i, env);
    if FileName(p, i) in FirstFiles(p, i) {
      var j: nat :| j < i && FileName(p, i) == FileName(p, j);
      NamesDistinct(p, i, j, env);
    }
  }

  lemma {:induction false} TotalGrows(p: Package, m: nat, n: nat)
    requires m <= n <= FileCount(p)
    ensures TotalBytes(p, m) <= TotalBytes(p, n)
  {
    hide FileBytes;
    if m < n {
      TotalGrows(p, m, n - 1);
    }
  }

  // ---------- receipts

  datatype Receipt = Receipt(
    sinkId: string, exportId: string, manifestSha256: string, chunkSha256: seq<string>, status: Status)

  function ChunkShas(m: Manifest): seq<string>
  {
    seq(|m.chunks|, j requires 0 <= j < |m.chunks| => m.chunks[j].sha256)
  }

  /** AuditExportReceipt.create, up to the identifiers derived from these fields. */
  function MakeReceipt(sinkId: string, p: Package, status: Status): Receipt
  {
    Receipt(sinkId, p.manifest.exportId, p.manifest.manifestSha256, ChunkShas(p.manifest), status)
  }

  /** _verify_receipt. */
  predicate VerifiesReceipt(r: Receipt, sinkId: string, p: Package)
  {
    && r.sinkId == sinkId && r.exportId == p.manifest.exportId
    && r.manifestSha256 == p.manifest.manifestSha256 && r.chunkSha256 == ChunkShas(p.manifest)
  }

  lemma UnsignedText(m: Manifest, n: Manifest, fr: FloatRepr)
    requires Dumps(UnsignedJson(m)) == Dumps(UnsignedJson(n))
    ensures UnsignedJson(m) == UnsignedJson(n)
  {
    hide Dumps, UnsignedJson, WellFormed;
    UnsignedWellFormed(m, fr);
    UnsignedWellFormed(n, fr);
    LoadsDumps(UnsignedJson(m), fr);
    LoadsDumps(UnsignedJson(n), fr);
  }

  lemma UnsignedWellFormed(m: Manifest, fr: FloatRepr)
    ensures WellFormed(UnsignedJson(m), fr)
  {
    hide UnsignedMembers, Less;
    ManifestWellFormed(m, fr);
    var all, init := ManifestJson(m).members, UnsignedJson(m).members;
    assert forall j :: 0 <= j < |init| ==> init[j] == all[j];
    forall v | v in init ensures WellFormed(v.value, fr) {
      assert v in all;
    }
  }

  lemma {:induction false} SameChunksJson(ks: seq<Chunk>, ls: seq<Chunk>)
    requires ChunksJson(ks) == ChunksJson(ls)
    ensures ks == ls
  {
    forall j | 0 <= j < |ks| ensures ks[j] == ls[j] {
      var a, b := ChunkJson(ks[j]), ChunkJson(ls[j]);
      assert ChunksJson(ks)[j] == ChunksJson(ls)[j];
      assert a.members[0] == b.members[0] && a.members[1] == b.members[1] && a.members[2] == b.members[2];
      assert a.members[3] == b.members[3] && a.members[4] == b.members[4];
    }
  }

  lemma SameUnsigned(m: Manifest, n: Manifest)
    requires UnsignedJson(m) == UnsignedJson(n)
    ensures m.(manifestSha256 := n.manifestSha256) == n
  {
    hide ChunksJson;
    var a, b := UnsignedMembers(m), UnsignedMembers(n);
    assert a[1] == b[1] && a[3] == b[3] && a[4] == b[4] && a[5] == b[5] && a[6] == b[6];
    assert a[7] == b[7] && a[8] == b[8] && a[9] == b[9];
    SameChunksJson(m.chunks, n.chunks);
  }

  /** A receipt made for one package verifies for another only if the manifests are equal, or collide. */
  lemma ReceiptBinds(sinkId: string, p: Package, q: Package, status: Status, env: Platform)
    requires GoodPackage(p, env) && GoodPackage(q, env)
    requires VerifiesReceipt(MakeReceipt(sinkId, p, status), sinkId, q)
    ensures p.manifest == q.manifest
            || IsCollision(Utf8.Encode(Dumps(UnsignedJson(p.manifest))), Utf8.Encode(Dumps(UnsignedJson(q.manifest))),
               env)
  {
    hide Dumps, UnsignedJson, ValidPackage, Contiguous, TotalLength, ValidChunk, ExportId, ChunkShas, IsSha256,
         IsExportId;
    var a, b := Dumps(UnsignedJson(p.manifest)), Dumps(UnsignedJson(q.manifest));
    if Utf8.Encode(a) == Utf8.Encode(b) {
      Utf8.EncodeInjective(a, b);
      UnsignedText(p.manifest, q.manifest, env.floatRepr);
      SameUnsigned(p.manifest, q.manifest);
    }
  }
}
