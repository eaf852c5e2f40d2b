/** The directory hash: its framing can be decoded, so equal pre-images mean equal directories (artifact_state.py). */
module DirectoryHash {
  import opened Prelude
  import opened AuditContracts
  import opened AuditLedgerProofs
  import opened ArtifactGraphs
  import Utf8

  /** What rglob finds below a directory, by relative path. */
  datatype Entry = Regular(content: Bytes) | Subdirectory | Symlink

  type Tree = map<string, Entry>

  /** One hashed file: its path as UTF-8 and its content. */
  datatype Framed = Framed(path: Bytes, content: Bytes)

  const LIMIT: nat := 0x1_0000_0000_0000_0000

  /** n.to_bytes(width, "big"). */
  function BigEndian(n: nat, width: nat): (b: Bytes)
    ensures |b| == width
  {
    if width == 0 then [] else BigEndian(n / 256, width - 1) + [n % 256]
  }

  function FromBigEndian(b: Bytes): nat
  {
    if |b| == 0 then 0 else 256 * FromBigEndian(b[..|b| - 1]) + b[|b| - 1]
  }

  function Power256(width: nat): nat
  {
    if width == 0 then 1 else 256 * Power256(width - 1)
  }

  /** A block: its length in eight bytes, then the bytes. */
  function Block(b: Bytes): Bytes
  {
    BigEndian(|b|, 8) + b
  }

  function Frame(files: seq<Framed>): Bytes
  {
    if |files| == 0 then []
    else Frame(files[..|files| - 1]) + Block(files[|files| - 1].path) + Block(files[|files| - 1].content)
  }

  predicate Fits(files: seq<Framed>)
  {
    forall f <- files :: |f.path| < LIMIT && |f.content| < LIMIT
  }

  // ---------- hashing

  /** The regular files among the first `n` paths, in that order; None when a symlink is among them. */
  function FilesIn(t: Tree, paths: seq<string>): Option<seq<Framed>>
    requires forall p <- paths :: p in t
  {
    if |paths| == 0 then Some([])
    else
      var last := paths[|paths| - 1];
      assert last in paths;
      var before := FilesIn(t, paths[..|paths| - 1]);
      if before.None? || t[last].Symlink? then None
      else if t[last].Subdirectory? then before
      else Some(before.value + [Framed(Utf8.Encode(last), t[last].content)])
  }

  function Files(t: Tree): Option<seq<Framed>>
  {
    FilesIn(t, SortedKeys(t.Keys))
  }

  /** _hash_directory: refuse symlinks, skip subdirectories, absorb four blocks a file in path order. */
  method HashDirectory(t: Tree, env: Platform) returns (r: Option<string>)
    ensures r.Some? <==> Files(t).Some?
    ensures r.Some? ==> r.value == Digest(Frame(Files(t).value), env)
  {
    hide Digest, Utf8.Encode, Block;
    var paths := SortedKeys(t.Keys);
    var absorbed: Bytes := [];
    ghost var files: seq<Framed> := [];
    for i := 0 to |paths|
      invariant FilesIn(t, paths[..i]) == Some(files)
      invariant absorbed == Frame(files)
    {
      assert paths[i] in paths;
      assert paths[..i + 1][..i] == paths[..i];
      if t[paths[i]].Symlink? {
        FilesStop(t, paths, i + 1);
        return None;
      }
      if t[paths[i]].Regular? {
        var relative, content := Utf8.Encode(paths[i]), t[paths[i]].content;
        absorbed := absorbed + Block(relative) + Block(content);
        assert (files + [Framed(relative, content)])[..|files|] == files;
        files := files + [Framed(relative, content)];
      }
    }
    assert paths[..|paths|] == paths;
    return Some(Digest(absorbed, env));
  }

  lemma {:induction false} FilesStop(t: Tree, paths: seq<string>, n: nat)
    requires (forall p <- paths :: p in t) && n <= |paths| && FilesIn(t, paths[..n]).None?
    ensures FilesIn(t, paths).None?
    decreases |paths|
  {
    hide Utf8.Encode;
    if n == |paths| {
      assert paths[..n] == paths;
    } else {
      var init := paths[..|paths| - 1];
      forall p | p in init ensures p in t { assert p in paths; }
      assert init[..n] == paths[..n];
      FilesStop(t, init, n);
    }
  }

  // ---------- decoding

  /** The files whose frame this is, read from the front. */
  function Unframe(b: Bytes): Option<seq<Framed>>
  {
    if |b| == 0 then Some([])
    else
      var path := FirstBlock(b);
      if path.None? then None
      else
        var rest := b[8 + |path.value|..];
        var content := FirstBlock(rest);
        if content.None? then None
        else
          var more := Unframe(rest[8 + |content.value|..]);
          if more.None? then None else Some([Framed(path.value, content.value)] + more.value)
  }

  function FirstBlock(b: Bytes): (r: Option<Bytes>)
    ensures r.Some? ==> 8 + |r.value| <= |b|
  {
    if |b| < 8 then None
    else
      var n := FromBigEndian(b[..8]);
      if 8 + n > |b| then None else Some(b[8..8 + n])
  }

  lemma {:induction false} BigEndianRoundTrip(n: nat, width: nat)
    requires n < Power256(width)
    ensures FromBigEndian(BigEndian(n, width)) == n
  {
    if width > 0 {
      BigEndianRoundTrip(n / 256, width - 1);
      var b := BigEndian(n, width);
      assert b[..|b| - 1] == BigEndian(n / 256, width - 1);
    }
  }

  lemma PowerIsLimit()
    ensures Power256(8) == LIMIT
  {
    assert Power256(2) == 0x1_0000;
    assert Power256(4) == 0x1_0000_0000;
    assert Power256(6) == 0x1_0000_0000_0000;
  }

  lemma FirstBlockOf(b: Bytes, rest: Bytes)
    requires |b| < LIMIT
    ensures FirstBlock(Block(b) + rest) == Some(b) && (Block(b) + rest)[8 + |b|..] == rest
  {
    PowerIsLimit();
    BigEndianRoundTrip(|b|, 8);
    assert (Block(b) + rest)[..8] == BigEndian(|b|, 8);
    assert (Block(b) + rest)[8..8 + |b|] == b;
  }

  lemma {:induction false} FrameFirst(files: seq<Framed>)
    requires |files| > 0
    ensures Frame(files) == Block(files[0].path) + Block(files[0].content) + Frame(files[1..])
    decreases |files|
  {
    hide Block;
    var n := |files| - 1;
    if n == 0 {
      assert Frame(files[1..]) == [] && files[..0] == [];
    } else {
      FrameFirst(files[..n]);
      assert files[..n][1..] == files[1..][..n - 1];
      var head := Block(files[0].path) + Block(files[0].content);
      var last := Block(files[n].path) + Block(files[n].content);
      var middle := Frame(files[1..][..n - 1]);
      assert Frame(files) == (head + middle) + last;
      assert Frame(files[1..]) == middle + last;
    }
  }

  lemma UnframeFirst(f: Framed, tail: Bytes)
    requires |f.path| < LIMIT && |f.content| < LIMIT && Unframe(tail).Some?
    ensures Unframe(Block(f.path) + (Block(f.content) + tail)) == Some([f] + Unframe(tail).value)
  {
    hide Block, FirstBlock;
    var rest := Block(f.content) + tail;
    FirstBlockOf(f.path, rest);
    FirstBlockOf(f.content, tail);
    BlockLength(f.path);
  }

  lemma FitsSplits(files: seq<Framed>)
    requires Fits(files) && |files| > 0
    ensures Fits(files[1..]) && |files[0].path| < LIMIT && |files[0].content| < LIMIT
  {
    assert files[0] in files;
    forall x | x in files[1..] ensures x in files {}
  }

  lemma UnframeNone()
    ensures Unframe(Frame([])) == Some([])
  {
  }

  lemma Reassociate(a: Bytes, b: Bytes, c: Bytes)
    ensures a + b + c == a + (b + c)
  {
  }

  /** Decoding undoes framing, whatever the files are. */
  lemma {:induction false} UnframeFrame(files: seq<Framed>)
    requires Fits(files)
    ensures Unframe(Frame(files)) == Some(files)
    decreases |files|
  {
    hide *;
    if |files| == 0 {
      UnframeNone();
      assert files == [];
    } else {
      var f, tail := files[0], files[1..];
      FitsSplits(files);
      UnframeFrame(tail);
      FrameFirst(files);
      UnframeFirst(f, Frame(tail));
      Reassociate(Block(f.path), Block(f.content), Frame(tail));
      assert files == [f] + tail;
    }
  }

  lemma BlockLength(b: Bytes)
    ensures |Block(b)| == 8 + |b|
  {
  }

  // ---------- directories

  /** The regular files of a tree as a map. */
  function Regulars(t: Tree): map<string, Bytes>
  {
    map p | p in t && t[p].Regular? :: t[p].content
  }

  /** A listing shows exactly these files. */
  ghost predicate Lists(files: seq<Framed>, regulars: map<string, Bytes>)
  {
    && (forall f <- files :: exists p <- regulars :: f == Framed(Utf8.Encode(p), regulars[p]))
    && (forall p <- regulars :: Framed(Utf8.Encode(p), regulars[p]) in files)
  }

  lemma {:induction false} FilesList(t: Tree, paths: seq<string>)
    requires (forall p <- paths :: p in t) && FilesIn(t, paths).Some?
    ensures Lists(FilesIn(t, paths).value, map p | p in paths && t[p].Regular? :: t[p].content)
    decreases |paths|
  {
    hide Utf8.Encode;
    if |paths| > 0 {
      var init, last := paths[..|paths| - 1], paths[|paths| - 1];
      assert paths == init + [last];
      FilesList(t, init);
    }
  }

  lemma SameListSameFiles(files: seq<Framed>, r: map<string, Bytes>, s: map<string, Bytes>)
    requires Lists(files, r) && Lists(files, s)
    ensures r.Keys <= s.Keys && forall p <- r :: r[p] == s[p]
  {
    forall p | p in r ensures p in s && r[p] == s[p] {
      var f := Framed(Utf8.Encode(p), r[p]);
      assert f in files;
      var q :| q in s && f == Framed(Utf8.Encode(q), s[q]);
      Utf8.EncodeInjective(p, q);
    }
  }

  lemma RegularsOf(t: Tree)
    requires Files(t).Some?
    ensures Lists(Files(t).value, Regulars(t))
  {
    var paths := SortedKeys(t.Keys);
    FilesList(t, paths);
    assert (map p | p in paths && t[p].Regular? :: t[p].content) == Regulars(t);
  }

  /** What one path contributes to a listing. */
  function Item(t: Tree, p: string): seq<Framed>
    requires p in t
  {
    if t[p].Regular? then [Framed(Utf8.Encode(p), t[p].content)] else []
  }

  lemma {:induction false} FrontFiles(t: Tree, first: string, rest: seq<string>)
    requires first in t && (forall p <- rest :: p in t) && !t[first].Symlink?
    ensures forall p <- [first] + rest :: p in t
    ensures FilesIn(t, [first] + rest) ==
              if FilesIn(t, rest).None? then None else Some(Item(t, first) + FilesIn(t, rest).value)
    decreases |rest|
  {
    hide Utf8.Encode;
    var all := [first] + rest;
    if |rest| == 0 {
      assert all[..0] == [] && all[0] == first && FilesIn(t, all[..0]) == Some([]);
      assert Item(t, first) + [] == Item(t, first) == [] + Item(t, first);
    } else {
      var init, last := rest[..|rest| - 1], rest[|rest| - 1];
      assert all[..|all| - 1] == [first] + init && all[|all| - 1] == last;
      assert last in rest;
      forall p | p in init ensures p in t { assert p in rest; }
      FrontFiles(t, first, init);
      if FilesIn(t, init).Some? && t[last].Regular? {
        var f := Framed(Utf8.Encode(last), t[last].content);
        assert (Item(t, first) + FilesIn(t, init).value) + [f] == Item(t, first) + (FilesIn(t, init).value + [f]);
      }
    }
  }

  lemma SortedKeysFront(ids: set<string>, least: string)
    requires IsLeast(least, ids)
    ensures SortedKeys(ids) == [least] + SortedKeys(ids - {least})
  {
    LeastUnique(ids);
  }

  lemma LeastOfSubset(ids: set<string>, kept: set<string>, least: string)
    requires IsLeast(least, ids) && kept <= ids && least in kept
    ensures IsLeast(least, kept)
  {
  }

  /** A sorted listing depends only on which files there are. */
  lemma {:induction false} FilesInSkipsOthers(t: Tree, u: Tree, ids: set<string>, kept: set<string>)
    requires ids <= t.Keys && kept <= ids && kept <= u.Keys
    requires forall p <- ids :: !t[p].Symlink? && (t[p].Regular? <==> p in kept)
    requires forall p <- kept :: u[p] == t[p]
    ensures FilesIn(t, SortedKeys(ids)) == FilesIn(u, SortedKeys(kept))
    decreases |ids|
  {
    hide Utf8.Encode, FilesIn, SortedKeys, IsLeast;
    if ids != {} {
      var least := LeastExists(ids);
      LeastOf(ids, least);
      SortedKeysFront(ids, least);
      FrontFiles(t, least, SortedKeys(ids - {least}));
      if least in kept {
        LeastOfSubset(ids, kept, least);
        FilesInSkipsOthers(t, u, ids - {least}, kept - {least});
        SortedKeysFront(kept, least);
        FrontFiles(u, least, SortedKeys(kept - {least}));
      } else {
        FilesInSkipsOthers(t, u, ids - {least}, kept);
        assert Item(t, least) == [];
        var others := FilesIn(t, SortedKeys(ids - {least}));
        assert others.Some? ==> [] + others.value == others.value;
      }
    } else {
      assert kept == {};
      FilesOfNone(t);
      FilesOfNone(u);
    }
  }

  lemma LeastOf(ids: set<string>, least: string)
    requires IsLeast(least, ids)
    ensures least in ids
  {
  }

  lemma FilesOfNone(t: Tree)
    ensures FilesIn(t, SortedKeys({})) == Some([])
  {
  }

  /** The tree that holds only these files. */
  function OnlyFiles(r: map<string, Bytes>): Tree
  {
    map p | p in r :: Regular(r[p])
  }

  lemma FilesOfRegulars(t: Tree)
    requires Files(t).Some?
    ensures Files(t) == Files(OnlyFiles(Regulars(t)))
  {
    var u := OnlyFiles(Regulars(t));
    NoSymlinks(t, SortedKeys(t.Keys));
    FilesInSkipsOthers(t, u, t.Keys, u.Keys);
  }

  lemma {:induction false} NoSymlinks(t: Tree, paths: seq<string>)
    requires (forall p <- paths :: p in t) && FilesIn(t, paths).Some?
    ensures forall p <- paths :: !t[p].Symlink?
    decreases |paths|
  {
    hide Utf8.Encode;
    if |paths| > 0 {
      NoSymlinks(t, paths[..|paths| - 1]);
      assert paths == paths[..|paths| - 1] + [paths[|paths| - 1]];
    }
  }

  /**
   * The directory pre-image is unambiguous: two directories have the same one exactly when they
   * hold the same files with the same bytes.
   */
  lemma SamePreimageIff(t: Tree, u: Tree)
    requires Files(t).Some? && Files(u).Some? && Fits(Files(t).value) && Fits(Files(u).value)
    ensures Frame(Files(t).value) == Frame(Files(u).value) <==> Regulars(t) == Regulars(u)
  {
    hide Frame, Unframe, Lists, Regulars, Files;
    if Frame(Files(t).value) == Frame(Files(u).value) {
      UnframeFrame(Files(t).value);
      UnframeFrame(Files(u).value);
      RegularsOf(t);
      RegularsOf(u);
      SameListSameFiles(Files(t).value, Regulars(t), Regulars(u));
      SameListSameFiles(Files(t).value, Regulars(u), Regulars(t));
    }
    if Regulars(t) == Regulars(u) {
      FilesOfRegulars(t);
      FilesOfRegulars(u);
    }
  }

  /** Equal directory hashes: the same files, or a digest collision between the two pre-images. */
  lemma SameHashOrCollision(t: Tree, u: Tree, env: Platform)
    requires Files(t).Some? && Files(u).Some? && Fits(Files(t).value) && Fits(Files(u).value)
    requires Digest(Frame(Files(t).value), env) == Digest(Frame(Files(u).value), env)
    ensures Regulars(t) == Regulars(u) || IsCollision(Frame(Files(t).value), Frame(Files(u).value), env)
  {
    SamePreimageIff(t, u);
  }
}
