/** The terms of the freshness engine spelled out over files, records and path templates (artifact_state.py). */
module ArtifactTerms {
  import opened Prelude
  import opened ArtifactGraphs
  import opened ArtifactFreshness
  import opened ArtifactEvaluation
  import opened ArtifactRecording
  import opened AuditContracts

  // ---------- path templates

  datatype Piece = Literal(text: string) | FeatureSlot | DomainSlot

  /** Literal text without braces, and slots. */
  predicate Plain(pieces: seq<Piece>)
  {
    forall p <- pieces :: p.Literal? ==> '{' !in p.text
  }

  /** The template as it is written in a schema. */
  function Written(pieces: seq<Piece>): string
  {
    if |pieces| == 0 then ""
    else
      (match pieces[0] case Literal(text) => text case FeatureSlot => "{feature}" case DomainSlot => "{domain}")
      + Written(pieces[1..])
  }

  /** The template with its slots filled. */
  function Filled(pieces: seq<Piece>, feature: string, domain: string): string
  {
    if |pieces| == 0 then ""
    else
      (match pieces[0] case Literal(text) => text case FeatureSlot => feature case DomainSlot => domain)
      + Filled(pieces[1..], feature, domain)
  }

  lemma DiffersAt(s: string, prefix: string, k: nat)
    requires k < |s| && k < |prefix| && s[k] != prefix[k]
    ensures !StartsWith(s, prefix)
  {
  }

  /** Text without an opening brace passes through. */
  lemma {:induction false} ReplaceSkips(text: string, rest: string, pattern: string, value: string)
    requires |pattern| > 0 && pattern[0] == '{' && '{' !in text
    ensures Replace(text + rest, pattern, value) == text + Replace(rest, pattern, value)
    ensures Mentions(text + rest, pattern) <==> Mentions(rest, pattern)
  {
    if |text| == 0 {
      assert text + rest == rest;
    } else {
      assert text[0] in text;
      assert (text + rest)[1..] == text[1..] + rest;
      ReplaceSkips(text[1..], rest, pattern, value);
      DiffersAt(text + rest, pattern, 0);
      assert text == [text[0]] + text[1..];
    }
  }

  /** The pattern itself is replaced. */
  lemma ReplaceHits(rest: string, pattern: string, value: string)
    requires |pattern| > 0
    ensures Replace(pattern + rest, pattern, value) == value + Replace(rest, pattern, value)
    ensures Mentions(pattern + rest, pattern)
  {
    var s := pattern + rest;
    assert s[..|pattern|] == pattern && s[|pattern|..] == rest;
  }

  /** The other slot is not. */
  lemma OtherSlot(rest: string, value: string)
    ensures Replace("{domain}" + rest, "{feature}", value) == "{domain}" + Replace(rest, "{feature}", value)
    ensures Mentions("{domain}" + rest, "{feature}") <==> Mentions(rest, "{feature}")
    ensures Mentions("{feature}" + rest, "{domain}") <==> Mentions(rest, "{domain}")
  {
    SlotSkipped("{domain}", rest, "{feature}", value);
    SlotSkipped("{feature}", rest, "{domain}", value);
  }

  lemma SlotSkipped(slot: string, rest: string, pattern: string, value: string)
    requires |slot| > 1 && |pattern| > 1 && slot[1] != pattern[1] && '{' !in slot[1..]
    requires slot[0] == '{' && pattern[0] == '{'
    ensures Replace(slot + rest, pattern, value) == slot + Replace(rest, pattern, value)
    ensures Mentions(slot + rest, pattern) <==> Mentions(rest, pattern)
  {
    DiffersAt(slot + rest, pattern, 1);
    assert (slot + rest)[1..] == slot[1..] + rest;
    ReplaceSkips(slot[1..], rest, pattern, value);
    assert slot == [slot[0]] + slot[1..];
  }

  /** Filling the feature slots leaves the template of the rest. */
  function WithFeature(pieces: seq<Piece>, feature: string): seq<Piece>
  {
    seq(|pieces|, k requires 0 <= k < |pieces| => if pieces[k] == FeatureSlot then Literal(feature) else pieces[k])
  }

  lemma {:induction false} FeatureFilled(pieces: seq<Piece>, feature: string)
    requires Plain(pieces)
    ensures Replace(Written(pieces), "{feature}", feature) == Written(WithFeature(pieces, feature))
    ensures Mentions(Written(pieces), "{domain}") <==> DomainSlot in pieces
  {
    if |pieces| > 0 {
      var rest := pieces[1..];
      FeatureFilled(rest, feature);
      assert WithFeature(pieces, feature)[1..] == WithFeature(rest, feature);
      assert pieces == [pieces[0]] + rest;
      match pieces[0]
      case Literal(text) =>
        ReplaceSkips(text, Written(rest), "{feature}", feature);
        ReplaceSkips(text, Written(rest), "{domain}", feature);
      case FeatureSlot =>
        ReplaceHits(Written(rest), "{feature}", feature);
        OtherSlot(Written(rest), feature);
      case DomainSlot =>
        OtherSlot(Written(rest), feature);
        ReplaceHits(Written(rest), "{domain}", feature);
    }
  }

  lemma {:induction false} DomainFilled(pieces: seq<Piece>, feature: string, domain: string)
    requires Plain(pieces) && '{' !in feature
    ensures var rendered := Written(WithFeature(pieces, feature));
            && Replace(rendered, "{domain}", domain) == Filled(pieces, feature, domain)
            && (Mentions(rendered, "{domain}") <==> DomainSlot in pieces)
            && (DomainSlot !in pieces ==> rendered == Filled(pieces, feature, domain))
  {
    if |pieces| > 0 {
      var rest := pieces[1..];
      DomainFilled(rest, feature, domain);
      assert WithFeature(pieces, feature)[1..] == WithFeature(rest, feature);
      assert pieces == [pieces[0]] + rest;
      match pieces[0]
      case Literal(text) => ReplaceSkips(text, Written(WithFeature(rest, feature)), "{domain}", domain);
      case FeatureSlot => ReplaceSkips(feature, Written(WithFeature(rest, feature)), "{domain}", domain);
      case DomainSlot => ReplaceHits(Written(WithFeature(rest, feature)), "{domain}", domain);
    }
  }

  /**
   * Rendering fills the slots of a template and nothing else. It fails exactly when a domain slot
   * has no domain, and the record is kept by domain exactly when the template has a domain slot.
   */
  lemma PathRenders(c: Context, d: Definition, a: Id, pieces: seq<Piece>)
    requires Plain(pieces) && d.path == Written(pieces) && '{' !in c.feature
    ensures PathOf(c, d) ==
              if DomainSlot !in pieces then Some(Filled(pieces, c.feature, ""))
              else if c.domain.None? then None
              else Some(Filled(pieces, c.feature, c.domain.value))
    ensures RecordKey(c, d, a) == (a, if DomainSlot in pieces then c.domain else None)
  {
    hide Replace, Mentions, Written, Filled;
    FeatureFilled(pieces, c.feature);
    DomainFilled(pieces, c.feature, if c.domain.Some? then c.domain.value else "");
    DomainFilled(pieces, c.feature, "");
  }

  // ---------- content and records

  /** The artifact has content: a file or a directory that can be hashed stands at its rendered path. */
  lemma ContentMeans(c: Context, w: World, a: Id, h: Hash)
    requires a in c.graph
    ensures var path := PathOf(c, c.graph[a]);
            HashOf(c, w, a) == Some(h) <==>
              path.Some? && path.value in w.content && w.content[path.value] in {File(h), Folder(h)}
  {
    hide PathOf;
  }

  /**
   * Everything that is recorded about the artifact is as it was recorded: its path, its definition,
   * its content, which dependencies it has and what they hold, and every piece of bound evidence.
   */
  ghost predicate UpToDate(c: Context, w: World, a: Id)
  {
    && a in c.graph
    && var d := c.graph[a];
       var path, key := PathOf(c, d), RecordKey(c, d, a);
       && path.Some? && path.value in w.content && key in w.records
       && var r := w.records[key];
          && r.path == path.value && r.definitionSha == c.definitionSha(d)
          && w.content[path.value] in {File(r.artifactSha), Folder(r.artifactSha)}
          && (forall i, j :: 0 <= i < j < |d.dependsOn| ==> d.dependsOn[i] != d.dependsOn[j])
          && (forall b :: b in d.dependsOn <==> b in r.dependencySha)
          && (forall b :: b in d.dependsOn && b in c.graph ==>
                var there := PathOf(c, c.graph[b]);
                there.Some? && there.value in w.content && w.content[there.value] != Unreadable ==>
                  w.content[there.value] in {File(r.dependencySha[b]), Folder(r.dependencySha[b])})
          && (forall e :: e in r.evidence ==> e.source in w.sources && w.sources[e.source] == e.sourceSha)
  }

  lemma UpToDateIsGood(c: Context, w: World, a: Id)
    requires a in c.graph
    ensures UpToDate(c, w, a) <==> Good(c, w, a)
  {
    hide PathOf, RecordKey;
    var d := c.graph[a];
    if RecordOf(c, w, a).Some? {
      var r := RecordOf(c, w, a).value;
      SameKeys(d.dependsOn, r.dependencySha);
    }
  }

  lemma SameKeys(ids: seq<Id>, hashes: map<Id, Hash>)
    ensures (set b <- ids) == hashes.Keys <==> forall b :: b in ids <==> b in hashes
  {
    if forall b :: b in ids <==> b in hashes {
      assert (set b <- ids) == hashes.Keys;
    }
    if (set b <- ids) == hashes.Keys {
      forall b ensures b in ids <==> b in hashes {
        assert b in (set b <- ids) <==> b in hashes.Keys;
      }
    }
  }

  /** Fresh means up to date all the way down; nothing that is out of date anywhere below leaves an artifact fresh. */
  lemma FreshMeans(c: Context, w: World, a: Id)
    requires ValidContext(c) && a in c.graph
    ensures StateOf(c, w, a) == Fresh <==> forall d :: Reaches(c.graph, a, d) ==> UpToDate(c, w, d)
  {
    hide UpToDate, Good, StateOf, ValidContext, Reaches;
    FreshIff(c, w, a);
    forall d | d in c.graph ensures UpToDate(c, w, d) <==> Good(c, w, d) { UpToDateIsGood(c, w, d); }
    forall d | UpToDate(c, w, d) ensures d in c.graph { UpToDateInGraph(c, w, d); }
  }

  lemma UpToDateInGraph(c: Context, w: World, a: Id)
    requires UpToDate(c, w, a)
    ensures a in c.graph
  {
    hide PathOf, RecordKey;
  }

  /** Bound evidence that is gone or changed makes everything that depends on the artifact, and itself, not fresh. */
  lemma EvidenceMatters(c: Context, w: World, a: Id, d: Id, e: Evidence)
    requires ValidContext(c) && a in c.graph && Reaches(c.graph, a, d) && d in c.graph
    requires RecordKey(c, c.graph[d], d) in w.records && e in w.records[RecordKey(c, c.graph[d], d)].evidence
    requires e.source !in w.sources || w.sources[e.source] != e.sourceSha
    ensures StateOf(c, w, a) != Fresh
  {
    hide StateOf, ValidContext, Reaches, PathOf, RecordKey;
    FreshMeans(c, w, a);
    assert !UpToDate(c, w, d);
  }

  /** Which of the four states an artifact is in. */
  lemma StateMeans(c: Context, w: World, a: Id)
    requires ValidContext(c) && a in c.graph
    ensures var missing := (b: Id) => b in c.graph && forall h :: HashOf(c, w, b) != Some(h);
            StateOf(c, w, a) ==
              if missing(a) then Missing
              else if exists b :: Reaches(c.graph, a, b) && missing(b) then Blocked
              else if forall d :: Reaches(c.graph, a, d) ==> UpToDate(c, w, d) then Fresh
              else Stale
  {
    hide StateOf, ValidContext, Reaches, HashOf, UpToDate;
    BlockedIff(c, w, a);
    FreshMeans(c, w, a);
    forall b | b in c.graph ensures HashOf(c, w, b).None? <==> forall h :: HashOf(c, w, b) != Some(h) {
      if HashOf(c, w, b).Some? { assert HashOf(c, w, b) == Some(HashOf(c, w, b).value); }
    }
  }

  /** An artifact's path renders, what stands there has its form, and its record and evidence load. */
  lemma EvaluableMeans(c: Context, w: World, a: Id)
    requires a in c.graph
    ensures var d := c.graph[a];
            var path, key := PathOf(c, d), RecordKey(c, d, a);
            Evaluable(c, w, a) <==>
              && path.Some? && key !in w.broken
              && (path.value in w.content ==>
                    if d.kind == "directory" then w.content[path.value].Folder? else w.content[path.value].File?)
              && (key in w.records ==> forall e :: e in w.records[key].evidence ==> e.source !in w.unusable)
  {
    hide PathOf, RecordKey;
  }

  // ---------- recording

  /** The kind, id and source that an evidence input stands for. */
  function Meant(c: Context, e: EvidenceInput): (string, string, Option<string>)
  {
    (c.lower(Strip(e.kind)), Strip(e.id), c.portable(e.source))
  }

  /** An input that can be bound: a known kind, an id, and a usable source. */
  predicate Bindable(c: Context, w: World, e: EvidenceInput)
  {
    var (kind, id, source) := Meant(c, e);
    && kind in {"approval", "validation", "verification", "evidence"} && id != ""
    && source.Some? && source.value in w.sources && source.value !in w.unusable
  }

  /** Binding refuses exactly an input that cannot be bound or repeats a kind and id, and keeps what was meant. */
  lemma {:induction false} BindMeans(c: Context, w: World, inputs: seq<EvidenceInput>)
    ensures BindEach(c, w, inputs).Some? <==>
              && (forall e :: e in inputs ==> Bindable(c, w, e))
              && forall i, j :: 0 <= i < j < |inputs| ==>
                   Meant(c, inputs[i]).0 != Meant(c, inputs[j]).0 || Meant(c, inputs[i]).1 != Meant(c, inputs[j]).1
    ensures BindEach(c, w, inputs).Some? ==>
              && |BindEach(c, w, inputs).value| == |inputs|
              && forall i :: 0 <= i < |inputs| ==>
                   var (kind, id, source) := Meant(c, inputs[i]);
                   && source.Some? && source.value in w.sources
                   && BindEach(c, w, inputs).value[i] == Evidence(kind, id, source.value, w.sources[source.value])
  {
    hide BindEach;
    if |inputs| == 0 {
      BindNothing(c, w);
      assert inputs == [];
    } else {
      var init, last := inputs[..|inputs| - 1], inputs[|inputs| - 1];
      assert inputs == init + [last];
      BindMeans(c, w, init);
      BindLast(c, w, init, last);
      hide Bindable, Meant;
      if BindEach(c, w, init).Some? {
        RepeatsMean(c, w, init, BindEach(c, w, init).value, last);
      }
    }
  }

  lemma BindNothing(c: Context, w: World)
    ensures BindEach(c, w, []) == Some([])
  {
  }

  lemma BindLast(c: Context, w: World, init: seq<EvidenceInput>, last: EvidenceInput)
    ensures var before, after := BindEach(c, w, init), BindEach(c, w, init + [last]);
            var (kind, id, source) := Meant(c, last);
            && (before.None? || !Bindable(c, w, last) ==> after.None?)
            && (before.Some? && Bindable(c, w, last) ==>
                  after == if exists x <- before.value :: x.kind == kind && x.id == id then None
                           else Some(before.value + [Evidence(kind, id, source.value, w.sources[source.value])]))
  {
    hide EvidenceFresh;
    assert (init + [last])[..|init|] == init;
    NormalizeMeans(c, last);
    hide Normalize;
  }

  lemma NormalizeMeans(c: Context, e: EvidenceInput)
    ensures var (kind, id, source) := Meant(c, e);
            Normalize(c, e) ==
              if kind in {"approval", "validation", "verification", "evidence"} && id != "" && source.Some? then
                Some(EvidenceInput(kind, id, source.value))
              else None
  {
  }

  lemma RepeatsMean(c: Context, w: World, inputs: seq<EvidenceInput>, bound: seq<Evidence>, e: EvidenceInput)
    requires |bound| == |inputs|
    requires forall i :: 0 <= i < |inputs| ==>
               bound[i].kind == Meant(c, inputs[i]).0 && bound[i].id == Meant(c, inputs[i]).1
    ensures (exists x <- bound :: x.kind == Meant(c, e).0 && x.id == Meant(c, e).1) <==>
            exists i :: 0 <= i < |inputs| && Meant(c, inputs[i]).0 == Meant(c, e).0
                        && Meant(c, inputs[i]).1 == Meant(c, e).1
  {
    hide Meant;
    if i :| 0 <= i < |inputs| && Meant(c, inputs[i]).0 == Meant(c, e).0 && Meant(c, inputs[i]).1 == Meant(c, e).1 {
      assert bound[i] in bound;
    }
  }

  /** What recording writes: one record, which says what the artifact is now and what was bound to it. */
  lemma RecordedMeans(c: Context, w: World, a: Id, inputs: seq<EvidenceInput>)
    requires ValidContext(c) && Recordable(c, w, a, inputs)
    ensures var v, d := Recorded(c, w, a, inputs), c.graph[a];
            var key, path := RecordKey(c, d, a), PathOf(c, d);
            && v == w.(records := v.records) && path.Some? && key in v.records
            && (forall k :: k in v.records <==> k == key || k in w.records)
            && (forall k :: k in w.records && k != key ==> v.records[k] == w.records[k])
            && var r := v.records[key];
               && r.path == path.value && r.definitionSha == c.definitionSha(d)
               && HashOf(c, w, a) == Some(r.artifactSha)
               && (forall b :: b in r.dependencySha <==> b in d.dependsOn)
               && (forall b :: b in d.dependsOn ==> b in c.graph && HashOf(c, w, b) == Some(r.dependencySha[b]))
               && multiset(r.evidence) == multiset(BindEach(c, w, inputs).value)
               && forall j :: 0 < j < |r.evidence| ==> EvidenceLess(r.evidence[j - 1], r.evidence[j])
  {
    hide PathOf, HashOf, StateOf, ValidContext, BindEach, Evaluable, RecordKey, EvidenceLess, SortEvidence;
    FreshHasHash(c, w, a);
    BoundOnceEach(c, w, inputs);
    SortEvidenceSorts(BindEach(c, w, inputs).value);
  }
}
