/**
 * What a ledger's records may say, spelled out over the characters of their texts and the fields of
 * their events (audit_contracts.py, audit_provenance.py).
 */
module EventTerms {
  import opened Prelude
  import opened Json
  import opened JsonProofs
  import opened JsonTerms
  import opened AuditContracts
  import opened AuditEvents
  import opened AuditEventProofs
  import opened AuditLedger
  import opened AuditLedgerProofs
  import Utf8

  // ---------- texts

  /** White space, by code point. */
  predicate Space(c: char)
  {
    c as int in {0x09, 0x0A, 0x0B, 0x0C, 0x0D, 0x1C, 0x1D, 0x1E, 0x1F, 0x20, 0x85, 0xA0, 0x1680, 0x2000, 0x2001,
                 0x2002, 0x2003, 0x2004, 0x2005, 0x2006, 0x2007, 0x2008, 0x2009, 0x200A, 0x2028, 0x2029, 0x202F,
                 0x205F, 0x3000}
  }

  lemma SpaceMeans(c: char)
    ensures IsPySpace(c) <==> Space(c)
  {
  }

  /** Some text of at most so many bytes, with no white space around it and no control character but tabs. */
  predicate Trimmed(s: string, maximum: nat)
  {
    && |s| > 0 && !Space(s[0]) && !Space(s[|s| - 1]) && |Utf8.Encode(s)| <= maximum
    && forall k :: 0 <= k < |s| ==> s[k] == '\t' || (s[k] as int >= 0x20 && s[k] as int != 0x7F)
  }

  lemma StripMeans(s: string)
    requires |s| > 0
    ensures Strip(s) == s <==> !Space(s[0]) && !Space(s[|s| - 1])
  {
    SpaceMeans(s[0]);
    SpaceMeans(s[|s| - 1]);
    StripShorter(s[1..]);
    StripShorter(s[..|s| - 1]);
    hide IsPySpace, Space;
  }

  lemma {:induction false} StripShorter(s: string)
    ensures |Strip(s)| <= |s|
    decreases |s|
  {
    if |s| > 0 {
      StripShorter(s[1..]);
      StripShorter(s[..|s| - 1]);
    }
  }

  lemma TextMeans(s: string, maximum: nat)
    ensures ValidText(s, maximum) <==> Trimmed(s, maximum)
  {
    if |s| > 0 {
      StripMeans(s);
      hide Strip, Space, Utf8.Encode;
      assert forall k :: 0 <= k < |s| ==> s[k] in s;
    }
  }

  predicate Letter(c: char) { 'a' <= c <= 'z' || 'A' <= c <= 'Z' }

  predicate Digit(c: char) { '0' <= c <= '9' }

  /** At most 256 characters: letters, digits and, after the first, a few marks. */
  predicate Identifier(s: string)
  {
    && 1 <= |s| <= 256 && (Letter(s[0]) || Digit(s[0]))
    && forall k :: 0 <= k < |s| ==> Letter(s[k]) || Digit(s[k]) || s[k] in {'.', '_', ':', '@', '+', '-'}
  }

  lemma IdentifierMeans(s: string)
    ensures SimpleId(s) <==> Identifier(s)
  {
    if |s| > 0 {
      assert forall k :: 0 < k < |s| ==> s[1..][k - 1] == s[k];
      assert forall c: char ::
        (IsAlnum(c) <==> Letter(c) || Digit(c)) && (c in "._:@+-" <==> c in {'.', '_', ':', '@', '+', '-'});
      if Identifier(s) { IdentifierIsText(s); }
    }
    hide ValidText;
  }

  lemma IdentifierIsText(s: string)
    requires Identifier(s)
    ensures ValidText(s, 256)
  {
    AsciiEncodesShort(s);
    assert s[|s| - 1] != ' ';
    TextMeans(s, 256);
  }

  /** Part of the text between two slashes, or between a slash and an end of the text. */
  ghost predicate Segment(s: string, i: int, j: int)
  {
    && 0 <= i <= j <= |s| && (i == 0 || s[i - 1] == '/') && (j == |s| || s[j] == '/')
    && forall k :: i <= k < j ==> s[k] != '/'
  }

  ghost predicate FirstSegment(s: string, part: string)
  {
    exists j :: Segment(s, 0, j) && s[..j] == part
  }

  ghost predicate LaterSegment(s: string, part: string)
  {
    exists i, j :: i > 0 && Segment(s, i, j) && s[i..j] == part
  }

  lemma {:induction false} SplitMeans(s: string)
    ensures forall part :: FirstSegment(s, part) <==> part == Split(s, '/')[0]
    ensures forall part :: LaterSegment(s, part) <==> part in Split(s, '/')[1..]
  {
    if |s| == 0 {
      assert Segment(s, 0, 0) && s[..0] == "";
    } else {
      SplitMeans(s[1..]);
      var rest := Split(s[1..], '/');
      forall part
        ensures FirstSegment(s, part) <==> part == Split(s, '/')[0]
        ensures LaterSegment(s, part) <==> part in Split(s, '/')[1..]
      {
        if s[0] == '/' {
          AfterSlash(s, part);
          assert rest == [rest[0]] + rest[1..];
        } else {
          AfterOther(s, part, rest[0]);
        }
      }
    }
  }

  lemma Moved(s: string, i: int, j: int)
    requires |s| > 0 && (i > 0 || (i == 0 && s[0] == '/'))
    ensures Segment(s[1..], i, j) <==> Segment(s, i + 1, j + 1)
    ensures Segment(s[1..], i, j) ==> s[1..][i..j] == s[i + 1..j + 1]
  {
    var tail := s[1..];
    if Segment(tail, i, j) {
      forall k | i + 1 <= k < j + 1 ensures s[k] != '/' { assert tail[k - 1] == s[k]; }
    }
    if Segment(s, i + 1, j + 1) {
      forall k | i <= k < j ensures tail[k] != '/' { assert tail[k] == s[k + 1]; }
    }
  }

  lemma Extended(s: string, j: int)
    requires |s| > 0 && s[0] != '/'
    ensures Segment(s[1..], 0, j) <==> Segment(s, 0, j + 1) && j >= 0
    ensures Segment(s[1..], 0, j) ==> s[..j + 1] == [s[0]] + s[1..][..j]
  {
    var tail := s[1..];
    if Segment(s, 0, j + 1) && j >= 0 {
      forall k | 0 <= k < j ensures tail[k] != '/' { assert tail[k] == s[k + 1]; }
    }
  }

  lemma LaterMoves(s: string, part: string)
    requires |s| > 0
    ensures LaterSegment(s, part) <==> (s[0] == '/' && FirstSegment(s[1..], part)) || LaterSegment(s[1..], part)
  {
    forall i, j | i > 0 || (i == 0 && s[0] == '/')
      ensures Segment(s[1..], i, j) <==> Segment(s, i + 1, j + 1)
      ensures Segment(s[1..], i, j) ==> s[1..][i..j] == s[i + 1..j + 1]
    {
      Moved(s, i, j);
    }
    assert forall j :: Segment(s, 1, j) ==> s[0] == '/' && j >= 1;
    assert forall i, j :: Segment(s, i, j) ==> 0 <= i <= j <= |s|;
    assert forall i, j :: Segment(s[1..], i, j) ==> 0 <= i <= j < |s|;
    hide Segment;
    if LaterSegment(s, part) {
      var i, j :| i > 0 && Segment(s, i, j) && s[i..j] == part;
      assert Segment(s[1..], i - 1, j - 1);
    }
    if LaterSegment(s[1..], part) {
      var i, j :| i > 0 && Segment(s[1..], i, j) && s[1..][i..j] == part;
      assert Segment(s, i + 1, j + 1);
    }
    if s[0] == '/' && FirstSegment(s[1..], part) {
      var j :| Segment(s[1..], 0, j) && s[1..][..j] == part;
      assert s[1..][0..j] == part && Segment(s, 0 + 1, j + 1);
    }
  }

  lemma AfterSlash(s: string, part: string)
    requires |s| > 0 && s[0] == '/'
    ensures FirstSegment(s, part) <==> part == ""
    ensures LaterSegment(s, part) <==> FirstSegment(s[1..], part) || LaterSegment(s[1..], part)
  {
    assert Segment(s, 0, 0) && s[..0] == "";
    LaterMoves(s, part);
    hide LaterSegment;
  }

  lemma AfterOther(s: string, part: string, first: string)
    requires |s| > 0 && s[0] != '/'
    requires forall other :: FirstSegment(s[1..], other) <==> other == first
    ensures FirstSegment(s, part) <==> part == [s[0]] + first
    ensures LaterSegment(s, part) <==> LaterSegment(s[1..], part)
  {
    LaterMoves(s, part);
    hide LaterSegment;
    assert FirstSegment(s[1..], first);
    var n :| Segment(s[1..], 0, n) && s[1..][..n] == first;
    Extended(s, n);
    if FirstSegment(s, part) {
      var j :| Segment(s, 0, j) && s[..j] == part;
      Extended(s, j - 1);
      assert FirstSegment(s[1..], s[1..][..j - 1]);
    }
  }

  /** A portable path below the project: no backslash, no drive, and no segment that is empty or only dots. */
  ghost predicate Portable(s: string)
  {
    && Trimmed(s, 512) && '\\' !in s && s[0] != '/' && !(|s| > 1 && s[1] == ':' && Letter(s[0]))
    && forall i, j :: Segment(s, i, j) ==> s[i..j] !in {"", ".", ".."}
  }

  lemma PartsMean(s: string)
    ensures forall i, j :: Segment(s, i, j) ==> 0 <= i <= j <= |s| && s[i..j] in Split(s, '/')
    ensures forall part :: part in Split(s, '/') ==> exists i, j :: Segment(s, i, j) && s[i..j] == part
  {
    SplitMeans(s);
    var parts := Split(s, '/');
    assert parts == [parts[0]] + parts[1..];
    forall i, j | Segment(s, i, j) ensures FirstSegment(s, s[i..j]) || LaterSegment(s, s[i..j]) {
      assert i == 0 ==> s[..j] == s[i..j];
    }
    hide Segment;
    forall part | part in parts ensures exists i, j :: Segment(s, i, j) && s[i..j] == part {
      if part == parts[0] {
        assert FirstSegment(s, part);
        var j :| Segment(s, 0, j) && s[..j] == part;
        assert s[0..j] == part;
      } else {
        assert LaterSegment(s, part);
      }
    }
  }

  lemma ReferenceMeans(s: string)
    ensures Reference(s) <==> Portable(s)
  {
    assert forall c: char :: IsAlnum(c) && !IsDigit(c) <==> Letter(c);
    assert ValidText(s, 512) ==> 0 as char !in s;
    TextMeans(s, 512);
    PartsMean(s);
    hide ValidText, Trimmed, Segment, Split, IsAlnum, IsDigit, Letter;
    if Portable(s) {
      forall part | part in Split(s, '/') ensures part !in ["", ".", ".."] {
        var i, j :| Segment(s, i, j) && s[i..j] == part;
      }
    }
  }

  /** "sha256:" and 64 hexadecimal digits. */
  predicate DigestText(s: string)
  {
    && |s| == 71 && "sha256:" <= s
    && forall k :: 7 <= k < 71 ==> HexChar(s[k])
  }

  lemma HexMeans(s: string, length: nat)
    ensures IsHex(s, length) <==> |s| == length && forall k :: 0 <= k < |s| ==> HexChar(s[k])
  {
    assert forall k :: 0 <= k < |s| ==> s[k] in s;
  }

  predicate HexChar(c: char)
  {
    Digit(c) || c in {'a', 'b', 'c', 'd', 'e', 'f'}
  }

  lemma DigestMeans(s: string)
    ensures IsSha256(s) <==> DigestText(s)
  {
    if |s| == 71 {
      HexMeans(s[7..], 64);
      assert forall k :: 7 <= k < 71 ==> s[7..][k - 7] == s[k];
      assert s[..7] == "sha256:" <==> "sha256:" <= s;
    }
    hide IsHex;
  }

  // ---------- parts of an event

  ghost predicate MaybeIdentifier(s: Option<string>)
  {
    s == None || Identifier(s.value)
  }

  ghost predicate SoundActor(a: AuditActor)
  {
    && a.kind in {"human", "ai", "system", "workflow"} && Trimmed(a.subject, 512) && MaybeIdentifier(a.semanticRole)
    && (if a.kind == "ai" then MaybeIdentifier(a.provider) && (a.model == None || Trimmed(a.model.value, 256))
        else a.provider == None && a.model == None)
  }

  /** At most 128 characters: small letters, digits and, after the first letter, a few marks. */
  predicate KindText(s: string)
  {
    && 1 <= |s| <= 128 && 'a' <= s[0] <= 'z'
    && forall k :: 0 <= k < |s| ==> 'a' <= s[k] <= 'z' || Digit(s[k]) || s[k] in {'.', '_', '-'}
  }

  lemma KindMeans(s: string)
    ensures ActionKind(s) <==> KindText(s)
  {
    if |s| > 0 {
      assert forall k :: 0 < k < |s| ==> s[1..][k - 1] == s[k];
      assert forall c: char :: (IsLower(c) || IsDigit(c) || c in "._-") <==>
                                 ('a' <= c <= 'z' || Digit(c) || c in {'.', '_', '-'});
    }
  }

  /** At most 128 characters: letters, digits and, after the first, a few marks. */
  predicate FeatureText(s: string)
  {
    && 1 <= |s| <= 128 && (Letter(s[0]) || Digit(s[0]))
    && forall k :: 0 <= k < |s| ==> Letter(s[k]) || Digit(s[k]) || s[k] in {'.', '_', '-'}
  }

  lemma FeatureMeans(s: string)
    ensures FeatureId(s) <==> FeatureText(s)
  {
    if |s| > 0 {
      assert forall k :: 0 < k < |s| ==> s[1..][k - 1] == s[k];
      assert forall c: char :: (IsAlnum(c) || c in "._-") <==> (Letter(c) || Digit(c) || c in {'.', '_', '-'});
    }
  }

  ghost predicate SoundAction(a: AuditAction)
  {
    && KindText(a.kind) && Trimmed(a.subject, 1024) && (a.reason == None || Trimmed(a.reason.value, 4096))
  }

  /** 40 or 64 hexadecimal digits. */
  predicate CommitText(s: string)
  {
    |s| in {40, 64} && forall k :: 0 <= k < |s| ==> HexChar(s[k])
  }

  ghost predicate SoundExecution(x: AuditExecution)
  {
    && MaybeIdentifier(x.runId) && MaybeIdentifier(x.workflow) && MaybeIdentifier(x.stepId)
    && MaybeIdentifier(x.taskId) && (x.gitCommit == None || CommitText(x.gitCommit.value))
    && (x.workspace == None || Portable(x.workspace.value))
  }

  ghost predicate SoundBinding(b: AuditBinding)
  {
    && b.kind in {"input", "context", "output", "artifact", "policy", "constitution", "workflow", "evidence",
                  "trace", "quality", "security", "eval"}
    && Portable(b.source) && DigestText(b.sha256)
  }

  lemma ActorMeans(a: AuditActor)
    ensures ValidActor(a) <==> SoundActor(a)
  {
    forall s ensures SimpleId(s) <==> Identifier(s) { IdentifierMeans(s); }
    forall s, n ensures ValidText(s, n) <==> Trimmed(s, n) { TextMeans(s, n); }
    hide SimpleId, Identifier, ValidText, Trimmed;
  }

  lemma ActionMeans(a: AuditAction)
    ensures ValidAction(a) <==> SoundAction(a)
  {
    forall s, n ensures ValidText(s, n) <==> Trimmed(s, n) { TextMeans(s, n); }
    KindMeans(a.kind);
    hide ValidText, Trimmed, ActionKind, KindText;
  }

  lemma BindingMeans(b: AuditBinding)
    ensures ValidBinding(b) <==> SoundBinding(b)
  {
    ReferenceMeans(b.source);
    DigestMeans(b.sha256);
    hide Reference, Portable, IsSha256, DigestText;
  }

  /** An execution keeps what it was given, its commit in lower case; it is refused for any unfit part. */
  lemma ExecutionMeans(x: AuditExecution, env: Platform)
    requires Lawful(env)
    ensures var folded := if x.gitCommit.Some? then Some(env.casefold(x.gitCommit.value)) else None;
            var y := x.(gitCommit := folded);
            && (MakeExecution(x, env) == Some(y) <==>
                  SoundExecution(y) && (x.gitCommit.Some? ==> Trimmed(x.gitCommit.value, 64)))
            && (MakeExecution(x, env).Some? ==> MakeExecution(x, env) == Some(y))
  {
    forall s ensures SimpleId(s) <==> Identifier(s) { IdentifierMeans(s); }
    forall s ensures Reference(s) <==> Portable(s) { ReferenceMeans(s); }
    forall s ensures IsCommit(s) <==> CommitText(s) {
      HexMeans(s, 40);
      HexMeans(s, 64);
    }
    if x.gitCommit.Some? { TextMeans(x.gitCommit.value, 64); }
    hide SimpleId, Identifier, Reference, Portable, IsCommit, CommitText, ValidText, Trimmed;
  }

  lemma CommitIsText(s: string)
    requires CommitText(s)
    ensures IsCommit(s) && Trimmed(s, 64)
  {
    HexMeans(s, 40);
    HexMeans(s, 64);
    AsciiEncodesShort(s);
  }

  lemma FixedExecutionMeans(x: AuditExecution, env: Platform)
    requires Lawful(env)
    ensures ValidExecution(x, env) <==> SoundExecution(x)
  {
    ExecutionMeans(x, env);
    hide MakeExecution;
    if x.gitCommit.Some? && CommitText(x.gitCommit.value) {
      CommitIsText(x.gitCommit.value);
    }
    hide SoundExecution;
  }

  // ---------- events

  predicate CategoryText(category: string)
  {
    category in {"human", "ai", "system", "workflow", "authority", "evidence"}
  }

  /** Later bindings have a greater kind, or the same kind and a greater source. */
  predicate BindingsAscend(bs: seq<AuditBinding>)
  {
    forall i, j :: 0 <= i < j < |bs| ==> Less(bs[i].kind, bs[j].kind) ||
                                         (bs[i].kind == bs[j].kind && Less(bs[i].source, bs[j].source))
  }

  /** Everything a record may say, its place in the chain aside. */
  ghost predicate SoundEvent(e: AuditEvent, env: Platform)
  {
    && e.sequence >= 1 && FeatureText(e.featureId) && e.eventId == EventId(e.featureId, e.sequence)
    && CategoryText(e.category) && env.timestamp(e.occurredAt) == Some(e.occurredAt)
    && SoundActor(e.actor) && SoundAction(e.action) && SoundExecution(e.execution)
    && BindingsAscend(e.bindings) && (forall b :: b in e.bindings ==> SoundBinding(b))
    && SoundMetadata(Obj(e.metadata), env)
    && DigestText(e.previousSha256) && DigestText(e.sha256) && BodyDigest(e, env) == Some(e.sha256)
  }

  ghost predicate SoundMetadata(v: Json, env: Platform)
  {
    Nodes(v) <= 50_000 && NoDeeper(v, 32) && OnPaths(v, NotInfinite) && OnPaths(v, x => NoSecretName(x, env))
  }

  lemma AscendMeans(bs: seq<AuditBinding>)
    ensures BindingsSorted(bs) && DistinctIdentities(bs) <==> BindingsAscend(bs)
  {
    hide Less;
    if BindingsSorted(bs) && DistinctIdentities(bs) {
      forall i, j | 0 <= i < j < |bs|
        ensures Less(bs[i].kind, bs[j].kind) || (bs[i].kind == bs[j].kind && Less(bs[i].source, bs[j].source))
      {
        IdentitiesAscend(bs, i, j);
      }
    }
    if BindingsAscend(bs) {
      forall i, j | 0 <= i < j < |bs| ensures bs[i].kind != bs[j].kind || bs[i].source != bs[j].source {
        LessIrreflexive(bs[j].kind);
        LessIrreflexive(bs[j].source);
      }
      forall j | 0 < j < |bs| ensures !BindingLess(bs[j], bs[j - 1]) {
        BindingLessAsymmetric(bs[j - 1], bs[j]);
      }
    }
  }

  /** Construction leaves an event alone exactly when nothing in it is left to be refused or normalized. */
  lemma ConstructFixed(e: AuditEvent, env: Platform)
    requires Lawful(env)
    ensures Construct(e, env) == Some(e) <==>
              && e.sequence >= 1 && FeatureId(e.featureId) && e.eventId == EventId(e.featureId, e.sequence)
              && e.category in EVENT_CATEGORIES && Timestamp(e.occurredAt, env) == Some(e.occurredAt)
              && BindingsSorted(e.bindings) && DistinctIdentities(e.bindings)
              && Freezable(Obj(e.metadata), env) && IsSha256(e.previousSha256) && IsSha256(e.sha256)
  {
    if FeatureId(e.featureId) { FeatureIdIsStripped(e.featureId); }
    SortBindingsSorts(e.bindings);
    if BindingsSorted(e.bindings) { SortedIsFixed(e.bindings); }
    hide FeatureId, Freezable, IsSha256, BindingsSorted, DistinctIdentities, SortBindings, EventId, Strip, Timestamp;
  }

  lemma ConstructedMeans(e: AuditEvent, env: Platform)
    requires Lawful(env)
    ensures Construct(e, env) == Some(e) <==>
              && e.sequence >= 1 && FeatureText(e.featureId) && e.eventId == EventId(e.featureId, e.sequence)
              && CategoryText(e.category) && env.timestamp(e.occurredAt) == Some(e.occurredAt)
              && BindingsAscend(e.bindings)
              && SoundMetadata(Obj(e.metadata), env) && DigestText(e.previousSha256) && DigestText(e.sha256)
  {
    ConstructFixed(e, env);
    FeatureMeans(e.featureId);
    MetadataMeans(Obj(e.metadata), env);
    DigestMeans(e.previousSha256);
    DigestMeans(e.sha256);
    AscendMeans(e.bindings);
    TimeMeans(e.occurredAt, env);
    CategoryMeans(e.category);
    hide FeatureText, FeatureId, Freezable, IsSha256, DigestText, BindingsSorted, DistinctIdentities, BindingsAscend;
    hide Construct, EventId, Timestamp, SoundMetadata, Lawful, CategoryText;
  }

  lemma MetadataMeans(v: Json, env: Platform)
    ensures Freezable(v, env) <==> SoundMetadata(v, env)
  {
    FreezableMeans(v, env);
    hide Freezable, Nodes, OnPaths, NoDeeper;
  }

  lemma CategoryMeans(category: string)
    ensures category in EVENT_CATEGORIES <==> CategoryText(category)
  {
  }

  lemma TimeMeans(time: string, env: Platform)
    requires Lawful(env)
    ensures Timestamp(time, env) == Some(time) <==> env.timestamp(time) == Some(time)
  {
    hide ValidText;
  }

  /** A time is read from trimmed text of at most 128 bytes, as the library reads it. */
  lemma TimestampMeans(s: string, t: string, env: Platform)
    ensures Timestamp(s, env) == Some(t) <==> Trimmed(s, 128) && env.timestamp(s) == Some(t)
  {
    TextMeans(s, 128);
    hide ValidText, Trimmed;
  }

  /** No two bindings have the same kind and source. */
  predicate IdentitiesApart(bs: seq<AuditBinding>)
  {
    forall i, j :: 0 <= i < j < |bs| ==> bs[i].kind != bs[j].kind || bs[i].source != bs[j].source
  }

  /** When an event is created from a draft. */
  lemma CreateMeans(sequence: int, featureId: string, d: Draft, previous: string, env: Platform)
    requires Lawful(env) && ValidDraft(d, env)
    ensures Create(sequence, featureId, d, previous, env).Some? <==>
              && sequence >= 1 && FeatureText(Strip(featureId)) && CategoryText(d.category)
              && Trimmed(d.occurredAt, 128) && env.timestamp(d.occurredAt).Some?
              && IdentitiesApart(d.bindings) && SoundMetadata(Obj(d.metadata), env) && DigestText(previous)
  {
    CreateIff(sequence, featureId, d, previous, env);
    FeatureMeans(Strip(featureId));
    CategoryMeans(d.category);
    if env.timestamp(d.occurredAt).Some? {
      TimestampMeans(d.occurredAt, env.timestamp(d.occurredAt).value, env);
    }
    if Timestamp(d.occurredAt, env).Some? {
      TimestampMeans(d.occurredAt, Timestamp(d.occurredAt, env).value, env);
    }
    SortedApart(d.bindings);
    MetadataMeans(Obj(d.metadata), env);
    DigestMeans(previous);
    hide Create, FeatureId, FeatureText, CategoryText, Trimmed, Timestamp, DistinctIdentities, IdentitiesApart;
    hide Freezable, SoundMetadata, IsSha256, DigestText, SortBindings, Strip, ValidDraft, Lawful;
  }

  lemma SortedApart(bs: seq<AuditBinding>)
    ensures DistinctIdentities(SortBindings(bs)) <==> IdentitiesApart(bs)
  {
    SortBindingsSorts(bs);
    if IdentitiesApart(bs) { ApartShuffled(bs, SortBindings(bs)); }
    if IdentitiesApart(SortBindings(bs)) { ApartShuffled(SortBindings(bs), bs); }
  }

  lemma ApartShuffled(xs: seq<AuditBinding>, ys: seq<AuditBinding>)
    requires multiset(xs) == multiset(ys) && IdentitiesApart(xs)
    ensures IdentitiesApart(ys)
  {
    forall i, j | 0 <= i < j < |ys| ensures ys[i].kind != ys[j].kind || ys[i].source != ys[j].source {
      if ys[i] == ys[j] {
        Twice(ys, i, j);
        OnceApart(xs, ys[i]);
      } else {
        assert ys[i] in multiset(xs) && ys[j] in multiset(xs);
        var k, l :| 0 <= k < |xs| && 0 <= l < |xs| && xs[k] == ys[i] && xs[l] == ys[j];
        assert k < l || l < k;
      }
    }
  }

  lemma Twice(ys: seq<AuditBinding>, i: nat, j: nat)
    requires i < j < |ys| && ys[i] == ys[j]
    ensures multiset(ys)[ys[i]] >= 2
  {
    assert ys == ys[..i] + [ys[i]] + ys[i + 1..j] + [ys[j]] + ys[j + 1..];
  }

  lemma {:induction false} OnceApart(xs: seq<AuditBinding>, b: AuditBinding)
    requires IdentitiesApart(xs)
    ensures multiset(xs)[b] <= 1
  {
    if |xs| > 0 {
      OnceApart(xs[1..], b);
      assert xs == [xs[0]] + xs[1..];
      assert forall k :: 0 <= k < |xs| - 1 ==> xs[1..][k] == xs[k + 1];
      assert forall k :: 0 < k < |xs| ==> xs[k] != xs[0];
    }
  }

  lemma SettledMeans(e: AuditEvent, env: Platform)
    requires Lawful(env)
    ensures Settled(e, env) <==> SoundEvent(e, env)
  {
    ConstructedMeans(e, env);
    ActorMeans(e.actor);
    ActionMeans(e.action);
    FixedExecutionMeans(e.execution, env);
    forall b ensures ValidBinding(b) <==> SoundBinding(b) { BindingMeans(b); }
    hide Construct, ValidActor, SoundActor, ValidAction, SoundAction, ValidExecution, SoundExecution, ValidBinding;
    hide SoundBinding, FeatureText, BindingsAscend, SoundMetadata, DigestText, BodyDigest, EventId, CategoryText;
  }

  // ---------- records

  lemma {:induction false} BindingsRead(items: seq<Json>)
    requires ReadBindings(items).Some?
    ensures forall b :: b in ReadBindings(items).value ==> ValidBinding(b)
  {
    hide ValidBinding;
    if |items| > 0 {
      BindingsRead(items[1..]);
      assert ReadBinding(items[0]).Some? ==> ValidBinding(ReadBinding(items[0]).value);
    }
  }

  /** Whatever is read from a record is settled, whoever wrote the record. */
  lemma ReadIsSettled(v: Json, env: Platform)
    requires Lawful(env) && FromMapping(v, env).Some?
    ensures Settled(FromMapping(v, env).value, env)
  {
    var m := v.members;
    var bindings := ReadBindings(m[3].value.items).value;
    PartsRead(v, env);
    var raw := AuditEvent(
      m[11].value.i, m[5].value.s, m[7].value.s, m[4].value.s, m[9].value.s, ReadActor(m[1].value).value,
      ReadAction(m[0].value).value, ReadExecution(m[6].value, env).value, bindings, m[8].value.members,
      m[10].value.s, m[12].value.s);
    ConstructIdempotent(raw, env);
    BindingsRead(m[3].value.items);
    SortBindingsSorts(bindings);
    SameMembers(bindings, SortBindings(bindings));
    ConstructKeeps(raw, env);
    hide Construct, ReadActor, ReadAction, ReadExecution, ReadBindings, ValidActor, ValidAction, ValidExecution;
    hide ValidBinding, EventShape, SortBindings, BodyDigest;
  }

  lemma ConstructKeeps(raw: AuditEvent, env: Platform)
    requires Construct(raw, env).Some?
    ensures var e := Construct(raw, env).value;
            && e.actor == raw.actor && e.action == raw.action && e.execution == raw.execution
            && e.bindings == SortBindings(raw.bindings) && e.metadata == raw.metadata
  {
  }

  lemma PartsRead(v: Json, env: Platform)
    requires Lawful(env) && FromMapping(v, env).Some?
    ensures EventShape(v) && ReadBindings(v.members[3].value.items).Some?
    ensures ReadActor(v.members[1].value).Some? && ValidActor(ReadActor(v.members[1].value).value)
    ensures ReadAction(v.members[0].value).Some? && ValidAction(ReadAction(v.members[0].value).value)
    ensures ReadExecution(v.members[6].value, env).Some?
    ensures ValidExecution(ReadExecution(v.members[6].value, env).value, env)
  {
    hide Construct, ValidActor, ValidAction, MakeExecution;
    var x := v.members[6].value.members;
    MakeExecutionIdempotent(
      AuditExecution(ReadOptional(x[1].value), ReadOptional(x[4].value), ReadOptional(x[2].value),
                     ReadOptional(x[3].value), ReadOptional(x[0].value), ReadOptional(x[5].value)), env);
  }

  lemma ActorWritten(v: Json)
    requires ReadActor(v).Some?
    ensures v == ActorJson(ReadActor(v).value)
  {
    KeysAre(v.members, ACTOR_KEYS);
    hide ValidActor;
    assert v.members == ActorJson(ReadActor(v).value).members;
  }

  lemma ActionWritten(v: Json)
    requires ReadAction(v).Some?
    ensures v == ActionJson(ReadAction(v).value)
  {
    KeysAre(v.members, ACTION_KEYS);
    hide ValidAction;
    assert v.members == ActionJson(ReadAction(v).value).members;
  }

  lemma BindingWritten(v: Json)
    requires ReadBinding(v).Some?
    ensures v == BindingJson(ReadBinding(v).value)
  {
    KeysAre(v.members, BINDING_KEYS);
    hide ValidBinding;
    assert v.members == BindingJson(ReadBinding(v).value).members;
  }

  lemma {:induction false} BindingsWritten(items: seq<Json>)
    requires ReadBindings(items).Some?
    ensures items == BindingsJson(ReadBindings(items).value)
  {
    hide ReadBinding, BindingJson;
    if |items| > 0 {
      BindingWritten(items[0]);
      BindingsWritten(items[1..]);
      var bs := ReadBindings(items).value;
      assert bs[1..] == ReadBindings(items[1..]).value;
      assert items == [items[0]] + items[1..];
    }
  }

  lemma ExecutionWritten(v: Json, env: Platform) returns (x: AuditExecution)
    requires ReadExecution(v, env).Some?
    ensures v == ExecutionJson(x) && MakeExecution(x, env) == ReadExecution(v, env)
  {
    KeysAre(v.members, EXECUTION_KEYS);
    hide MakeExecution;
    var m := v.members;
    x := AuditExecution(ReadOptional(m[1].value), ReadOptional(m[4].value), ReadOptional(m[2].value),
                        ReadOptional(m[3].value), ReadOptional(m[0].value), ReadOptional(m[5].value));
    assert v.members == ExecutionJson(x).members;
  }

  lemma KeysAre(ms: seq<Member>, keys: seq<string>)
    requires Keys(ms) == keys
    ensures |ms| == |keys| && forall j :: 0 <= j < |ms| ==> ms[j].key == keys[j]
  {
  }

  /**
   * An event is read only from an object with exactly its thirteen names and version 1, which says
   * all that the event says; feature, time, commit and binding order may be normalized by reading.
   */
  lemma MappingMeans(v: Json, env: Platform) returns (x: AuditExecution, bs: seq<AuditBinding>, time: string)
    requires FromMapping(v, env).Some?
    ensures var e := FromMapping(v, env).value;
            && v.Obj? && Keys(v.members) == EVENT_KEYS && Field(v, "apiVersion") == Some(Str("sdai.audit-event/v1"))
            && Field(v, "sequence") == Some(Int(e.sequence)) && Field(v, "eventId") == Some(Str(e.eventId))
            && Field(v, "category") == Some(Str(e.category)) && Field(v, "metadata") == Some(Obj(e.metadata))
            && Field(v, "actor") == Some(ActorJson(e.actor)) && Field(v, "action") == Some(ActionJson(e.action))
            && Field(v, "execution") == Some(ExecutionJson(x)) && MakeExecution(x, env) == Some(e.execution)
            && Field(v, "bindings") == Some(Arr(BindingsJson(bs))) && multiset(e.bindings) == multiset(bs)
            && Field(v, "occurredAt") == Some(Str(time)) && Timestamp(time, env) == Some(e.occurredAt)
            && Field(v, "previousSha256") == Some(Str(e.previousSha256)) && Field(v, "sha256") == Some(Str(e.sha256))
  {
    FieldsRead(v, env);
    var m := v.members;
    ActorWritten(m[1].value);
    ActionWritten(m[0].value);
    x := ExecutionWritten(m[6].value, env);
    BindingsWritten(m[3].value.items);
    bs := ReadBindings(m[3].value.items).value;
    SortBindingsSorts(bs);
    time := m[9].value.s;
    ShapeFields(v);
    hide FromMapping, ReadActor, ReadAction, ReadExecution, ReadBindings, ActorJson, ActionJson, ExecutionJson;
    hide BindingsJson, SortBindings, MakeExecution, Timestamp, EventShape, Field;
  }

  lemma FieldsRead(v: Json, env: Platform)
    requires FromMapping(v, env).Some?
    ensures EventShape(v)
    ensures var e, m := FromMapping(v, env).value, v.members;
            && m[11].value == Int(e.sequence) && m[5].value == Str(e.eventId) && m[4].value == Str(e.category)
            && m[8].value == Obj(e.metadata) && m[10].value == Str(e.previousSha256) && m[12].value == Str(e.sha256)
            && ReadActor(m[1].value) == Some(e.actor) && ReadAction(m[0].value) == Some(e.action)
            && ReadExecution(m[6].value, env) == Some(e.execution) && ReadBindings(m[3].value.items).Some?
            && e.bindings == SortBindings(ReadBindings(m[3].value.items).value)
            && Timestamp(m[9].value.s, env) == Some(e.occurredAt)
  {
    hide ReadActor, ReadAction, ReadExecution, ReadBindings, BodyDigest, SortBindings, Freezable, Timestamp;
  }

  lemma ShapeFields(v: Json)
    requires EventShape(v)
    ensures var m := v.members;
            && Keys(m) == EVENT_KEYS && m[2].value == Str("sdai.audit-event/v1") && m[3].value.Arr?
            && Field(v, "action") == Some(m[0].value) && Field(v, "actor") == Some(m[1].value)
            && Field(v, "apiVersion") == Some(m[2].value) && Field(v, "bindings") == Some(m[3].value)
            && Field(v, "category") == Some(m[4].value) && Field(v, "eventId") == Some(m[5].value)
            && Field(v, "execution") == Some(m[6].value) && Field(v, "metadata") == Some(m[8].value)
            && Field(v, "occurredAt") == Some(m[9].value) && Field(v, "previousSha256") == Some(m[10].value)
            && Field(v, "sequence") == Some(m[11].value) && Field(v, "sha256") == Some(m[12].value)
            && m[9].value.Str?
  {
    KeysAre(v.members, EVENT_KEYS);
    EventKeysSorted();
    SortedByKeys(v.members);
    hide Field, Less, Sorted;
    MemberFound(v, 0, "action");
    MemberFound(v, 1, "actor");
    MemberFound(v, 2, "apiVersion");
    MemberFound(v, 3, "bindings");
    MemberFound(v, 4, "category");
    MemberFound(v, 5, "eventId");
    MemberFound(v, 6, "execution");
    MemberFound(v, 8, "metadata");
    MemberFound(v, 9, "occurredAt");
    MemberFound(v, 10, "previousSha256");
    MemberFound(v, 11, "sequence");
    MemberFound(v, 12, "sha256");
  }

  lemma MetadataRead(v: Json, env: Platform)
    requires FromMapping(v, env).Some?
    ensures EventShape(v) && v.members[8].value == Obj(FromMapping(v, env).value.metadata)
  {
    hide ReadActor, ReadAction, ReadExecution, ReadBindings, BodyDigest, SortBindings, Freezable;
  }

  lemma MetadataWritten(e: AuditEvent)
    requires Encodable(EventJson(e))
    ensures Encodable(Obj(e.metadata))
  {
    hide ActorJson, ActionJson, ExecutionJson, BindingsJson;
    assert EventJson(e).members[8] in EventJson(e).members;
    assert EventJson(e).members[8].value == Obj(e.metadata);
  }

  /** An event's record reads back as the event exactly when the event is sound and its metadata is a JSON object. */
  lemma RecordMeans(e: AuditEvent, env: Platform)
    requires Lawful(env)
    ensures Record(e).Some? && ReadRecord(Record(e).value, env) == Some(e) <==>
              SoundEvent(e, env) && WellFormed(Obj(e.metadata), env.floatRepr)
  {
    SettledMeans(e, env);
    hide SoundEvent, Settled, FromMapping, EventJson, WellFormed, Encodable, EventShape, Readable, Loads, Utf8.Decode;
    if SoundEvent(e, env) && WellFormed(Obj(e.metadata), env.floatRepr) {
      SettledReadsBack(e, env);
      EventWellFormed(e, env.floatRepr);
      LoadCanonical(EventJson(e), env);
    }
    if Record(e).Some? && ReadRecord(Record(e).value, env) == Some(e) {
      var v := LoadBytes(Record(e).value, env).value;
      ReadIsSettled(v, env);
      MetadataRead(v, env);
      MetadataWritten(e);
      LoadsReadable(Utf8.Decode(Record(e).value).value, env.floatRepr);
      ReadableMember(v, 8, env.floatRepr);
      ReadableIsWellFormed(Obj(e.metadata), env.floatRepr);
    }
  }

  lemma ReadableMember(v: Json, k: nat, fr: FloatRepr)
    requires Readable(v, fr) && v.Obj? && k < |v.members|
    ensures Readable(v.members[k].value, fr)
  {
    assert v.members[k] in v.members;
  }

  // ---------- chains

  /** Event `j` of a feature's chain is sound, short enough, numbered `j + 1`, and names the digest before it. */
  ghost predicate Linked(events: seq<AuditEvent>, j: nat, feature: string, env: Platform)
    requires j < |events|
  {
    var e := events[j];
    && SoundEvent(e, env) && WellFormed(Obj(e.metadata), env.floatRepr)
    && |Utf8.Encode(Dumps(EventJson(e)))| <= 1_048_576 && e.featureId == feature && e.sequence == j + 1
    && (if j == 0 then e.previousSha256 == "sha256:" + seq(64, _ => '0')
        else e.previousSha256 == events[j - 1].sha256)
  }

  lemma ChainMeans(events: seq<AuditEvent>, feature: string, env: Platform)
    requires Lawful(env)
    ensures ValidChain(events, feature, env) <==>
              |events| <= 100_000 && forall j :: 0 <= j < |events| ==> Linked(events, j, feature, env)
  {
    hide Link, Linked;
    forall j | 0 <= j < |events| ensures Link(events, j, feature, env) <==> Linked(events, j, feature, env) {
      LinkMeans(events, j, feature, env);
    }
  }

  lemma LinkMeans(events: seq<AuditEvent>, j: nat, feature: string, env: Platform)
    requires Lawful(env) && j < |events|
    ensures Link(events, j, feature, env) <==> Linked(events, j, feature, env)
  {
    var e := events[j];
    RecordMeans(e, env);
    hide SoundEvent, ReadRecord, Record, EventJson, WellFormed, Dumps, Utf8.Encode;
    if WellFormed(Obj(e.metadata), env.floatRepr) { RecordIsLine(e, env); }
    if Record(e).Some? { RecordIsText(e); }
    HeadMeans(events, j);
    hide Head;
  }

  lemma RecordIsText(e: AuditEvent)
    requires Record(e).Some?
    ensures Record(e).value == Utf8.Encode(Dumps(EventJson(e)))
  {
  }

  lemma RecordIsLine(e: AuditEvent, env: Platform)
    requires WellFormed(Obj(e.metadata), env.floatRepr)
    ensures Record(e).Some? && LF !in Record(e).value && |Record(e).value| > 0
  {
    hide EventJson, WellFormed;
    EventWellFormed(e, env.floatRepr);
    CanonicalHasNoLF(EventJson(e), env);
  }

  lemma HeadMeans(events: seq<AuditEvent>, j: nat)
    requires j < |events|
    ensures Head(events[..j]) == if j == 0 then "sha256:" + seq(64, _ => '0') else events[j - 1].sha256
  {
  }

  /** At most 64 MiB, holding the records of such a chain, each with its newline. */
  ghost predicate LedgerFile(content: Bytes, events: seq<AuditEvent>, feature: string, env: Platform)
  {
    && |content| <= 67_108_864 && |events| <= 100_000
    && (forall j :: 0 <= j < |events| ==> Linked(events, j, feature, env)) && content == Lines(events)
  }

  /** A ledger file is read as these events exactly when it is their file. */
  lemma AcceptedMeans(content: Bytes, events: seq<AuditEvent>, feature: string, env: Platform)
    requires Lawful(env)
    ensures StrictRead(content, feature, env) == Some(events) <==> LedgerFile(content, events, feature, env)
  {
    AcceptedIff(content, events, feature, env);
    ChainMeans(events, feature, env);
    if ValidChain(events, feature, env) {
      ChainRecords(events, feature, env);
      LinesMean(events);
    }
    hide StrictRead, ValidChain, Linked, Lines, Render, Record;
  }

  /** The canonical text of each event, in UTF-8, with a newline after it. */
  function Lines(events: seq<AuditEvent>): Bytes
  {
    if |events| == 0 then [] else Utf8.Encode(Dumps(EventJson(events[0]))) + [10] + Lines(events[1..])
  }

  lemma {:induction false} LinesMean(events: seq<AuditEvent>)
    requires forall e <- events :: Record(e).Some?
    ensures Render(events) == Lines(events)
  {
    hide EventJson, Dumps, Utf8.Encode, Encodable;
    if |events| > 0 {
      LinesMean(events[1..]);
      assert Records(events)[1..] == Records(events[1..]);
    }
  }
}
