/** Canonical round trip of events, and what a record's digest pins down. */
module AuditEventProofs {
  import opened Prelude
  import opened Json
  import opened JsonProofs
  import opened AuditContracts
  import opened AuditEvents
  import Utf8

  // ---------- the JSON form is canonical

  lemma ActorWellFormed(a: AuditActor, fr: FloatRepr)
    ensures WellFormed(ActorJson(a), fr)
  {
    assert Less("kind", "model") && Less("model", "provider") && Less("provider", "semanticRole")
           && Less("semanticRole", "subject");
  }

  lemma ActionWellFormed(a: AuditAction, fr: FloatRepr)
    ensures WellFormed(ActionJson(a), fr)
  {
    assert Less("kind", "reason") && Less("reason", "subject");
  }

  lemma SortedByKeys(ms: seq<Member>)
    requires forall j :: 0 < j < |ms| ==> Less(Keys(ms)[j - 1], Keys(ms)[j])
    ensures Sorted(ms)
  {
    hide Less;
    var keys := Keys(ms);
    forall j | 0 < j < |ms| ensures Less(ms[j - 1].key, ms[j].key) {
      assert Less(keys[j - 1], keys[j]);
    }
  }

  lemma ExecutionKeysSorted()
    ensures forall j :: 0 < j < |EXECUTION_KEYS| ==> Less(EXECUTION_KEYS[j - 1], EXECUTION_KEYS[j])
  {
    assert Less("gitCommit", "runId") && Less("runId", "stepId") && Less("stepId", "taskId");
    assert Less("taskId", "workflow") && Less("workflow", "workspace");
  }

  lemma ExecutionWellFormed(x: AuditExecution, fr: FloatRepr)
    ensures WellFormed(ExecutionJson(x), fr)
  {
    hide Less, Sorted;
    var ms := ExecutionJson(x).members;
    assert Keys(ms) == EXECUTION_KEYS;
    ExecutionKeysSorted();
    SortedByKeys(ms);
  }

  lemma BindingWellFormed(b: AuditBinding, fr: FloatRepr)
    ensures WellFormed(BindingJson(b), fr)
  {
    assert Less("kind", "sha256") && Less("sha256", "source");
  }

  lemma EventKeysSorted()
    ensures forall j :: 0 < j < |EVENT_KEYS| ==> Less(EVENT_KEYS[j - 1], EVENT_KEYS[j])
  {
    assert Less("action", "actor") && Less("actor", "apiVersion") && Less("apiVersion", "bindings");
    assert Less("bindings", "category") && Less("category", "eventId") && Less("eventId", "execution");
    assert Less("execution", "featureId") && Less("featureId", "metadata") && Less("metadata", "occurredAt");
    assert Less("occurredAt", "previousSha256") && Less("previousSha256", "sequence") && Less("sequence", "sha256");
  }

  lemma BindingsWellFormed(bs: seq<AuditBinding>, fr: FloatRepr)
    ensures WellFormed(Arr(BindingsJson(bs)), fr)
  {
    hide BindingJson;
    forall item | item in BindingsJson(bs) ensures WellFormed(item, fr) {
      var j :| 0 <= j < |bs| && BindingsJson(bs)[j] == item;
      BindingWellFormed(bs[j], fr);
    }
  }

  lemma ObjectWellFormed(ms: seq<Member>, fr: FloatRepr)
    requires Sorted(ms) && forall j :: 0 <= j < |ms| ==> WellFormed(ms[j].value, fr)
    ensures WellFormed(Obj(ms), fr)
  {
  }

  lemma EventMembersSorted(e: AuditEvent)
    ensures Sorted(EventJson(e).members)
  {
    hide Less, Sorted, ActorJson, ActionJson, ExecutionJson, BindingsJson, WellFormed;
    var ms := EventJson(e).members;
    assert Keys(ms) == EVENT_KEYS;
    EventKeysSorted();
    SortedByKeys(ms);
  }

  lemma ScalarsWellFormed(fr: FloatRepr)
    ensures forall s: string :: WellFormed(Str(s), fr)
    ensures forall i: int :: WellFormed(Int(i), fr)
  {
  }

  lemma EventWellFormed(e: AuditEvent, fr: FloatRepr)
    requires WellFormed(Obj(e.metadata), fr)
    ensures WellFormed(EventJson(e), fr)
  {
    EventMembersSorted(e);
    ActorWellFormed(e.actor, fr);
    ActionWellFormed(e.action, fr);
    ExecutionWellFormed(e.execution, fr);
    BindingsWellFormed(e.bindings, fr);
    ScalarsWellFormed(fr);
    hide WellFormed, Less, Sorted, Keys, ActorJson, ActionJson, ExecutionJson, BindingsJson;
    ObjectWellFormed(EventJson(e).members, fr);
  }

  // ---------- reading the parts back

  lemma ActorRoundTrip(a: AuditActor)
    requires ValidActor(a)
    ensures ReadActor(ActorJson(a)) == Some(a)
  {
    assert Keys(ActorJson(a).members) == ACTOR_KEYS;
  }

  lemma ActionRoundTrip(a: AuditAction)
    requires ValidAction(a)
    ensures ReadAction(ActionJson(a)) == Some(a)
  {
    assert Keys(ActionJson(a).members) == ACTION_KEYS;
  }

  lemma ExecutionRoundTrip(x: AuditExecution, env: Platform)
    requires ValidExecution(x, env)
    ensures ReadExecution(ExecutionJson(x), env) == Some(x)
  {
    assert Keys(ExecutionJson(x).members) == EXECUTION_KEYS;
  }

  lemma {:induction false} BindingsRoundTrip(bs: seq<AuditBinding>)
    requires forall b <- bs :: ValidBinding(b)
    ensures ReadBindings(BindingsJson(bs)) == Some(bs)
  {
    if |bs| > 0 {
      assert Keys(BindingJson(bs[0]).members) == BINDING_KEYS;
      BindingsRoundTrip(bs[1..]);
      assert bs == [bs[0]] + bs[1..];
    }
  }

  /** An execution built by the constructor is a fixed point of the constructor. */
  lemma MakeExecutionIdempotent(x: AuditExecution, env: Platform)
    requires Lawful(env) && MakeExecution(x, env).Some?
    ensures ValidExecution(MakeExecution(x, env).value, env)
  {
    if x.gitCommit.Some? {
      GitCommitIdempotent(x.gitCommit.value, env);
    }
  }

  // ---------- reading an event back

  /** An event that constructing again leaves alone and whose digest matches its body. */
  predicate Settled(e: AuditEvent, env: Platform)
  {
    && ValidActor(e.actor) && ValidAction(e.action) && ValidExecution(e.execution, env)
    && (forall b <- e.bindings :: ValidBinding(b))
    && Construct(e, env) == Some(e) && BodyDigest(e, env) == Some(e.sha256)
  }

  lemma EventJsonShape(e: AuditEvent)
    ensures EventShape(EventJson(e))
  {
    hide BindingsJson, ActorJson, ActionJson, ExecutionJson;
    assert Keys(EventJson(e).members) == EVENT_KEYS;
  }

  lemma SettledReadsBack(e: AuditEvent, env: Platform)
    requires Settled(e, env)
    ensures FromMapping(EventJson(e), env) == Some(e)
  {
    hide Construct, BodyDigest, ReadActor, ReadAction, ReadExecution, ReadBindings, EventShape;
    hide ActorJson, ActionJson, ExecutionJson, BindingsJson, ValidActor, ValidAction, ValidBinding;
    EventJsonShape(e);
    ActorRoundTrip(e.actor);
    ActionRoundTrip(e.action);
    ExecutionRoundTrip(e.execution, env);
    BindingsRoundTrip(e.bindings);
  }

  /** Constructing twice is constructing once. */
  lemma ConstructIdempotent(raw: AuditEvent, env: Platform)
    requires Lawful(env) && Construct(raw, env).Some?
    ensures Construct(Construct(raw, env).value, env) == Construct(raw, env)
  {
    hide SortBindings, IsSha256, EventId, Freezable, FeatureId;
    var e := Construct(raw, env).value;
    FeatureIdIsStripped(e.featureId);
    SortBindingsSorts(raw.bindings);
    SortedIsFixed(e.bindings);
  }

  lemma DigestIsSha(b: Bytes, env: Platform)
    requires Lawful(env)
    ensures IsSha256(Digest(b, env))
  {
    var d := Digest(b, env);
    assert IsHex(env.sha256(b), 64);
    assert d[7..] == env.sha256(b);
  }

  lemma ZeroHashIsSha()
    ensures IsSha256(ZeroHash())
  {
    assert ZeroHash()[7..] == seq(64, _ => '0');
  }

  lemma CreateSettles(sequence: int, featureId: string, d: Draft, previous: string, env: Platform)
    requires Lawful(env) && ValidDraft(d, env)
    requires Create(sequence, featureId, d, previous, env).Some?
    ensures var e := Create(sequence, featureId, d, previous, env).value;
            && Settled(e, env) && e.sequence == sequence && e.previousSha256 == previous
            && e.featureId == Strip(featureId) && e.metadata == d.metadata
  {
    hide SortBindings, IsSha256, EventId, Freezable, FeatureId, ValidActor, ValidAction, ValidBinding, BodyJson;
    var feature := Strip(featureId);
    var time := Timestamp(d.occurredAt, env).value;
    var body := AuditEvent(
      sequence, EventId(feature, sequence), feature, d.category, time, d.actor, d.action,
      d.execution, SortBindings(d.bindings), d.metadata, previous, "");
    var raw := body.(sha256 := BodyDigest(body, env).value);
    FeatureIdIsStripped(feature);
    SortBindingsSorts(d.bindings);
    SortedIsFixed(body.bindings);
    assert Construct(raw, env) == Some(raw);
    SameMembers(d.bindings, body.bindings);
    BodyIgnoresDigest(body, raw.sha256);
  }

  /** A feature, a colon, and the number in decimal, padded with zeros to eight digits. */
  ghost predicate NumberedId(id: string, feature: string, number: int)
  {
    exists digits: string ::
      && id == feature + ":" + digits && |digits| >= 8 && (forall c <- digits :: '0' <= c <= '9')
      && DigitsValue(digits) == number && (|digits| > 8 ==> digits[0] != '0')
  }

  /** The event says what the draft said: nothing of it is lost, added or exchanged. */
  ghost predicate FromDraft(e: AuditEvent, d: Draft, env: Platform)
  {
    && e.actor == d.actor && e.action == d.action && e.execution == d.execution
    && e.category == d.category && env.timestamp(d.occurredAt) == Some(e.occurredAt) && e.metadata == d.metadata
    && multiset(e.bindings) == multiset(d.bindings)
    && (forall i, j :: 0 <= i < j < |e.bindings| ==>
          var a, b := e.bindings[i], e.bindings[j];
          Less(a.kind, b.kind) || (a.kind == b.kind && Less(a.source, b.source)))
    && NumberedId(e.eventId, e.featureId, e.sequence)
  }

  /** Padding gives at least the width in digits, never more zeros than that, and keeps the number. */
  lemma PadIsNumber(n: nat, width: nat)
    requires width > 0
    ensures var digits := Pad(n, width);
            && |digits| >= width && (forall c <- digits :: IsDigit(c)) && DigitsValue(digits) == n
            && (|digits| > width ==> digits[0] != '0')
  {
    hide DigitsValue;
    var decimal := Decimal(n);
    DecimalValue(n);
    LeadingZeros(if |decimal| < width then width - |decimal| else 0, decimal);
  }

  lemma {:induction false} LeadingZeros(zeros: nat, digits: string)
    requires forall c <- digits :: IsDigit(c)
    ensures var padded := seq(zeros, _ => '0') + digits;
            (forall c <- padded :: IsDigit(c)) && DigitsValue(padded) == DigitsValue(digits)
    decreases |digits|, zeros
  {
    var padded := seq(zeros, _ => '0') + digits;
    if |digits| > 0 {
      LeadingZeros(zeros, digits[..|digits| - 1]);
      assert padded[..|padded| - 1] == seq(zeros, _ => '0') + digits[..|digits| - 1];
    } else if zeros > 0 {
      LeadingZeros(zeros - 1, digits);
      assert padded[..|padded| - 1] == seq(zeros - 1, _ => '0') + digits;
    }
  }

  lemma EventIdIsNumbered(feature: string, sequence: nat)
    ensures NumberedId(EventId(feature, sequence), feature, sequence)
  {
    hide DigitsValue, Pad;
    PadIsNumber(sequence, 8);
    var digits := Pad(sequence, 8);
    assert EventId(feature, sequence) == feature + ":" + digits;
  }

  /** Sorted bindings with different identities ascend by kind and source. */
  lemma {:induction false} IdentitiesAscend(bs: seq<AuditBinding>, i: nat, j: nat)
    requires BindingsSorted(bs) && DistinctIdentities(bs) && i < j < |bs|
    ensures var a, b := bs[i], bs[j]; Less(a.kind, b.kind) || (a.kind == b.kind && Less(a.source, b.source))
    decreases j
  {
    hide Less;
    var a, m, b := bs[i], bs[j - 1], bs[j];
    assert !BindingLess(b, m);
    LessTotal(m.kind, b.kind);
    LessTotal(m.source, b.source);
    if i < j - 1 {
      IdentitiesAscend(bs, i, j - 1);
      if Less(a.kind, m.kind) && Less(m.kind, b.kind) { LessTransitive(a.kind, m.kind, b.kind); }
      if Less(a.source, m.source) && Less(m.source, b.source) { LessTransitive(a.source, m.source, b.source); }
    }
  }

  /** A created event is the event of its draft. */
  lemma CreatedFromDraft(sequence: int, featureId: string, d: Draft, previous: string, env: Platform)
    requires Lawful(env) && ValidDraft(d, env)
    requires Create(sequence, featureId, d, previous, env).Some?
    ensures FromDraft(Create(sequence, featureId, d, previous, env).value, d, env)
  {
    hide IsSha256, EventId, Freezable, FeatureId, ValidActor, ValidAction, ValidBinding, BodyJson, NumberedId, Less;
    hide BindingLess, SortBindings, Strip;
    var e := Create(sequence, featureId, d, previous, env).value;
    CreateIff(sequence, featureId, d, previous, env);
    CreateSettles(sequence, featureId, d, previous, env);
    FeatureIdIsStripped(Strip(featureId));
    SortBindingsSorts(d.bindings);
    SortedIsFixed(SortBindings(d.bindings));
    EventIdIsNumbered(e.featureId, e.sequence);
    forall i, j | 0 <= i < j < |e.bindings|
      ensures var a, b := e.bindings[i], e.bindings[j];
              Less(a.kind, b.kind) || (a.kind == b.kind && Less(a.source, b.source))
    {
      IdentitiesAscend(e.bindings, i, j);
    }
    TimeOfDraft(d, env);
  }

  lemma TimeOfDraft(d: Draft, env: Platform)
    requires Lawful(env) && Timestamp(d.occurredAt, env).Some?
    ensures Timestamp(d.occurredAt, env) == env.timestamp(d.occurredAt)
    ensures Timestamp(env.timestamp(d.occurredAt).value, env) == env.timestamp(d.occurredAt)
  {
    hide ValidText;
  }

  /** Creation fails exactly for a bad number, feature, category, time, binding identity, metadata or link. */
  lemma CreateIff(sequence: int, featureId: string, d: Draft, previous: string, env: Platform)
    requires Lawful(env) && ValidDraft(d, env)
    ensures Create(sequence, featureId, d, previous, env).Some? <==>
              && sequence >= 1 && FeatureId(Strip(featureId)) && d.category in EVENT_CATEGORIES
              && Timestamp(d.occurredAt, env).Some? && DistinctIdentities(SortBindings(d.bindings))
              && Freezable(Obj(d.metadata), env) && IsSha256(previous)
  {
    hide SortBindings, IsSha256, EventId, Freezable, FeatureId, BodyJson, ValidText, DistinctIdentities;
    hide ValidActor, ValidAction, ValidExecution, ValidBinding, WellFormed;
    var feature, time := Strip(featureId), Timestamp(d.occurredAt, env);
    if sequence >= 1 && FeatureId(feature) && time.Some? && Freezable(Obj(d.metadata), env) {
      var body := AuditEvent(
        sequence, EventId(feature, sequence), feature, d.category, time.value, d.actor, d.action,
        d.execution, SortBindings(d.bindings), d.metadata, previous, "");
      BodyCanonical(body, env);
      DigestIsSha(CanonicalBytes(BodyJson(body)).value, env);
      FeatureIdIsStripped(feature);
      SortBindingsSorts(d.bindings);
      SortedIsFixed(body.bindings);
      var raw := body.(sha256 := BodyDigest(body, env).value);
      assert Create(sequence, featureId, d, previous, env) == Construct(raw, env);
      hide Strip, Timestamp;
    }
  }

  lemma BodyCanonical(e: AuditEvent, env: Platform)
    requires WellFormed(Obj(e.metadata), env.floatRepr)
    ensures CanonicalBytes(BodyJson(e)).Some?
  {
    hide WellFormed, Encodable, EventJson, BodyJson;
    EventWellFormed(e, env.floatRepr);
    WellFormedEncodable(EventJson(e), env.floatRepr);
    BodyEncodable(e);
  }

  lemma SameMembers(xs: seq<AuditBinding>, ys: seq<AuditBinding>)
    requires multiset(xs) == multiset(ys)
    ensures forall y <- ys :: y in xs
  {
    forall y | y in ys ensures y in xs {
      assert y in multiset(ys);
    }
  }

  lemma BodyIgnoresDigest(e: AuditEvent, sha: string)
    ensures BodyJson(e.(sha256 := sha)) == BodyJson(e)
  {
  }

  /**
   * Canonical round trip: the record of any created event reads back as that event, and the
   * record is one non-empty line.
   */
  lemma CreatedReadsBack(sequence: int, featureId: string, d: Draft, previous: string, env: Platform)
    requires Lawful(env) && ValidDraft(d, env)
    requires Create(sequence, featureId, d, previous, env).Some?
    ensures var e := Create(sequence, featureId, d, previous, env).value;
            && Record(e).Some? && ReadRecord(Record(e).value, env) == Some(e)
            && LF !in Record(e).value && |Record(e).value| > 0
  {
    hide Create, FromMapping, EventJson, ValidDraft, Settled;
    CreateSettles(sequence, featureId, d, previous, env);
    var e := Create(sequence, featureId, d, previous, env).value;
    DraftMetadata(d, env);
    EventWellFormed(e, env.floatRepr);
    SettledReadsBack(e, env);
    LoadCanonical(EventJson(e), env);
    CanonicalHasNoLF(EventJson(e), env);
  }

  lemma DraftMetadata(d: Draft, env: Platform)
    requires ValidDraft(d, env)
    ensures WellFormed(Obj(d.metadata), env.floatRepr)
  {
  }

  // ---------- records and digests

  lemma {:induction false} DumpMembersSnoc(ms: seq<Member>, m: Member)
    requires |ms| > 0
    ensures DumpMembers(ms + [m]) == DumpMembers(ms) + "," + DumpMember(m)
  {
    hide DumpMember;
    var all := ms + [m];
    assert all[1..] == ms[1..] + [m];
    if |ms| == 1 {
      assert all[1..] == [m];
    } else {
      DumpMembersSnoc(ms[1..], m);
      var a, b, c := DumpMember(ms[0]) + ",", DumpMembers(ms[1..]), "," + DumpMember(m);
      assert a + (b + c) == (a + b) + c;
    }
  }

  /** A record is its body's text with the digest added before the closing brace. */
  lemma RecordText(e: AuditEvent)
    ensures var body := Dumps(BodyJson(e));
            |body| > 0 && Dumps(EventJson(e)) == body[..|body| - 1] + ","
              + DumpMember(Member("sha256", Str(e.sha256))) + "}"
  {
    hide DumpMember, DumpMembers, BodyMembers;
    var ms := BodyMembers(e);
    assert |ms| > 0 by { BodyMembersNonEmpty(e); }
    DumpMembersSnoc(ms, Member("sha256", Str(e.sha256)));
    var body := Dumps(BodyJson(e));
    assert body[..|body| - 1] == "{" + DumpMembers(ms);
  }

  lemma BodyMembersNonEmpty(e: AuditEvent)
    ensures |BodyMembers(e)| == 12
  {
  }

  lemma BodyEncodable(e: AuditEvent)
    ensures Encodable(EventJson(e)) <==> Encodable(BodyJson(e))
  {
    hide BodyMembers;
    var last := Member("sha256", Str(e.sha256));
    var ms := EventJson(e).members;
    assert forall m :: m in ms <==> m in BodyMembers(e) || m == last;
  }

  /** Events with the same body bytes and the same digest have the same record. */
  lemma SameBodySameRecord(e: AuditEvent, f: AuditEvent)
    requires CanonicalBytes(BodyJson(e)).Some? && CanonicalBytes(BodyJson(e)) == CanonicalBytes(BodyJson(f))
    requires e.sha256 == f.sha256
    ensures Record(e).Some? && Record(e) == Record(f)
  {
    hide BodyJson, EventJson, DumpMember;
    BodyEncodable(e);
    BodyEncodable(f);
    Utf8.EncodeInjective(Dumps(BodyJson(e)), Dumps(BodyJson(f)));
    RecordText(e);
    RecordText(f);
  }

  // ---------- the assumptions can be met

  function SomePlatform(): Platform
  {
    Platform(_ => seq(64, _ => '0'), s => if s == "t" then Some("t") else None, s => s, _ => None, _ => "")
  }

  function SomeDraft(): Draft
  {
    Draft("human", "t", AuditActor("human", "h", None, None, None), AuditAction("a", "x", None),
          AuditExecution(None, None, None, None, None, None), [], [])
  }

  lemma LetterIsText(c: char, maximum: nat)
    requires IsLower(c) && maximum > 0
    ensures ValidText([c], maximum)
  {
    assert Utf8.Encode([c]) == [c as int] by { assert [c][1..] == []; }
  }

  lemma SomePlatformLawful()
    ensures Lawful(SomePlatform())
  {
    LetterIsText('t', 128);
  }

  lemma SomeDraftValid()
    ensures ValidDraft(SomeDraft(), SomePlatform())
  {
    hide ValidText;
    LetterIsText('h', 512);
    LetterIsText('x', 1024);
  }

  /** The laws asked of the library can hold, a draft can be valid, and then an event is created from it. */
  lemma CreateIsSatisfiable()
    ensures exists env: Platform, d: Draft ::
              Lawful(env) && ValidDraft(d, env) && Create(1, "f", d, ZeroHash(), env).Some?
  {
    hide ValidText, Lawful, ValidDraft, IsSha256, EventId, BodyJson, Create;
    var env, d := SomePlatform(), SomeDraft();
    SomePlatformLawful();
    SomeDraftValid();
    LetterIsText('t', 128);
    FeatureIdIsStripped("f");
    ZeroHashIsSha();
    CreateIff(1, "f", d, ZeroHash(), env);
  }
}
