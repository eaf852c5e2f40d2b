/** Audit events: construction, JSON form, and reading back (audit_provenance.py). */
module AuditEvents {
  import opened Prelude
  import opened Json
  import opened JsonProofs
  import opened AuditContracts

  datatype AuditActor = AuditActor(
    kind: string, subject: string,
    semanticRole: Option<string>, provider: Option<string>, model: Option<string>)

  datatype AuditAction = AuditAction(kind: string, subject: string, reason: Option<string>)

  datatype AuditExecution = AuditExecution(
    runId: Option<string>, workflow: Option<string>, stepId: Option<string>, taskId: Option<string>,
    gitCommit: Option<string>, workspace: Option<string>)

  datatype AuditBinding = AuditBinding(kind: string, source: string, sha256: string)

  datatype AuditEvent = AuditEvent(
    sequence: int, eventId: string, featureId: string, category: string, occurredAt: string,
    actor: AuditActor, action: AuditAction, execution: AuditExecution,
    bindings: seq<AuditBinding>, metadata: seq<Member>, previousSha256: string, sha256: string)

  const ACTOR_KINDS := ["human", "ai", "system", "workflow"]
  const EVENT_CATEGORIES := ["human", "ai", "system", "workflow", "authority", "evidence"]
  const BINDING_KINDS := [
    "input", "context", "output", "artifact", "policy", "constitution", "workflow", "evidence",
    "trace", "quality", "security", "eval"]
  const API_VERSION := "sdai.audit-event/v1"

  // ---------- validated parts

  predicate ValidActor(a: AuditActor)
  {
    && a.kind in ACTOR_KINDS && ValidText(a.subject, 512)
    && OptionalId(a.semanticRole) && OptionalId(a.provider) && OptionalText(a.model, 256)
    && (a.kind != "ai" ==> a.provider.None? && a.model.None?)
  }

  predicate ValidAction(a: AuditAction)
  {
    ActionKind(a.kind) && ValidText(a.subject, 1024) && OptionalText(a.reason, 4096)
  }

  /** AuditExecution(...): the commit is normalized, everything else only checked. */
  function MakeExecution(x: AuditExecution, env: Platform): Option<AuditExecution>
  {
    var commit := if x.gitCommit.Some? then GitCommit(x.gitCommit.value, env) else None;
    if && OptionalId(x.runId) && OptionalId(x.workflow) && OptionalId(x.stepId) && OptionalId(x.taskId)
       && (x.gitCommit.Some? ==> commit.Some?)
       && (x.workspace.Some? ==> Reference(x.workspace.value))
    then Some(x.(gitCommit := commit)) else None
  }

  /** A constructed execution: the constructor leaves it as it is. */
  predicate ValidExecution(x: AuditExecution, env: Platform)
  {
    MakeExecution(x, env) == Some(x)
  }

  predicate ValidBinding(b: AuditBinding)
  {
    b.kind in BINDING_KINDS && Reference(b.source) && IsSha256(b.sha256)
  }

  // ---------- bindings in order

  predicate BindingLess(a: AuditBinding, b: AuditBinding)
  {
    Less(a.kind, b.kind) || (a.kind == b.kind &&
    (Less(a.source, b.source) || (a.source == b.source && Less(a.sha256, b.sha256))))
  }

  function InsertBinding(b: AuditBinding, sorted: seq<AuditBinding>): seq<AuditBinding>
  {
    if |sorted| == 0 || !BindingLess(sorted[0], b) then [b] + sorted
    else [sorted[0]] + InsertBinding(b, sorted[1..])
  }

  /** sorted(bindings, key=(kind, source, sha256)). */
  function SortBindings(bs: seq<AuditBinding>): seq<AuditBinding>
  {
    if |bs| == 0 then [] else InsertBinding(bs[0], SortBindings(bs[1..]))
  }

  predicate BindingsSorted(bs: seq<AuditBinding>)
  {
    forall j :: 0 < j < |bs| ==> !BindingLess(bs[j], bs[j - 1])
  }

  predicate DistinctIdentities(bs: seq<AuditBinding>)
  {
    forall i, j :: 0 <= i < j < |bs| ==> bs[i].kind != bs[j].kind || bs[i].source != bs[j].source
  }

  lemma BindingLessAsymmetric(a: AuditBinding, b: AuditBinding)
    requires BindingLess(a, b)
    ensures !BindingLess(b, a)
  {
    if Less(a.kind, b.kind) && Less(b.kind, a.kind) { LessTransitive(a.kind, b.kind, a.kind); }
    if Less(a.source, b.source) && Less(b.source, a.source) { LessTransitive(a.source, b.source, a.source); }
    if Less(a.sha256, b.sha256) && Less(b.sha256, a.sha256) { LessTransitive(a.sha256, b.sha256, a.sha256); }
    LessIrreflexive(a.kind);
    LessIrreflexive(a.source);
    LessIrreflexive(a.sha256);
  }

  lemma {:induction false} InsertKeepsSorted(b: AuditBinding, sorted: seq<AuditBinding>)
    requires BindingsSorted(sorted)
    ensures BindingsSorted(InsertBinding(b, sorted))
    ensures multiset(InsertBinding(b, sorted)) == multiset(sorted) + multiset{b}
    ensures |sorted| > 0 ==> InsertBinding(b, sorted)[0] in [b, sorted[0]]
  {
    hide BindingLess;
    if |sorted| > 0 && BindingLess(sorted[0], b) {
      var tail := sorted[1..];
      assert BindingsSorted(tail) by {
        forall j | 0 < j < |tail| ensures !BindingLess(tail[j], tail[j - 1]) {
          assert !BindingLess(sorted[j + 1], sorted[j]);
        }
      }
      InsertKeepsSorted(b, tail);
      BindingLessAsymmetric(sorted[0], b);
      assert |tail| > 0 ==> !BindingLess(sorted[1], sorted[0]);
      assert sorted == [sorted[0]] + tail;
    } else {
      assert [b] + sorted == InsertBinding(b, sorted);
    }
  }

  /** Sorting orders the bindings and neither adds nor drops one. */
  lemma {:induction false} SortBindingsSorts(bs: seq<AuditBinding>)
    ensures BindingsSorted(SortBindings(bs))
    ensures multiset(SortBindings(bs)) == multiset(bs)
  {
    if |bs| > 0 {
      SortBindingsSorts(bs[1..]);
      InsertKeepsSorted(bs[0], SortBindings(bs[1..]));
      assert bs == [bs[0]] + bs[1..];
    }
  }

  lemma {:induction false} SortedIsFixed(bs: seq<AuditBinding>)
    requires BindingsSorted(bs)
    ensures SortBindings(bs) == bs
  {
    if |bs| > 0 {
      var tail := bs[1..];
      forall j | 0 < j < |tail| ensures !BindingLess(tail[j], tail[j - 1]) {
        assert !BindingLess(bs[j + 1], bs[j]);
      }
      SortedIsFixed(tail);
      assert bs == [bs[0]] + tail;
      assert |bs| > 1 ==> !BindingLess(bs[1], bs[0]);
    }
  }

  // ---------- event construction

  function Pad(n: nat, width: nat): string
  {
    var digits := Decimal(n);
    seq(if |digits| < width then width - |digits| else 0, _ => '0') + digits
  }

  function EventId(featureId: string, sequence: nat): string
  {
    featureId + ":" + Pad(sequence, 8)
  }

  /** AuditEvent.__post_init__: normalize feature, time and binding order, check the rest. */
  function Construct(raw: AuditEvent, env: Platform): Option<AuditEvent>
  {
    var feature := Strip(raw.featureId);
    var time := Timestamp(raw.occurredAt, env);
    var ordered := SortBindings(raw.bindings);
    if && raw.sequence >= 1 && FeatureId(feature) && raw.eventId == EventId(feature, raw.sequence)
       && raw.category in EVENT_CATEGORIES && time.Some? && DistinctIdentities(ordered)
       && Freezable(Obj(raw.metadata), env) && IsSha256(raw.previousSha256) && IsSha256(raw.sha256)
    then Some(raw.(featureId := feature, occurredAt := time.value, bindings := ordered))
    else None
  }

  // ---------- JSON form; members are listed in sort_keys order

  function OptionalJson(s: Option<string>): Json
  {
    if s.Some? then Str(s.value) else Null
  }

  function ActorJson(a: AuditActor): Json
  {
    Obj([Member("kind", Str(a.kind)), Member("model", OptionalJson(a.model)),
         Member("provider", OptionalJson(a.provider)), Member("semanticRole", OptionalJson(a.semanticRole)),
         Member("subject", Str(a.subject))])
  }

  function ActionJson(a: AuditAction): Json
  {
    Obj([Member("kind", Str(a.kind)), Member("reason", OptionalJson(a.reason)), Member("subject", Str(a.subject))])
  }

  function ExecutionJson(x: AuditExecution): Json
  {
    Obj([Member("gitCommit", OptionalJson(x.gitCommit)), Member("runId", OptionalJson(x.runId)),
         Member("stepId", OptionalJson(x.stepId)), Member("taskId", OptionalJson(x.taskId)),
         Member("workflow", OptionalJson(x.workflow)), Member("workspace", OptionalJson(x.workspace))])
  }

  function BindingJson(b: AuditBinding): Json
  {
    Obj([Member("kind", Str(b.kind)), Member("sha256", Str(b.sha256)), Member("source", Str(b.source))])
  }

  function BindingsJson(bs: seq<AuditBinding>): (items: seq<Json>)
    ensures |items| == |bs| && forall j :: 0 <= j < |bs| ==> items[j] == BindingJson(bs[j])
  {
    if |bs| == 0 then [] else [BindingJson(bs[0])] + BindingsJson(bs[1..])
  }

  function BodyMembers(e: AuditEvent): seq<Member>
  {
    [Member("action", ActionJson(e.action)),
     Member("actor", ActorJson(e.actor)),
     Member("apiVersion", Str(API_VERSION)),
     Member("bindings", Arr(BindingsJson(e.bindings))),
     Member("category", Str(e.category)),
     Member("eventId", Str(e.eventId)),
     Member("execution", ExecutionJson(e.execution)),
     Member("featureId", Str(e.featureId)),
     Member("metadata", Obj(e.metadata)),
     Member("occurredAt", Str(e.occurredAt)),
     Member("previousSha256", Str(e.previousSha256)),
     Member("sequence", Int(e.sequence))]
  }

  /** body_dict(): what the event's digest covers. */
  function BodyJson(e: AuditEvent): Json
  {
    Obj(BodyMembers(e))
  }

  /** to_dict(). */
  function EventJson(e: AuditEvent): Json
  {
    Obj(BodyMembers(e) + [Member("sha256", Str(e.sha256))])
  }

  /** The canonical record of an event, without its LF. */
  function Record(e: AuditEvent): Option<Bytes>
  {
    CanonicalBytes(EventJson(e))
  }

  /** The digest an event must carry; None when its body has no canonical bytes. */
  function BodyDigest(e: AuditEvent, env: Platform): Option<string>
  {
    var body := CanonicalBytes(BodyJson(e));
    if body.Some? then Some(Digest(body.value, env)) else None
  }

  // ---------- reading an event back

  function Keys(ms: seq<Member>): (keys: seq<string>)
    ensures |keys| == |ms| && forall j :: 0 <= j < |ms| ==> keys[j] == ms[j].key
  {
    seq(|ms|, j requires 0 <= j < |ms| => ms[j].key)
  }

  const ACTOR_KEYS := ["kind", "model", "provider", "semanticRole", "subject"]
  const ACTION_KEYS := ["kind", "reason", "subject"]
  const EXECUTION_KEYS := ["gitCommit", "runId", "stepId", "taskId", "workflow", "workspace"]
  const BINDING_KEYS := ["kind", "sha256", "source"]
  const EVENT_KEYS := [
    "action", "actor", "apiVersion", "bindings", "category", "eventId", "execution",
    "featureId", "metadata", "occurredAt", "previousSha256", "sequence", "sha256"]

  predicate IsOptional(v: Json)
  {
    v.Null? || v.Str?
  }

  function ReadOptional(v: Json): Option<string>
    requires IsOptional(v)
  {
    if v.Str? then Some(v.s) else None
  }

  function ReadActor(v: Json): Option<AuditActor>
  {
    if !v.Obj? || Keys(v.members) != ACTOR_KEYS then None
    else
      var m := v.members;
      if !m[0].value.Str? || !m[4].value.Str? || !IsOptional(m[1].value) || !IsOptional(m[2].value)
        || !IsOptional(m[3].value)
      then None
      else
        var a := AuditActor(m[0].value.s, m[4].value.s, ReadOptional(m[3].value), ReadOptional(m[2].value),
          ReadOptional(m[1].value));
        if ValidActor(a) then Some(a) else None
  }

  function ReadAction(v: Json): Option<AuditAction>
  {
    if !v.Obj? || Keys(v.members) != ACTION_KEYS then None
    else
      var m := v.members;
      if !m[0].value.Str? || !m[2].value.Str? || !IsOptional(m[1].value) then None
      else
        var a := AuditAction(m[0].value.s, m[2].value.s, ReadOptional(m[1].value));
        if ValidAction(a) then Some(a) else None
  }

  function ReadExecution(v: Json, env: Platform): Option<AuditExecution>
  {
    if !v.Obj? || Keys(v.members) != EXECUTION_KEYS then None
    else
      var m := v.members;
      if exists j :: 0 <= j < 6 && !IsOptional(m[j].value) then None
      else
        MakeExecution(
          AuditExecution(ReadOptional(m[1].value), ReadOptional(m[4].value), ReadOptional(m[2].value),
                         ReadOptional(m[3].value), ReadOptional(m[0].value), ReadOptional(m[5].value)), env)
  }

  function ReadBinding(v: Json): Option<AuditBinding>
  {
    if !v.Obj? || Keys(v.members) != BINDING_KEYS then None
    else
      var m := v.members;
      if !m[0].value.Str? || !m[1].value.Str? || !m[2].value.Str? then None
      else
        var b := AuditBinding(m[0].value.s, m[2].value.s, m[1].value.s);
        if ValidBinding(b) then Some(b) else None
  }

  function ReadBindings(items: seq<Json>): Option<seq<AuditBinding>>
  {
    if |items| == 0 then Some([])
    else
      var first, rest := ReadBinding(items[0]), ReadBindings(items[1..]);
      if first.None? || rest.None? then None else Some([first.value] + rest.value)
  }

  predicate EventShape(v: Json)
  {
    v.Obj? && Keys(v.members) == EVENT_KEYS &&
    var m := v.members;
    && m[2].value == Str(API_VERSION) && m[3].value.Arr? && m[4].value.Str? && m[5].value.Str?
    && m[7].value.Str? && m[8].value.Obj? && m[9].value.Str? && m[10].value.Str?
    && m[11].value.Int? && m[12].value.Str?
  }

  /** AuditEvent.from_mapping: exact fields, validated parts, and a matching digest. */
  function FromMapping(v: Json, env: Platform): Option<AuditEvent>
  {
    if !EventShape(v) then None
    else
      var m := v.members;
      var action, actor, execution := ReadAction(m[0].value), ReadActor(m[1].value), ReadExecution(m[6].value, env);
      var bindings := ReadBindings(m[3].value.items);
      if action.None? || actor.None? || execution.None? || bindings.None? then None
      else
        var e := Construct(
          AuditEvent(m[11].value.i, m[5].value.s, m[7].value.s, m[4].value.s, m[9].value.s,
                     actor.value, action.value, execution.value, bindings.value,
                     m[8].value.members, m[10].value.s, m[12].value.s), env);
        if e.None? || BodyDigest(e.value, env) != Some(e.value.sha256) then None else e
  }

  /** Reading one record of the ledger. */
  function ReadRecord(line: Bytes, env: Platform): Option<AuditEvent>
  {
    var v := LoadBytes(line, env);
    if v.None? then None else FromMapping(v.value, env)
  }

  // ---------- creation

  datatype Draft = Draft(
    category: string, occurredAt: string, actor: AuditActor, action: AuditAction,
    execution: AuditExecution, bindings: seq<AuditBinding>, metadata: seq<Member>)

  /** What the types of AuditEvent.create's arguments promise. */
  predicate ValidDraft(d: Draft, env: Platform)
  {
    && ValidActor(d.actor) && ValidAction(d.action) && ValidExecution(d.execution, env)
    && (forall b <- d.bindings :: ValidBinding(b))
    && WellFormed(Obj(d.metadata), env.floatRepr)
  }

  /** AuditEvent.create: build the body, take its digest, construct the event. */
  function Create(sequence: int, featureId: string, d: Draft, previous: string, env: Platform): Option<AuditEvent>
  {
    var feature := Strip(featureId);
    var time := Timestamp(d.occurredAt, env);
    if sequence < 1 || !FeatureId(feature) || time.None? || !Freezable(Obj(d.metadata), env) then None
    else
      var body := AuditEvent(
        sequence, EventId(feature, sequence), feature, d.category, time.value, d.actor, d.action,
        d.execution, SortBindings(d.bindings), d.metadata, previous, "");
      var digest := BodyDigest(body, env);
      if digest.None? then None else Construct(body.(sha256 := digest.value), env)
  }
}
