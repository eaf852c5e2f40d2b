/** Recording an artifact's state: what it refuses, and what it does to every other state (artifact_state.py). */
module ArtifactRecording {
  import opened Prelude
  import opened Json
  import JsonProofs
  import opened AuditContracts
  import opened ArtifactGraphs
  import opened ArtifactFreshness
  import opened ArtifactEvaluation

  const EVIDENCE_KINDS := ["approval", "validation", "verification", "evidence"]

  datatype EvidenceInput = EvidenceInput(kind: string, id: string, source: string)

  // ---------- binding evidence

  /** _normalize_evidence_input. */
  function Normalize(c: Context, e: EvidenceInput): Option<EvidenceInput>
  {
    var kind, id, source := c.lower(Strip(e.kind)), Strip(e.id), c.portable(e.source);
    if kind !in EVIDENCE_KINDS || id == "" || source.None? then None else Some(EvidenceInput(kind, id, source.value))
  }

  predicate EvidenceLess(a: Evidence, b: Evidence)
  {
    Less(a.kind, b.kind) || (a.kind == b.kind &&
    (Less(a.id, b.id) || (a.id == b.id && Less(a.source, b.source))))
  }

  function InsertEvidence(e: Evidence, sorted: seq<Evidence>): (r: seq<Evidence>)
    ensures forall x :: x in r <==> x == e || x in sorted
  {
    if |sorted| == 0 || !EvidenceLess(sorted[0], e) then [e] + sorted
    else
      assert forall x :: x in sorted <==> x == sorted[0] || x in sorted[1..];
      [sorted[0]] + InsertEvidence(e, sorted[1..])
  }

  /** The bindings of the inputs, without the final sort; None when one is refused. */
  function BindEach(c: Context, w: World, inputs: seq<EvidenceInput>): (r: Option<seq<Evidence>>)
    ensures r.Some? ==> forall e <- r.value :: EvidenceFresh(w, e) && e.source !in w.unusable
  {
    if |inputs| == 0 then Some([])
    else
      var rest := BindEach(c, w, inputs[..|inputs| - 1]);
      var e := Normalize(c, inputs[|inputs| - 1]);
      if rest.None? || e.None? then None
      else if exists x <- rest.value :: x.kind == e.value.kind && x.id == e.value.id then None
      else if e.value.source !in w.sources || e.value.source in w.unusable then None
      else Some(rest.value + [Evidence(e.value.kind, e.value.id, e.value.source, w.sources[e.value.source])])
  }

  function SortEvidence(items: seq<Evidence>): (r: seq<Evidence>)
    ensures forall x :: x in r <==> x in items
  {
    if |items| == 0 then []
    else
      assert forall x :: x in items <==> x == items[0] || x in items[1..];
      InsertEvidence(items[0], SortEvidence(items[1..]))
  }

  predicate EvidenceAscends(items: seq<Evidence>)
  {
    forall j :: 0 < j < |items| ==> EvidenceLess(items[j - 1], items[j])
  }

  /** No kind and id are bound twice. */
  predicate BoundOnce(items: seq<Evidence>)
  {
    forall i, j :: 0 <= i < j < |items| ==> items[i].kind != items[j].kind || items[i].id != items[j].id
  }

  lemma {:induction false} InsertAscends(e: Evidence, sorted: seq<Evidence>)
    requires EvidenceAscends(sorted)
    requires forall x :: x in sorted ==> x.kind != e.kind || x.id != e.id
    ensures EvidenceAscends(InsertEvidence(e, sorted))
    ensures multiset(InsertEvidence(e, sorted)) == multiset(sorted) + multiset{e}
    ensures |sorted| > 0 ==> InsertEvidence(e, sorted)[0] in [e, sorted[0]]
  {
    hide EvidenceLess;
    if |sorted| > 0 {
      var first, tail := sorted[0], sorted[1..];
      assert first in sorted && sorted == [first] + tail;
      EvidenceTotal(first, e);
      if EvidenceLess(first, e) {
        forall j | 0 < j < |tail| ensures EvidenceLess(tail[j - 1], tail[j]) {
          assert EvidenceLess(sorted[j], sorted[j + 1]);
        }
        InsertAscends(e, tail);
        assert |tail| > 0 ==> EvidenceLess(sorted[0], sorted[1]);
      }
    }
  }

  lemma EvidenceTotal(a: Evidence, b: Evidence)
    requires a.kind != b.kind || a.id != b.id
    ensures EvidenceLess(a, b) || EvidenceLess(b, a)
  {
    hide Less;
    JsonProofs.LessTotal(a.kind, b.kind);
    JsonProofs.LessTotal(a.id, b.id);
  }

  /** The sort orders the bindings strictly and neither adds nor drops one. */
  lemma {:induction false} SortEvidenceSorts(items: seq<Evidence>)
    requires BoundOnce(items)
    ensures EvidenceAscends(SortEvidence(items)) && multiset(SortEvidence(items)) == multiset(items)
  {
    hide EvidenceLess;
    if |items| > 0 {
      SortEvidenceSorts(items[1..]);
      assert items == [items[0]] + items[1..];
      forall x | x in SortEvidence(items[1..]) ensures x.kind != items[0].kind || x.id != items[0].id {
        var j :| 0 <= j < |items| - 1 && items[1..][j] == x;
        assert items[j + 1] == x;
      }
      InsertAscends(items[0], SortEvidence(items[1..]));
    }
  }

  lemma {:induction false} BoundOnceEach(c: Context, w: World, inputs: seq<EvidenceInput>)
    requires BindEach(c, w, inputs).Some?
    ensures BoundOnce(BindEach(c, w, inputs).value)
  {
    hide Normalize, EvidenceFresh;
    if |inputs| > 0 {
      BoundOnceEach(c, w, inputs[..|inputs| - 1]);
      var before, all := BindEach(c, w, inputs[..|inputs| - 1]).value, BindEach(c, w, inputs).value;
      assert all[..|before|] == before;
      forall i | 0 <= i < |before| ensures all[i].kind != all[|before|].kind || all[i].id != all[|before|].id {
        assert before[i] in before;
      }
    }
  }

  /** The loop of _bind_evidence: bind in order, refusing repeats and missing sources, then sort. */
  method BindEvidence(c: Context, w: World, inputs: seq<EvidenceInput>) returns (r: Option<seq<Evidence>>)
    ensures r.Some? <==> BindEach(c, w, inputs).Some?
    ensures r.Some? ==> r.value == SortEvidence(BindEach(c, w, inputs).value)
    ensures r.Some? ==> EvidenceAscends(r.value) && multiset(r.value) == multiset(BindEach(c, w, inputs).value)
  {
    hide Normalize, EvidenceFresh;
    var result: seq<Evidence> := [];
    var seen: set<(string, string)> := {};
    for i := 0 to |inputs|
      invariant BindEach(c, w, inputs[..i]) == Some(result)
      invariant forall k, n :: (k, n) in seen <==> exists x <- result :: x.kind == k && x.id == n
    {
      assert inputs[..i + 1][..i] == inputs[..i];
      var e := Normalize(c, inputs[i]);
      if e.None? || (e.value.kind, e.value.id) in seen || e.value.source !in w.sources || e.value.source in w.unusable {
        BindStops(c, w, inputs, i + 1);
        return None;
      }
      seen := seen + {(e.value.kind, e.value.id)};
      result := result + [Evidence(e.value.kind, e.value.id, e.value.source, w.sources[e.value.source])];
    }
    assert inputs[..|inputs|] == inputs;
    BoundOnceEach(c, w, inputs);
    SortEvidenceSorts(result);
    return Some(SortEvidence(result));
  }

  lemma {:induction false} BindStops(c: Context, w: World, inputs: seq<EvidenceInput>, n: nat)
    requires n <= |inputs| && BindEach(c, w, inputs[..n]).None?
    ensures BindEach(c, w, inputs).None?
    decreases |inputs|
  {
    hide Normalize;
    if n == |inputs| {
      assert inputs[..n] == inputs;
    } else {
      assert inputs[..|inputs| - 1][..n] == inputs[..n];
      BindStops(c, w, inputs[..|inputs| - 1], n);
    }
  }

  // ---------- recording

  /** The record that describes the artifact as it is now. */
  function CurrentRecord(c: Context, w: World, a: Id, evidence: seq<Evidence>): Record
    requires a in c.graph && PathOf(c, c.graph[a]).Some? && HashOf(c, w, a).Some?
    requires forall b <- c.graph[a].dependsOn :: b in c.graph && HashOf(c, w, b).Some?
  {
    Record(PathOf(c, c.graph[a]).value, c.definitionSha(c.graph[a]), HashOf(c, w, a).value,
           map b | b in c.graph[a].dependsOn :: HashOf(c, w, b).value, evidence)
  }

  function WithRecord(c: Context, w: World, a: Id, r: Record): World
    requires a in c.graph
  {
    w.(records := w.records[RecordKey(c, c.graph[a], a) := r])
  }

  /** When record_artifact_state goes through. */
  ghost predicate Recordable(c: Context, w: World, a: Id, inputs: seq<EvidenceInput>)
    requires ValidContext(c)
  {
    && a in c.graph && HashOf(c, w, a).Some? && (forall b <- c.graph :: Evaluable(c, w, b))
    && (forall b <- c.graph[a].dependsOn :: b in c.graph && StateOf(c, w, b).Fresh?)
    && BindEach(c, w, inputs).Some?
  }

  /** What record_artifact_state makes of the world. */
  ghost function Recorded(c: Context, w: World, a: Id, inputs: seq<EvidenceInput>): World
    requires ValidContext(c) && Recordable(c, w, a, inputs)
  {
    FreshHasHash(c, w, a);
    WithRecord(c, w, a, CurrentRecord(c, w, a, SortEvidence(BindEach(c, w, inputs).value)))
  }

  lemma FreshHasHash(c: Context, w: World, a: Id)
    requires ValidContext(c) && a in c.graph && Evaluable(c, w, a)
    requires forall b <- c.graph[a].dependsOn :: b in c.graph && StateOf(c, w, b).Fresh?
    ensures PathOf(c, c.graph[a]).Some?
    ensures forall b <- c.graph[a].dependsOn :: HashOf(c, w, b).Some?
  {
    hide PathOf, HashOf, Matches;
    forall b | b in c.graph[a].dependsOn ensures HashOf(c, w, b).Some? {
      StateStep(c, w, b);
    }
  }

  /** record_artifact_state on the active graph: check, evaluate, bind evidence, write one record. */
  method RecordState(c: Context, w: World, a: Id, inputs: seq<EvidenceInput>) returns (r: Option<World>)
    requires ValidContext(c)
    ensures r.Some? <==> Recordable(c, w, a, inputs)
    ensures r.Some? ==> r.value == Recorded(c, w, a, inputs)
  {
    hide PathOf, StateOf, Matches, BindEach, SortEvidence, HashOf, ValidContext, Reports;
    if a !in c.graph || !Evaluable(c, w, a) || HashOf(c, w, a).None? {
      return None;
    }
    var states := EvaluateStates(c, w);
    if states.None? {
      return None;
    }
    var dependencies := c.graph[a].dependsOn;
    for i := 0 to |dependencies|
      invariant forall j :: 0 <= j < i ==> dependencies[j] in c.graph && StateOf(c, w, dependencies[j]).Fresh?
    {
      var b := dependencies[i];
      DependencyReported(c, w, a, b, states.value);
      var freshness := states.value[Pos(c.order, b)].freshness;
      if !freshness.Fresh? {
        assert b in c.graph[a].dependsOn;
        return None;
      }
    }
    var evidence := BindEvidence(c, w, inputs);
    if evidence.None? {
      return None;
    }
    FreshHasHash(c, w, a);
    return Some(WithRecord(c, w, a, CurrentRecord(c, w, a, evidence.value)));
  }

  lemma DependencyReported(c: Context, w: World, a: Id, b: Id, states: seq<ArtifactState>)
    requires ValidContext(c) && a in c.graph && b in c.graph[a].dependsOn && |states| == |c.order|
    requires forall i :: 0 <= i < |c.order| ==> Reports(c, w, c.order[i], states[i])
    ensures b in c.graph && b in c.order && states[Pos(c.order, b)].freshness == StateOf(c, w, b)
  {
    hide StateOf, Matches, HashOf;
    StateStep(c, w, a);
    assert Reports(c, w, c.order[Pos(c.order, b)], states[Pos(c.order, b)]);
  }

  // ---------- what recording changes

  lemma OwnRecord(c: Context, w: World, a: Id, r: Record, b: Id)
    requires a in c.graph && b in c.graph
    ensures RecordOf(c, WithRecord(c, w, a, r), b) == if b == a then Some(r) else RecordOf(c, w, b)
    ensures HashOf(c, WithRecord(c, w, a, r), b) == HashOf(c, w, b)
  {
    hide PathOf, Mentions;
  }

  lemma SameSources(w: World, v: World, e: Evidence)
    requires w.sources == v.sources
    ensures EvidenceFresh(v, e) == EvidenceFresh(w, e)
  {
  }

  /** Whether an artifact's own record describes it does not depend on anyone else's. */
  lemma GoodUnchanged(c: Context, w: World, a: Id, r: Record, b: Id)
    requires a in c.graph && b in c.graph && b != a && Resolved(c.graph)
    ensures Good(c, WithRecord(c, w, a, r), b) <==> Good(c, w, b)
  {
    hide PathOf, RecordOf;
    OwnRecord(c, w, a, r, b);
    var v := WithRecord(c, w, a, r);
    forall d | d in c.graph[b].dependsOn ensures HashOf(c, v, d) == HashOf(c, w, d) {
      OwnRecord(c, w, a, r, d);
    }
    forall e ensures EvidenceFresh(v, e) == EvidenceFresh(w, e) { SameSources(w, v, e); }
  }

  /** The freshly written record describes its artifact. */
  lemma CurrentIsGood(c: Context, w: World, a: Id, evidence: seq<Evidence>)
    requires a in c.graph && PathOf(c, c.graph[a]).Some? && HashOf(c, w, a).Some? && NoDuplicates(c.graph[a].dependsOn)
    requires forall b <- c.graph[a].dependsOn :: b in c.graph && HashOf(c, w, b).Some?
    requires forall e <- evidence :: EvidenceFresh(w, e)
    ensures Good(c, WithRecord(c, w, a, CurrentRecord(c, w, a, evidence)), a)
  {
    hide PathOf, RecordOf, HashAt, EvidenceFresh;
    var r := CurrentRecord(c, w, a, evidence);
    var v := WithRecord(c, w, a, r);
    OwnRecord(c, w, a, r, a);
    forall d | d in c.graph[a].dependsOn ensures HashOf(c, v, d) == HashOf(c, w, d) {
      OwnRecord(c, w, a, r, d);
    }
    forall e ensures EvidenceFresh(v, e) == EvidenceFresh(w, e) { SameSources(w, v, e); }
  }

  /** Schemas never list a dependency twice. */
  predicate DistinctDependencies(g: Graph)
  {
    forall a <- g :: NoDuplicates(g[a].dependsOn)
  }

  lemma RecordedGood(c: Context, w: World, a: Id, inputs: seq<EvidenceInput>, b: Id)
    requires ValidContext(c) && DistinctDependencies(c.graph) && Recordable(c, w, a, inputs) && b in c.graph
    ensures var v := Recorded(c, w, a, inputs);
            && (Good(c, v, b) <==> b == a || Good(c, w, b))
            && HashOf(c, v, b) == HashOf(c, w, b)
  {
    hide Good, StateOf, HashAt, PathOf, RecordOf, IsTopological;
    GraphResolved(c);
    FreshHasHash(c, w, a);
    var evidence := SortEvidence(BindEach(c, w, inputs).value);
    var r := CurrentRecord(c, w, a, evidence);
    OwnRecord(c, w, a, r, b);
    if b == a {
      CurrentIsGood(c, w, a, evidence);
    } else {
      GoodUnchanged(c, w, a, r, b);
    }
  }

  /**
   * Recording makes its artifact fresh and no other artifact less fresh: a state either stays
   * what it was, or a stale artifact that depends on the recorded one becomes fresh.
   */
  lemma RecordingOnlyImproves(c: Context, w: World, a: Id, inputs: seq<EvidenceInput>, b: Id)
    requires ValidContext(c) && DistinctDependencies(c.graph) && Recordable(c, w, a, inputs) && b in c.graph
    ensures var v := Recorded(c, w, a, inputs);
            && StateOf(c, v, a).Fresh?
            && (StateOf(c, v, b) == StateOf(c, w, b)
                || (Reaches(c.graph, b, a) && StateOf(c, w, b).Stale? && StateOf(c, v, b).Fresh?))
  {
    hide StateOf, Good, Recorded, Recordable, DistinctDependencies, HashOf, Reaches, ValidContext, AllReachedGood;
    var v := Recorded(c, w, a, inputs);
    RecordableInGraph(c, w, a, inputs);
    SameGone(c, w, a, inputs, a);
    SameGone(c, w, a, inputs, b);
    RecordedReached(c, w, a, inputs, a);
    RecordedReached(c, w, a, inputs, b);
    FreshIff(c, v, a);
    FreshIff(c, v, b);
    FreshIff(c, w, b);
    StateCases(c, v, b);
    StateCases(c, w, b);
  }

  lemma RecordableInGraph(c: Context, w: World, a: Id, inputs: seq<EvidenceInput>)
    requires ValidContext(c) && Recordable(c, w, a, inputs)
    ensures a in c.graph
  {
  }

  lemma StateCases(c: Context, w: World, b: Id)
    requires ValidContext(c) && b in c.graph
    ensures StateOf(c, w, b) == if HashOf(c, w, b).None? then Missing
                                else if ReachesMissing(c, w, b) then Blocked
                                else if AllReachedGood(c, w, b) then Fresh else Stale
  {
    hide StateOf, HashOf, Reaches, ValidContext, AllReachedGood, ReachesMissing;
    BlockedIff(c, w, b);
    FreshIff(c, w, b);
  }

  lemma SameGone(c: Context, w: World, a: Id, inputs: seq<EvidenceInput>, b: Id)
    requires ValidContext(c) && DistinctDependencies(c.graph) && Recordable(c, w, a, inputs) && b in c.graph
    ensures var v := Recorded(c, w, a, inputs);
            (ReachesMissing(c, v, b) <==> ReachesMissing(c, w, b)) && HashOf(c, v, b) == HashOf(c, w, b)
  {
    hide Recorded, Recordable, DistinctDependencies, HashOf, Reaches, ValidContext, Good;
    var v := Recorded(c, w, a, inputs);
    forall m | m in c.graph ensures HashOf(c, v, m) == HashOf(c, w, m) {
      RecordedGood(c, w, a, inputs, m);
    }
  }

  /** Recording can only complete what an artifact reaches, and completes all that `a` reaches. */
  lemma RecordedReached(c: Context, w: World, a: Id, inputs: seq<EvidenceInput>, b: Id)
    requires ValidContext(c) && DistinctDependencies(c.graph) && Recordable(c, w, a, inputs) && b in c.graph
    ensures var v := Recorded(c, w, a, inputs);
            && (AllReachedGood(c, w, b) ==> AllReachedGood(c, v, b))
            && AllReachedGood(c, v, a)
            && (AllReachedGood(c, v, b) && !AllReachedGood(c, w, b) ==> Reaches(c.graph, b, a))
  {
    hide Recorded, DistinctDependencies, HashOf, Reaches, ValidContext, Good, StateOf, BindEach, Evaluable;
    var v := Recorded(c, w, a, inputs);
    GraphResolved(c);
    forall d | d in c.graph ensures Good(c, v, d) <==> d == a || Good(c, w, d) {
      RecordedGood(c, w, a, inputs, d);
    }
    forall d | Reaches(c.graph, a, d) ensures d in c.graph && Good(c, v, d) {
      ReachedInGraph(c.graph, a, d);
      ReachesThrough(c.graph, a, d);
      if d != a {
        var b :| b in c.graph[a].dependsOn && Reaches(c.graph, b, d);
        FreshIff(c, w, b);
      }
    }
    forall d | Reaches(c.graph, b, d) ensures d in c.graph { ReachedInGraph(c.graph, b, d); }
  }

  // ---------- recording everything

  /** Record the first `n` artifacts of the order, each with its own evidence. */
  ghost function RecordFirst(c: Context, w: World, evidence: map<Id, seq<EvidenceInput>>, n: nat): Option<World>
    requires ValidContext(c) && n <= |c.order|
  {
    if n == 0 then Some(w)
    else
      var before := RecordFirst(c, w, evidence, n - 1);
      var a := c.order[n - 1];
      var inputs := if a in evidence then evidence[a] else [];
      if before.None? || !Recordable(c, before.value, a, inputs) then None
        else Some(Recorded(c, before.value, a, inputs))
  }

  /** Content and evidence sources are untouched by recording. */
  predicate SameFiles(w: World, v: World)
  {
    w.content == v.content && w.sources == v.sources && w.unusable == v.unusable && w.broken == v.broken
  }

  lemma {:induction false} SameBinding(c: Context, w: World, v: World, inputs: seq<EvidenceInput>)
    requires SameFiles(w, v)
    ensures BindEach(c, w, inputs) == BindEach(c, v, inputs)
    decreases |inputs|
  {
    hide Normalize;
    if |inputs| > 0 {
      SameBinding(c, w, v, inputs[..|inputs| - 1]);
    }
  }

  lemma SameLooks(c: Context, w: World, v: World, a: Id)
    requires SameFiles(w, v) && a in c.graph
    ensures HashOf(c, w, a) == HashOf(c, v, a) && Readable(c, w, a) == Readable(c, v, a)
  {
    hide PathOf;
  }

  lemma RecordedFiles(c: Context, w: World, a: Id, inputs: seq<EvidenceInput>)
    requires ValidContext(c) && Recordable(c, w, a, inputs)
    ensures SameFiles(w, Recorded(c, w, a, inputs))
  {
    hide StateOf, BindEach, SortEvidence, HashOf, PathOf, ValidContext;
  }

  /** What was recorded can be evaluated again. */
  lemma RecordedEvaluable(c: Context, w: World, a: Id, inputs: seq<EvidenceInput>, b: Id)
    requires ValidContext(c) && Recordable(c, w, a, inputs) && b in c.graph
    ensures Evaluable(c, Recorded(c, w, a, inputs), b)
  {
    hide StateOf, HashOf, PathOf, ValidContext, Mentions;
    var v := Recorded(c, w, a, inputs);
    RecordedFiles(c, w, a, inputs);
    SameLooks(c, w, v, b);
    FreshHasHash(c, w, a);
    OwnRecord(c, w, a, CurrentRecord(c, w, a, SortEvidence(BindEach(c, w, inputs).value)), b);
  }

  /**
   * If every artifact has usable content and its evidence can be bound, recording in topological
   * order never fails, and afterwards everything is fresh.
   */
  lemma {:induction false} RecordingAllFreshensAll(c: Context, w: World, evidence: map<Id, seq<EvidenceInput>>, n: nat)
    requires ValidContext(c) && DistinctDependencies(c.graph) && n <= |c.order|
    requires forall a <- c.graph :: Evaluable(c, w, a) && HashOf(c, w, a).Some?
    requires forall a <- evidence :: BindEach(c, w, evidence[a]).Some?
    ensures var v := RecordFirst(c, w, evidence, n);
            && v.Some? && SameFiles(w, v.value) && (forall a <- c.graph :: Evaluable(c, v.value, a))
            && forall i :: 0 <= i < n ==> c.order[i] in c.graph && StateOf(c, v.value, c.order[i]).Fresh?
    decreases n
  {
    hide StateOf, DistinctDependencies, HashOf, Evaluable, Recorded, IsTopological, BindEach, PathOf;
    if n > 0 {
      RecordingAllFreshensAll(c, w, evidence, n - 1);
      var u := RecordFirst(c, w, evidence, n - 1).value;
      var a := c.order[n - 1];
      var inputs := if a in evidence then evidence[a] else [];
      OrderedInGraph(c, n - 1);
      forall b | b in c.graph ensures HashOf(c, u, b).Some? { SameLooks(c, w, u, b); }
      NothingToBind(c, u);
      SameBinding(c, w, u, inputs);
      forall b | b in c.graph[a].dependsOn ensures b in c.graph && StateOf(c, u, b).Fresh? {
        var i :| 0 <= i < n - 1 && c.order[i] == b;
      }
      assert Recordable(c, u, a, inputs);
      RecordedFiles(c, u, a, inputs);
      forall b | b in c.graph ensures Evaluable(c, Recorded(c, u, a, inputs), b) {
        RecordedEvaluable(c, u, a, inputs, b);
      }
      forall i | 0 <= i < n ensures c.order[i] in c.graph && StateOf(c, Recorded(c, u, a, inputs), c.order[i]).Fresh? {
        OrderedInGraph(c, i);
        RecordingOnlyImproves(c, u, a, inputs, c.order[i]);
      }
    }
  }

  lemma NothingToBind(c: Context, w: World)
    ensures BindEach(c, w, []) == Some([])
  {
  }
}
