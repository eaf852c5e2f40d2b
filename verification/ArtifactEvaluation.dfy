/** The evaluation pass and its meaning: states as reachability, and exact invalidation (artifact_state.py). */
module ArtifactEvaluation {
  import opened Prelude
  import opened ArtifactGraphs
  import opened ArtifactFreshness

  // ---------- the pass

  datatype Reason =
    | ContentMissing
    | DependencyGone(ids: seq<Id>)
    | NoRecord
    | PathChanged
    | DefinitionChanged
    | ContentChanged
    | DependencySetChanged
    | DependencyChanged(id: Id)
    | DependencyStale(ids: seq<Id>)
    | EvidenceStale(items: seq<Evidence>)

  datatype ArtifactState = ArtifactState(id: Id, required: bool, freshness: Freshness, reasons: seq<Reason>)

  /** The dependencies whose state satisfies `wanted`, in the order they are declared. */
  function Those(ids: seq<Id>, states: map<Id, Freshness>, gone: bool): (r: seq<Id>)
    requires forall b <- ids :: b in states
    ensures r == [] <==> forall b <- ids :: !(if gone then Gone(states[b]) else states[b].Stale?)
  {
    if |ids| == 0 then []
    else
      var hit := if gone then Gone(states[ids[0]]) else states[ids[0]].Stale?;
      (if hit then [ids[0]] else []) + Those(ids[1..], states, gone)
  }

  function StaleEvidence(items: seq<Evidence>, w: World): (r: seq<Evidence>)
    ensures r == [] <==> forall e <- items :: EvidenceFresh(w, e)
  {
    if |items| == 0 then []
    else (if EvidenceFresh(w, items[0]) then [] else [items[0]]) + StaleEvidence(items[1..], w)
  }

  /** The dependency still has the content hash the record holds for it, or has no content at all. */
  predicate DependencyUnchanged(c: Context, w: World, b: Id, r: Record)
    requires b in c.graph
  {
    HashOf(c, w, b).Some? ==> b in r.dependencySha && HashOf(c, w, b) == Some(r.dependencySha[b])
  }

  function DependencyReasons(c: Context, w: World, ids: seq<Id>, r: Record): (reasons: seq<Reason>)
    requires forall b <- ids :: b in c.graph
    ensures reasons == [] <==> forall b <- ids :: DependencyUnchanged(c, w, b, r)
  {
    if |ids| == 0 then []
    else
      (if DependencyUnchanged(c, w, ids[0], r) then [] else [DependencyChanged(ids[0])])
      + DependencyReasons(c, w, ids[1..], r)
  }

  /** The checks of a recorded artifact with content and no missing dependency, in their order. */
  function RecordReasons(c: Context, w: World, a: Id, r: Record, stale: seq<Id>): (reasons: seq<Reason>)
    requires a in c.graph && forall b <- c.graph[a].dependsOn :: b in c.graph
    ensures reasons == [] <==> Matches(c, w, a, r) && stale == []
  {
    var d := c.graph[a];
    (if Some(r.path) != PathOf(c, d) then [PathChanged] else [])
    + (if r.definitionSha != c.definitionSha(d) then [DefinitionChanged] else [])
    + (if Some(r.artifactSha) != HashOf(c, w, a) then [ContentChanged] else [])
    + (if !NoDuplicates(d.dependsOn) || (set b <- d.dependsOn) != r.dependencySha.Keys then [DependencySetChanged]
      else [])
    + DependencyReasons(c, w, d.dependsOn, r)
    + (if stale != [] then [DependencyStale(stale)] else [])
    + (if StaleEvidence(r.evidence, w) != [] then [EvidenceStale(StaleEvidence(r.evidence, w))] else [])
  }

  // ---------- what the reasons say

  /** Exactly the bound evidence that is gone or has another hash. */
  ghost predicate OutdatedEvidence(items: seq<Evidence>, w: World, outdated: seq<Evidence>)
  {
    && |outdated| <= |items|
    && forall e :: e in outdated <==>
         e in items && (e.source !in w.sources || w.sources[e.source] != e.sourceSha)
  }

  /** These are exactly the dependencies in one of these states. */
  ghost predicate DependenciesIn(c: Context, w: World, a: Id, states: set<Freshness>, ids: seq<Id>)
    requires ValidContext(c) && a in c.graph
  {
    forall b :: b in ids <==> b in c.graph[a].dependsOn && b in c.graph && StateOf(c, w, b) in states
  }

  /** What each reason says of the record and the world, field by field. */
  ghost predicate Caused(c: Context, w: World, a: Id, r: Record, stale: seq<Id>, outdated: seq<Evidence>, x: Reason)
    requires a in c.graph
  {
    var d := c.graph[a];
    match x
    case PathChanged => PathOf(c, d) != Some(r.path)
    case DefinitionChanged => c.definitionSha(d) != r.definitionSha
    case ContentChanged => HashOf(c, w, a) != Some(r.artifactSha)
    case DependencySetChanged =>
      !NoDuplicates(d.dependsOn) || exists b :: (b in d.dependsOn) != (b in r.dependencySha)
    case DependencyChanged(b) =>
      && b in d.dependsOn && b in c.graph && HashOf(c, w, b).Some?
      && (b !in r.dependencySha || HashOf(c, w, b) != Some(r.dependencySha[b]))
    case DependencyStale(ids) => ids == stale && stale != []
    case EvidenceStale(items) => items == outdated && outdated != []
    case _ => false
  }

  /** Each reason is given exactly for its cause; stale dependencies and outdated evidence are listed in full. */
  ghost predicate RecordExplained(c: Context, w: World, a: Id, r: Record, reasons: seq<Reason>)
    requires ValidContext(c) && a in c.graph
  {
    exists stale, outdated ::
      && DependenciesIn(c, w, a, {Stale}, stale) && OutdatedEvidence(r.evidence, w, outdated)
      && forall x :: x in reasons <==> Caused(c, w, a, r, stale, outdated, x)
  }

  /** Missing content, dependencies or record are reasons alone; a record is compared field by field. */
  ghost predicate Explained(c: Context, w: World, a: Id, reasons: seq<Reason>)
    requires ValidContext(c) && a in c.graph
  {
    if HashOf(c, w, a).None? then reasons == [ContentMissing]
    else if exists b :: b in c.graph[a].dependsOn && b in c.graph && StateOf(c, w, b) in {Missing, Blocked} then
      exists ids :: reasons == [DependencyGone(ids)] && DependenciesIn(c, w, a, {Missing, Blocked}, ids)
    else if RecordOf(c, w, a).None? then reasons == [NoRecord]
    else RecordExplained(c, w, a, RecordOf(c, w, a).value, reasons)
  }

  /** The reported state is the artifact's, with its reasons, of which it has some unless it is fresh. */
  ghost predicate Reports(c: Context, w: World, a: Id, s: ArtifactState)
    requires ValidContext(c)
  {
    && a in c.graph && s.id == a && s.freshness == StateOf(c, w, a) && (s.reasons == [] <==> s.freshness.Fresh?)
    && Explained(c, w, a, s.reasons)
    && s.required == (c.graph[a].required || c.graph[a].organizationRequired)
  }

  lemma {:induction false} ThoseMean(ids: seq<Id>, states: map<Id, Freshness>, gone: bool, b: Id)
    requires forall b <- ids :: b in states
    ensures b in Those(ids, states, gone) <==>
              b in ids && states[b] in (if gone then {Missing, Blocked} else {Stale})
  {
    if |ids| > 0 {
      ThoseMean(ids[1..], states, gone, b);
      assert ids == [ids[0]] + ids[1..];
    }
  }

  lemma {:induction false} StaleEvidenceMeans(items: seq<Evidence>, w: World)
    ensures OutdatedEvidence(items, w, StaleEvidence(items, w))
  {
    if |items| > 0 {
      StaleEvidenceMeans(items[1..], w);
      assert items == [items[0]] + items[1..];
    }
  }

  lemma {:induction false} DependencyReasonsMean(c: Context, w: World, ids: seq<Id>, r: Record, x: Reason)
    requires forall b <- ids :: b in c.graph
    ensures x in DependencyReasons(c, w, ids, r) <==>
              && x.DependencyChanged? && x.id in ids && HashOf(c, w, x.id).Some?
              && (x.id !in r.dependencySha || HashOf(c, w, x.id) != Some(r.dependencySha[x.id]))
  {
    hide HashOf;
    if |ids| > 0 {
      DependencyReasonsMean(c, w, ids[1..], r, x);
      assert ids == [ids[0]] + ids[1..];
      var first := if DependencyUnchanged(c, w, ids[0], r) then [] else [DependencyChanged(ids[0])];
      InConcat(first, DependencyReasons(c, w, ids[1..], r), x);
      assert x in first <==> x == DependencyChanged(ids[0]) && !DependencyUnchanged(c, w, ids[0], r);
    }
  }

  lemma InConcat<T>(xs: seq<T>, ys: seq<T>, x: T)
    ensures x in xs + ys <==> x in xs || x in ys
  {
  }

  /** The parts that the reasons of a record are put together from. */
  lemma RecordReasonsHold(c: Context, w: World, a: Id, r: Record, stale: seq<Id>, x: Reason)
    requires a in c.graph && forall b <- c.graph[a].dependsOn :: b in c.graph
    ensures var d, outdated := c.graph[a], StaleEvidence(r.evidence, w);
            x in RecordReasons(c, w, a, r, stale) <==>
              || (x == PathChanged && Some(r.path) != PathOf(c, d))
              || (x == DefinitionChanged && r.definitionSha != c.definitionSha(d))
              || (x == ContentChanged && Some(r.artifactSha) != HashOf(c, w, a))
              || (x == DependencySetChanged
                  && (!NoDuplicates(d.dependsOn) || (set b <- d.dependsOn) != r.dependencySha.Keys))
              || x in DependencyReasons(c, w, d.dependsOn, r)
              || (x == DependencyStale(stale) && stale != [])
              || (x == EvidenceStale(outdated) && outdated != [])
  {
    hide HashOf, PathOf, NoDuplicates, DependencyReasons, StaleEvidence, Matches;
  }

  /** Which reasons a record gives. */
  lemma RecordReasonsMean(c: Context, w: World, a: Id, r: Record, stale: seq<Id>)
    requires ValidContext(c) && a in c.graph && forall b <- c.graph[a].dependsOn :: b in c.graph
    requires DependenciesIn(c, w, a, {Stale}, stale)
    ensures RecordExplained(c, w, a, r, RecordReasons(c, w, a, r, stale))
  {
    hide HashOf, PathOf, StateOf, ValidContext, NoDuplicates, DependencyReasons, StaleEvidence, OutdatedEvidence;
    hide RecordReasons, DependenciesIn, Matches;
    var d, outdated := c.graph[a], StaleEvidence(r.evidence, w);
    StaleEvidenceMeans(r.evidence, w);
    SetsDiffer(d.dependsOn, r.dependencySha);
    forall x ensures x in RecordReasons(c, w, a, r, stale) <==> Caused(c, w, a, r, stale, outdated, x) {
      RecordReasonsHold(c, w, a, r, stale, x);
      DependencyReasonsMean(c, w, d.dependsOn, r, x);
    }
  }

  lemma SetsDiffer(ids: seq<Id>, hashes: map<Id, Hash>)
    ensures (set b <- ids) != hashes.Keys <==> exists b :: (b in ids) != (b in hashes)
  {
    if (set b <- ids) != hashes.Keys {
      var b :| (b in (set b <- ids)) != (b in hashes.Keys);
    }
  }

  /** The body of the evaluation loop for one artifact. */
  method EvaluateOne(c: Context, w: World, a: Id, states: map<Id, Freshness>) returns (s: ArtifactState)
    requires ValidContext(c) && a in c.graph
    requires forall b <- c.graph[a].dependsOn :: b in states && b in c.graph && states[b] == StateOf(c, w, b)
    ensures Reports(c, w, a, s)
  {
    hide Matches, HashOf, RecordOf, ValidContext, StateOf, Explained, RecordReasons, Those;
    var d := c.graph[a];
    var required := d.required || d.organizationRequired;
    var gone, stale := Those(d.dependsOn, states, true), Those(d.dependsOn, states, false);
    Decided(c, w, a, states, gone, stale);
    if HashOf(c, w, a).None? {
      return ArtifactState(a, required, Missing, [ContentMissing]);
    }
    var record := RecordOf(c, w, a);
    if gone != [] {
      return ArtifactState(a, required, Blocked, [DependencyGone(gone)]);
    }
    if record.None? {
      return ArtifactState(a, required, Stale, [NoRecord]);
    }
    var reasons := RecordReasons(c, w, a, record.value, stale);
    return ArtifactState(a, required, if reasons != [] then Stale else Fresh, reasons);
  }

  /** The state and the reasons in each branch. */
  lemma Decided(c: Context, w: World, a: Id, states: map<Id, Freshness>, gone: seq<Id>, stale: seq<Id>)
    requires ValidContext(c) && a in c.graph
    requires forall b <- c.graph[a].dependsOn :: b in states && b in c.graph && states[b] == StateOf(c, w, b)
    requires gone == Those(c.graph[a].dependsOn, states, true) && stale == Those(c.graph[a].dependsOn, states, false)
    ensures var state, record := StateOf(c, w, a), RecordOf(c, w, a);
            if HashOf(c, w, a).None? then state == Missing && Explained(c, w, a, [ContentMissing])
            else if gone != [] then state == Blocked && Explained(c, w, a, [DependencyGone(gone)])
            else if record.None? then state == Stale && Explained(c, w, a, [NoRecord])
            else
              var reasons := RecordReasons(c, w, a, record.value, stale);
              state == (if reasons != [] then Stale else Fresh) && Explained(c, w, a, reasons)
  {
    hide Matches, HashOf, RecordOf, ValidContext, StateOf, RecordExplained, RecordReasons, DependenciesIn, Those, Gone;
    TheseAre(c, w, a, states, true);
    TheseAre(c, w, a, states, false);
    if RecordOf(c, w, a).Some? {
      RecordReasonsMean(c, w, a, RecordOf(c, w, a).value, stale);
    }
    DecidedState(c, w, a, gone, stale);
    hide Good;
  }

  lemma DecidedState(c: Context, w: World, a: Id, gone: seq<Id>, stale: seq<Id>)
    requires ValidContext(c) && a in c.graph
    requires gone != [] <==>
               exists b :: b in c.graph[a].dependsOn && b in c.graph && StateOf(c, w, b) in {Missing, Blocked}
    requires stale != [] <==> exists b :: b in c.graph[a].dependsOn && b in c.graph && StateOf(c, w, b) in {Stale}
    ensures StateOf(c, w, a) ==
              if HashOf(c, w, a).None? then Missing
              else if gone != [] then Blocked
              else if RecordOf(c, w, a).Some? && Matches(c, w, a, RecordOf(c, w, a).value) && stale == [] then Fresh
              else Stale
  {
    hide Matches, HashOf, RecordOf, ValidContext, StateOf;
    StateStep(c, w, a);
  }

  lemma TheseAre(c: Context, w: World, a: Id, states: map<Id, Freshness>, gone: bool)
    requires ValidContext(c) && a in c.graph
    requires forall b <- c.graph[a].dependsOn :: b in states && b in c.graph && states[b] == StateOf(c, w, b)
    ensures var ids := Those(c.graph[a].dependsOn, states, gone);
            && DependenciesIn(c, w, a, if gone then {Missing, Blocked} else {Stale}, ids)
            && (ids != [] <==> exists b :: b in c.graph[a].dependsOn && b in c.graph
                                           && StateOf(c, w, b) in (if gone then {Missing, Blocked} else {Stale}))
  {
    hide StateOf, ValidContext, Those;
    var ids := Those(c.graph[a].dependsOn, states, gone);
    forall b
      ensures b in ids <==> b in c.graph[a].dependsOn && states[b] in (if gone then {Missing, Blocked} else {Stale})
    {
      ThoseMean(c.graph[a].dependsOn, states, gone, b);
    }
    if ids != [] { assert ids[0] in ids; }
  }

  lemma OrderedInGraph(c: Context, i: nat)
    requires ValidContext(c) && i < |c.order|
    ensures c.order[i] in c.graph && forall b <- c.graph[c.order[i]].dependsOn :: b in c.order[..i] && b in c.graph
  {
    GraphResolved(c);
    assert c.order[i] in c.order;
  }

  /** The first loop: render every path, look at every content and load every record. */
  method CheckContents(c: Context, w: World) returns (ok: bool)
    requires ValidContext(c)
    ensures ok <==> forall a <- c.graph :: Readable(c, w, a)
  {
    hide Readable, IsTopological;
    for i := 0 to |c.order|
      invariant forall j :: 0 <= j < i ==> c.order[j] in c.graph && Readable(c, w, c.order[j])
    {
      OrderedInGraph(c, i);
      if !Readable(c, w, c.order[i]) {
        return false;
      }
    }
    forall a | a in c.graph ensures Readable(c, w, a) {
      InOrder(c.graph, c.order, a);
      assert c.order[Pos(c.order, a)] == a;
    }
    return true;
  }

  /**
   * evaluate_artifact_states: one pass over the order. It raises exactly when some artifact's
   * path, content, record or evidence cannot be used; every lookup of a dependency's state succeeds.
   */
  method EvaluateStates(c: Context, w: World) returns (r: Option<seq<ArtifactState>>)
    requires ValidContext(c)
    ensures r.Some? <==> forall a <- c.graph :: Evaluable(c, w, a)
    ensures r.Some? ==>
              |r.value| == |c.order| && forall i :: 0 <= i < |c.order| ==> Reports(c, w, c.order[i], r.value[i])
  {
    hide StateOf, Readable, EvidenceUsable, IsTopological;
    var ok := CheckContents(c, w);
    if !ok {
      return None;
    }
    var states: map<Id, Freshness> := map[];
    var result: seq<ArtifactState> := [];
    for i := 0 to |c.order|
      invariant forall j :: 0 <= j < i
                  ==> c.order[j] in states && c.order[j] in c.graph && EvidenceUsable(c, w, c.order[j])
      invariant forall b <- states :: b in c.graph && states[b] == StateOf(c, w, b)
      invariant |result| == i
      invariant forall j :: 0 <= j < i ==> Reports(c, w, c.order[j], result[j])
    {
      var a := c.order[i];
      OrderedInGraph(c, i);
      if !EvidenceUsable(c, w, a) {
        return None;
      }
      forall b | b in c.graph[a].dependsOn ensures b in states {
        var j :| 0 <= j < i && c.order[j] == b;
      }
      var s := EvaluateOne(c, w, a, states);
      states := states[a := s.freshness];
      result := result + [s];
    }
    forall a | a in c.graph ensures EvidenceUsable(c, w, a) {
      InOrder(c.graph, c.order, a);
      assert c.order[Pos(c.order, a)] == a;
    }
    return Some(result);
  }

  lemma GraphResolved(c: Context)
    requires ValidContext(c)
    ensures Resolved(c.graph)
  {
    TopologicalIsAcyclic(c.graph, c.order);
  }

  // ---------- states as reachability

  /** The artifact has content and a record that describes it. */
  predicate Good(c: Context, w: World, a: Id)
    requires a in c.graph
  {
    HashOf(c, w, a).Some? && RecordOf(c, w, a).Some? && Matches(c, w, a, RecordOf(c, w, a).value)
  }

  ghost predicate AllReachedGood(c: Context, w: World, a: Id)
    requires ValidContext(c)
  {
    forall d :: Reaches(c.graph, a, d) ==> d in c.graph && Good(c, w, d)
  }

  ghost predicate ReachesMissing(c: Context, w: World, a: Id)
  {
    exists m :: Reaches(c.graph, a, m) && m in c.graph && HashOf(c, w, m).None?
  }

  /** What StateOf says, one level deep. */
  lemma StateStep(c: Context, w: World, a: Id)
    requires ValidContext(c) && a in c.graph
    ensures a in c.order
    ensures forall b <- c.graph[a].dependsOn :: b in c.graph && b in c.order && Pos(c.order, b) < Pos(c.order, a)
    ensures StateOf(c, w, a) ==
              if HashOf(c, w, a).None? then Missing
              else if exists b <- c.graph[a].dependsOn :: Gone(StateOf(c, w, b)) then Blocked
              else if Good(c, w, a) && forall b <- c.graph[a].dependsOn :: !StateOf(c, w, b).Stale? then Fresh
              else Stale
  {
    hide Matches, HashOf, RecordOf, IsTopological;
    InOrder(c.graph, c.order, a);
    forall b | b in c.graph[a].dependsOn ensures b in c.graph && b in c.order && a in c.order
      && Pos(c.order, b) < Pos(c.order, a) {
      DependencyEarlier(c.graph, c.order, a, b);
    }
  }

  /** An artifact is missing or blocked exactly when some missing artifact can be reached from it. */
  lemma {:induction false} GoneIff(c: Context, w: World, a: Id)
    requires ValidContext(c) && a in c.graph
    ensures Gone(StateOf(c, w, a)) <==> ReachesMissing(c, w, a)
    decreases (InOrder(c.graph, c.order, a); Pos(c.order, a))
  {
    hide StateOf, Matches, HashOf, RecordOf, Reaches, ValidContext;
    GraphResolved(c);
    StateStep(c, w, a);
    forall b | b in c.graph[a].dependsOn ensures Gone(StateOf(c, w, b)) <==> ReachesMissing(c, w, b) {
      GoneIff(c, w, b);
    }
    if HashOf(c, w, a).None? {
      ReachesSelf(c.graph, a);
    } else if Gone(StateOf(c, w, a)) {
      var b :| b in c.graph[a].dependsOn && Gone(StateOf(c, w, b));
      var m :| Reaches(c.graph, b, m) && m in c.graph && HashOf(c, w, m).None?;
      ReachesFirst(c.graph, a, b, m);
    } else if ReachesMissing(c, w, a) {
      var m :| Reaches(c.graph, a, m) && m in c.graph && HashOf(c, w, m).None?;
      ReachesThrough(c.graph, a, m);
    }
  }

  /** An artifact is blocked exactly when it has content and some missing artifact can be reached from it. */
  lemma BlockedIff(c: Context, w: World, a: Id)
    requires ValidContext(c) && a in c.graph
    ensures StateOf(c, w, a).Blocked? <==> HashOf(c, w, a).Some? && ReachesMissing(c, w, a)
    ensures StateOf(c, w, a).Missing? <==> HashOf(c, w, a).None?
  {
    hide StateOf, Matches, HashOf, RecordOf, Reaches, ValidContext;
    GoneIff(c, w, a);
    StateStep(c, w, a);
  }

  lemma ReachedGoodStep(c: Context, w: World, a: Id)
    requires ValidContext(c) && a in c.graph
    ensures AllReachedGood(c, w, a) <==>
              Good(c, w, a) && forall b <- c.graph[a].dependsOn :: AllReachedGood(c, w, b)
  {
    hide Good, Reaches, ValidContext;
    GraphResolved(c);
    ReachesSelf(c.graph, a);
    if AllReachedGood(c, w, a) {
      forall b, d | b in c.graph[a].dependsOn && Reaches(c.graph, b, d) ensures d in c.graph && Good(c, w, d) {
        ReachesFirst(c.graph, a, b, d);
      }
    }
    if Good(c, w, a) && forall b <- c.graph[a].dependsOn :: AllReachedGood(c, w, b) {
      forall d | Reaches(c.graph, a, d) ensures d in c.graph && Good(c, w, d) {
        ReachesThrough(c.graph, a, d);
      }
    }
  }

  /**
   * The single pass means reachability: an artifact is fresh exactly when it and every transitive
   * dependency have content and a record that describes them.
   */
  lemma {:induction false} FreshIff(c: Context, w: World, a: Id)
    requires ValidContext(c) && a in c.graph
    ensures StateOf(c, w, a).Fresh? <==> AllReachedGood(c, w, a)
    decreases (InOrder(c.graph, c.order, a); Pos(c.order, a))
  {
    hide StateOf, Matches, HashOf, RecordOf, Reaches, ValidContext, AllReachedGood;
    StateStep(c, w, a);
    ReachedGoodStep(c, w, a);
    forall b | b in c.graph[a].dependsOn ensures StateOf(c, w, b).Fresh? <==> AllReachedGood(c, w, b) {
      FreshIff(c, w, b);
    }
  }

  // ---------- exact invalidation

  /** Contents and evidence sources may differ between the two worlds; nothing was recorded in between. */
  predicate ContentChange(w: World, v: World)
  {
    w.records == v.records
  }

  /** Some evidence bound to the artifact is not what was bound. */
  predicate EvidenceOutdated(c: Context, v: World, a: Id)
    requires a in c.graph
  {
    RecordOf(c, v, a).Some? && exists e <- RecordOf(c, v, a).value.evidence :: !EvidenceFresh(v, e)
  }

  /** `a` reaches an artifact whose content hash is not what it was, or whose bound evidence is not. */
  ghost predicate ReachesChanged(c: Context, w: World, v: World, a: Id)
  {
    exists m :: Reaches(c.graph, a, m) && m in c.graph
                && (HashOf(c, v, m) != HashOf(c, w, m) || EvidenceOutdated(c, v, m))
  }

  /** A record that described the artifact still does exactly while the hashes it holds are current. */
  lemma GoodAfterChange(c: Context, w: World, v: World, a: Id)
    requires a in c.graph && Resolved(c.graph) && ContentChange(w, v) && Good(c, w, a)
    requires forall b <- c.graph[a].dependsOn :: b in c.graph && HashOf(c, w, b).Some? && HashOf(c, v, b).Some?
    ensures Good(c, v, a) <==>
              && HashOf(c, v, a) == HashOf(c, w, a) && !EvidenceOutdated(c, v, a)
              && forall b <- c.graph[a].dependsOn :: b in c.graph && HashOf(c, v, b) == HashOf(c, w, b)
  {
    hide HashOf, EvidenceFresh;
    assert RecordOf(c, v, a) == RecordOf(c, w, a);
  }

  lemma HashesReached(c: Context, w: World, a: Id, d: Id)
    requires ValidContext(c) && AllReachedGood(c, w, a) && Reaches(c.graph, a, d)
    ensures d in c.graph && Good(c, w, d) &&
              forall b <- c.graph[d].dependsOn :: b in c.graph && Good(c, w, b) && Reaches(c.graph, a, b)
  {
    hide Good, Reaches, ValidContext;
    GraphResolved(c);
    forall b | b in c.graph[d].dependsOn ensures b in c.graph && Good(c, w, b) && Reaches(c.graph, a, b) {
      ReachesOn(c.graph, a, d, b);
    }
  }

  lemma {:induction false} FreshAfterChange(c: Context, w: World, v: World, a: Id)
    requires ValidContext(c) && a in c.graph && ContentChange(w, v) && AllReachedGood(c, w, a)
    requires !ReachesMissing(c, v, a)
    ensures AllReachedGood(c, v, a) <==> !ReachesChanged(c, w, v, a)
  {
    hide Good, HashOf, Reaches, ValidContext, EvidenceOutdated;
    GraphResolved(c);
    forall d | Reaches(c.graph, a, d)
      ensures d in c.graph && (Good(c, v, d) <==>
                && HashOf(c, v, d) == HashOf(c, w, d) && !EvidenceOutdated(c, v, d)
                && forall b <- c.graph[d].dependsOn :: b in c.graph && HashOf(c, v, b) == HashOf(c, w, b))
    {
      HashesReached(c, w, a, d);
      forall b | b in c.graph[d].dependsOn ensures HashOf(c, w, b).Some? { GoodHasHash(c, w, b); }
      GoodAfterChange(c, w, v, d);
    }
    if !ReachesChanged(c, w, v, a) {
      forall d | Reaches(c.graph, a, d) ensures Good(c, v, d) {
        HashesReached(c, w, a, d);
      }
    }
  }

  lemma GoodHasHash(c: Context, w: World, a: Id)
    requires a in c.graph && Good(c, w, a)
    ensures HashOf(c, w, a).Some?
  {
  }

  /**
   * Exact invalidation. Let everything be fresh, and let any files be edited or deleted, artifacts
   * and evidence alike. Then the artifacts without content are missing; those with content that
   * reach one are blocked; of the rest, those that are or depend on an artifact that was edited or
   * whose bound evidence was are stale; and everything else is still fresh. Restoring the files
   * restores all states.
   */
  lemma ExactInvalidation(c: Context, w: World, v: World, a: Id)
    requires ValidContext(c) && a in c.graph && ContentChange(w, v)
    requires forall b <- c.graph :: StateOf(c, w, b).Fresh?
    ensures StateOf(c, v, a) ==
              if HashOf(c, v, a).None? then Missing
              else if ReachesMissing(c, v, a) then Blocked
              else if ReachesChanged(c, w, v, a) then Stale
              else Fresh
  {
    hide StateOf, HashOf, Reaches, Good, ValidContext, AllReachedGood, ReachesMissing, ReachesChanged;
    FreshIff(c, w, a);
    FreshIff(c, v, a);
    BlockedIff(c, v, a);
    if !ReachesMissing(c, v, a) {
      FreshAfterChange(c, w, v, a);
    }
  }
}
