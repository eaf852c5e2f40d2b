/**
 * Approved and observed architecture facts, their provenance, and the comparison of the two
 * (architecture_drift.py).
 */
module ArchitectureDrift {
  import opened Prelude
  import opened Json
  import opened JsonProofs
  import opened ArtifactGraphs
  import opened FactAttributes

  datatype Kind = Dependency | Communication | DataOwnership | DataAccess | TrustBoundary | Deployment | Contract

  datatype Mode = Required | Allowed | Forbidden

  /** Where something is declared. An absent digest or detail is the empty text: a present one is never empty. */
  datatype Place = Place(source: string, line: nat, declaration: string, detail: string)
  {
    function Location(): (string, nat) { (source, line) }
  }

  datatype Fact = Fact(id: string, kind: Kind, mode: Mode, source: string, target: string, attributes: Attributes)

  datatype Observed = Observed(kind: Kind, source: string, target: string, attributes: Attributes,
    provenance: seq<Place>)

  datatype Observation = Observation(observer: string, facts: seq<Observed>)

  datatype Code =
    | RequiredFactMissing | ForbiddenFactPresent | UnexpectedFactPresent
    | ZoneMissing | BoundaryForbidden | BoundaryUnapproved | GatewayBypass | ControlMissing
    | SensitiveDataCrossing | DirectionChange | ExposureChange | RequiredBoundaryMissing

  /** A drift finding; `named` holds the subject, gateway or controls that its attributes name. */
  datatype Finding = Finding(code: Code, kind: Kind, source: string, target: string, factId: Option<string>,
    named: seq<string>, provenance: seq<Place>)

  /** The error families SDAI-ARCH-SECURITY-001 to -004 and SDAI-ARCH-DRIFT, and a TypeError that nothing catches. */
  datatype Failure = BadInput | BadTopology | Ambiguous | BadEvidence | BadArchitecture | Uncaught

  const MAX_FACTS: nat := 100_000

  /** SHA-256 of the canonical JSON of these four parts, as a parameter. */
  type Keys = (Kind, string, string, Attributes) -> string

  function FactKey(f: Fact, key: Keys): string { key(f.kind, f.source, f.target, f.attributes) }

  function ObservedKey(o: Observed, key: Keys): string { key(o.kind, o.source, o.target, o.attributes) }

  // ---------- the canonical body of an observation

  const OBSERVATION_API_VERSION := "sdai.architecture-observation/v1"

  function KindName(kind: Kind): string
  {
    match kind
    case Dependency => "dependency"
    case Communication => "communication"
    case DataOwnership => "data-ownership"
    case DataAccess => "data-access"
    case TrustBoundary => "trust-boundary"
    case Deployment => "deployment"
    case Contract => "contract"
  }

  /** TraceProvenance.as_dict */
  function PlaceJson(p: Place): Json
  {
    Obj((if p.declaration == "" then [] else [Member("declaration_sha256", Str(p.declaration))])
        + (if p.detail == "" then [] else [Member("detail", Str(p.detail))])
        + [Member("line", Int(p.line)), Member("source", Str(p.source))])
  }

  function PlacesJson(places: seq<Place>): (items: seq<Json>)
    ensures |items| == |places| && forall k :: 0 <= k < |places| ==> items[k] == PlaceJson(places[k])
  {
    seq(|places|, k requires 0 <= k < |places| => PlaceJson(places[k]))
  }

  /** ObservedArchitectureFact.to_dict */
  function ObservedJson(o: Observed, key: Keys): Json
  {
    Obj([Member("attributes", Obj(Members(o.attributes))),
         Member("kind", Str(KindName(o.kind))),
         Member("provenance", Arr(PlacesJson(o.provenance))),
         Member("semanticSha256", Str(ObservedKey(o, key))),
         Member("source", Str(o.source)),
         Member("target", Str(o.target))])
  }

  function FactsJson(facts: seq<Observed>, key: Keys): (items: seq<Json>)
    ensures |items| == |facts| && forall k :: 0 <= k < |facts| ==> items[k] == ObservedJson(facts[k], key)
  {
    seq(|facts|, k requires 0 <= k < |facts| => ObservedJson(facts[k], key))
  }

  /** ArchitectureObservation.body_dict */
  function ObservationJson(n: Observation, key: Keys): Json
  {
    Obj([Member("apiVersion", Str(OBSERVATION_API_VERSION)),
         Member("facts", Arr(FactsJson(n.facts, key))),
         Member("kind", Str("ArchitectureObservation")),
         Member("observerId", Str(n.observer))])
  }

  /** ArchitectureObservation.sha256 can be taken: the whole body is within the limits on JSON. */
  predicate Hashable(n: Observation, key: Keys)
  {
    ValidJson(ObservationJson(n, key)) && Encodable(ObservationJson(n, key))
  }

  predicate AllHashable(observations: seq<Observation>, key: Keys)
  {
    forall n :: n in observations ==> Hashable(n, key)
  }

  /** _all_facts */
  function AllFacts(observations: seq<Observation>): seq<Observed>
  {
    if |observations| == 0 then []
    else AllFacts(observations[..|observations| - 1]) + observations[|observations| - 1].facts
  }

  lemma {:induction false} InAllFacts(observations: seq<Observation>, o: Observed)
    ensures o in AllFacts(observations) <==> exists n <- observations :: o in n.facts
  {
    if |observations| > 0 {
      var last := |observations| - 1;
      InAllFacts(observations[..last], o);
      assert observations == observations[..last] + [observations[last]];
      assert forall n :: n in observations <==> n in observations[..last] || n == observations[last];
    }
  }

  lemma AllFactsAppend(before: seq<Observation>, n: Observation)
    ensures AllFacts(before + [n]) == AllFacts(before) + n.facts
  {
    assert (before + [n])[..|before|] == before;
  }

  /** The observers are pairwise different. */
  predicate DistinctObservers(observations: seq<Observation>)
  {
    forall i, j :: 0 <= i < j < |observations| ==> observations[i].observer != observations[j].observer
  }

  /** The topology keeps its facts in the order of their unique ids. */
  predicate SortedById(facts: seq<Fact>)
  {
    forall i, j :: 0 <= i < j < |facts| ==> Less(facts[i].id, facts[j].id)
  }

  // ---------- provenance

  /** The order in which competing records of one location are ranked. */
  predicate Precedes(a: Place, b: Place)
  {
    Less(a.declaration, b.declaration) || (a.declaration == b.declaration && Less(a.detail, b.detail))
  }

  lemma PrecedesTransitive(a: Place, b: Place, c: Place)
    requires Precedes(a, b) && Precedes(b, c)
    ensures Precedes(a, c)
  {
    hide Less;
    if Less(a.declaration, b.declaration) {
      if Less(b.declaration, c.declaration) { LessTransitive(a.declaration, b.declaration, c.declaration); }
    } else if a.declaration == c.declaration {
      LessTransitive(a.detail, b.detail, c.detail);
    }
  }

  /** One of the values, and none of the same location ranks before it. */
  ghost predicate Chosen(values: seq<Place>, m: Place)
  {
    m in values && forall v :: v in values && v.Location() == m.Location() ==> !Precedes(v, m)
  }

  ghost predicate Locates(places: seq<Place>, l: (string, nat))
  {
    exists m :: m in places && m.Location() == l
  }

  predicate OneEach(places: seq<Place>)
  {
    forall i, j :: 0 <= i < j < |places| ==> places[i].Location() != places[j].Location()
  }

  /** `merged` has each location of `values` once, with the first-ranked record of that location. */
  ghost predicate Merges(values: seq<Place>, merged: seq<Place>)
  {
    && (forall m :: m in merged ==> Chosen(values, m))
    && (forall v :: v in values ==> Locates(merged, v.Location()))
    && OneEach(merged)
  }

  /** Which record survives does not depend on the order of the values. */
  lemma MergesUnique(values: seq<Place>, shuffled: seq<Place>, a: seq<Place>, b: seq<Place>, m: Place)
    requires forall v :: v in values <==> v in shuffled
    requires Merges(values, a) && Merges(shuffled, b) && m in a
    ensures m in b
  {
    hide Precedes;
    assert Chosen(values, m) && m in shuffled;
    assert Locates(b, m.Location());
    var n :| n in b && n.Location() == m.Location();
    assert Chosen(shuffled, n);
    assert n in values && n in shuffled;
    assert !Precedes(n, m) && !Precedes(m, n);
    NeitherPrecedes(m, n);
  }

  lemma NeitherPrecedes(m: Place, n: Place)
    requires m.Location() == n.Location() && !Precedes(m, n) && !Precedes(n, m)
    ensures m == n
  {
    hide Less;
    LessTotal(n.declaration, m.declaration);
    LessTotal(n.detail, m.detail);
  }

  /** _canonical_provenance of architecture_security_drift.py: keep one record a location. */
  method MergeProvenance(values: seq<Place>) returns (merged: seq<Place>)
    ensures Merges(values, merged)
  {
    hide Precedes;
    var byLocation: map<(string, nat), Place> := map[];
    var order: seq<(string, nat)> := [];
    for i := 0 to |values|
      invariant forall l :: l in order <==> l in byLocation
      invariant forall j, k :: 0 <= j < k < |order| ==> order[j] != order[k]
      invariant forall v <- values[..i] :: v.Location() in byLocation && !Precedes(v, byLocation[v.Location()])
      invariant forall l <- byLocation :: byLocation[l].Location() == l && byLocation[l] in values[..i]
    {
      var value := values[i];
      var l := value.Location();
      PrecedesIrreflexive(value);
      assert values[..i + 1] == values[..i] + [value];
      if l !in byLocation {
        byLocation := byLocation[l := value];
        order := order + [l];
      } else if Precedes(value, byLocation[l]) {
        forall v | v in values[..i] && v.Location() == l ensures !Precedes(v, value) {
          if Precedes(v, value) { PrecedesTransitive(v, value, byLocation[l]); }
        }
        byLocation := byLocation[l := value];
      }
    }
    assert values[..|values|] == values;
    merged := seq(|order|, k requires 0 <= k < |order| => byLocation[order[k]]);
    forall v | v in values ensures Locates(merged, v.Location()) {
      var k :| 0 <= k < |order| && order[k] == v.Location();
      assert merged[k].Location() == v.Location() && merged[k] in merged;
    }
    forall m | m in merged ensures Chosen(values, m) {
      var k :| 0 <= k < |order| && merged[k] == m;
      assert m == byLocation[order[k]];
    }
  }

  lemma PrecedesIrreflexive(a: Place)
    ensures !Precedes(a, a)
  {
    LessIrreflexive(a.declaration);
    LessIrreflexive(a.detail);
  }

  /** Two different records of one location. */
  ghost predicate Conflicting(values: seq<Place>)
  {
    exists v <- values, w <- values :: v.Location() == w.Location() && v != w
  }

  /** _canonical_provenance of architecture_drift.py: refuse competing records. */
  method StrictProvenance(values: seq<Place>) returns (r: Option<seq<Place>>)
    ensures r.None? <==> Conflicting(values)
    ensures r.Some? ==> forall v :: v in r.value <==> v in values
    ensures r.Some? ==> forall i, j :: 0 <= i < j < |r.value| ==> r.value[i].Location() != r.value[j].Location()
  {
    var byLocation: map<(string, nat), Place> := map[];
    var order: seq<(string, nat)> := [];
    for i := 0 to |values|
      invariant forall l :: l in order <==> l in byLocation
      invariant forall j, k :: 0 <= j < k < |order| ==> order[j] != order[k]
      invariant forall v <- values[..i] :: v.Location() in byLocation && byLocation[v.Location()] == v
      invariant forall l <- byLocation :: byLocation[l].Location() == l && byLocation[l] in values[..i]
    {
      var item := values[i];
      var l := item.Location();
      assert values[..i + 1] == values[..i] + [item];
      if l in byLocation && byLocation[l] != item {
        assert byLocation[l] in values && item in values;
        return None;
      }
      if l !in byLocation { order := order + [l]; }
      byLocation := byLocation[l := item];
    }
    assert values[..|values|] == values;
    var result := seq(|order|, k requires 0 <= k < |order| => byLocation[order[k]]);
    forall v | v in values ensures v in result {
      var k :| 0 <= k < |order| && order[k] == v.Location();
      assert result[k] == v;
    }
    return Some(result);
  }

  // ---------- comparing approved and observed facts

  ghost predicate Seen(observed: seq<Observed>, k: string, key: Keys)
  {
    exists o :: o in observed && ObservedKey(o, key) == k
  }

  ghost predicate Approved(facts: seq<Fact>, k: string, key: Keys)
  {
    exists f :: f in facts && FactKey(f, key) == k
  }

  /** The observed facts with one semantic key, in observation order. */
  function WithKey(observed: seq<Observed>, k: string, key: Keys): seq<Observed>
  {
    if |observed| == 0 then []
    else
      var before, last := WithKey(observed[..|observed| - 1], k, key), observed[|observed| - 1];
      if ObservedKey(last, key) == k then before + [last] else before
  }

  lemma {:induction false} InWithKey(observed: seq<Observed>, k: string, key: Keys, o: Observed)
    ensures o in WithKey(observed, k, key) <==> o in observed && ObservedKey(o, key) == k
  {
    if |observed| > 0 {
      var init, last := observed[..|observed| - 1], observed[|observed| - 1];
      InWithKey(init, k, key, o);
      assert observed == init + [last];
    }
  }

  /** `groups` sorts exactly these facts by their semantic key. */
  ghost predicate Grouped(groups: map<string, seq<Observed>>, observed: seq<Observed>, key: Keys)
  {
    forall k :: if k in groups then groups[k] == WithKey(observed, k, key) != [] else WithKey(observed, k, key) == []
  }

  lemma GroupStep(groups: map<string, seq<Observed>>, observed: seq<Observed>, key: Keys, o: Observed)
    requires Grouped(groups, observed, key)
    ensures var k := ObservedKey(o, key);
            Grouped(groups[k := (if k in groups then groups[k] else []) + [o]], observed + [o], key)
  {
    assert (observed + [o])[..|observed|] == observed;
  }

  lemma GroupedSeen(groups: map<string, seq<Observed>>, observed: seq<Observed>, key: Keys, k: string)
    requires Grouped(groups, observed, key)
    ensures k in groups <==> Seen(observed, k, key)
    ensures k in groups <==> k in KeysOf(observed, key)
  {
    if k in groups {
      var o := groups[k][0];
      assert o in groups[k];
      InWithKey(observed, k, key, o);
    }
    if o :| o in observed && ObservedKey(o, key) == k {
      InWithKey(observed, k, key, o);
    }
  }

  ghost function KeysOf(observed: seq<Observed>, key: Keys): set<string>
  {
    set o <- observed :: ObservedKey(o, key)
  }

  /** _observed_groups: sorting the observations takes the digest of each of them. */
  method ObservedGroups(observations: seq<Observation>, key: Keys) returns (r: Option<map<string, seq<Observed>>>)
    ensures r.None? <==> !AllHashable(observations, key) || !DistinctObservers(observations)
    ensures r.Some? ==> Grouped(r.value, AllFacts(observations), key)
  {
    hide AllHashable;
    if !AllHashable(observations, key) {
      return None;
    }
    var observers: set<string> := {};
    var groups: map<string, seq<Observed>> := map[];
    for i := 0 to |observations|
      invariant DistinctObservers(observations[..i])
      invariant forall name :: name in observers <==> exists j :: 0 <= j < i && observations[j].observer == name
      invariant Grouped(groups, AllFacts(observations[..i]), key)
    {
      hide AllFacts, Grouped, WithKey;
      var n := observations[i];
      assert observations[..i + 1] == observations[..i] + [n];
      if n.observer in observers {
        return None;
      }
      observers := observers + {n.observer};
      assert n.facts[..0] == [] && AllFacts(observations[..i]) + [] == AllFacts(observations[..i]);
      for j := 0 to |n.facts|
        invariant Grouped(groups, AllFacts(observations[..i]) + n.facts[..j], key)
      {
        var o := n.facts[j];
        var k := ObservedKey(o, key);
        GroupStep(groups, AllFacts(observations[..i]) + n.facts[..j], key, o);
        assert AllFacts(observations[..i]) + n.facts[..j + 1] == AllFacts(observations[..i]) + n.facts[..j] + [o];
        groups := groups[k := (if k in groups then groups[k] else []) + [o]];
      }
      assert n.facts[..|n.facts|] == n.facts;
      AllFactsAppend(observations[..i], n);
    }
    assert observations[..|observations|] == observations;
    return Some(groups);
  }

  /** The provenance of these facts, one after the other. */
  function Places(group: seq<Observed>): seq<Place>
  {
    if |group| == 0 then [] else group[0].provenance + Places(group[1..])
  }

  lemma {:induction false} InPlaces(group: seq<Observed>, p: Place)
    ensures p in Places(group) <==> exists o :: o in group && p in o.provenance
  {
    if |group| > 0 {
      InPlaces(group[1..], p);
      assert group == [group[0]] + group[1..];
      assert forall o :: o in group <==> o == group[0] || o in group[1..];
    }
  }

  /** A place where some fact with this key was observed. */
  ghost predicate PlaceOf(observed: seq<Observed>, k: string, key: Keys, p: Place)
  {
    exists o :: o in observed && ObservedKey(o, key) == k && p in o.provenance
  }

  /** Facts with one key were observed at one location with different records. */
  ghost predicate Disputed(observed: seq<Observed>, k: string, key: Keys)
  {
    exists p, q :: PlaceOf(observed, k, key, p) && PlaceOf(observed, k, key, q) && p.Location() == q.Location()
      && p != q
  }

  /** The places where facts with this key were observed, each location once. */
  ghost predicate ProvenanceOf(places: seq<Place>, observed: seq<Observed>, k: string, key: Keys)
  {
    (forall p :: p in places <==> PlaceOf(observed, k, key, p)) && OneEach(places)
  }

  lemma PlacesOfGroup(groups: map<string, seq<Observed>>, k: string, observed: seq<Observed>, key: Keys, p: Place)
    requires Grouped(groups, observed, key)
    ensures p in Places(if k in groups then groups[k] else []) <==> PlaceOf(observed, k, key, p)
  {
    var group := WithKey(observed, k, key);
    InPlaces(group, p);
    forall o ensures o in group <==> o in observed && ObservedKey(o, key) == k {
      InWithKey(observed, k, key, o);
    }
  }

  /** The merged provenance of one group; None when the group is disputed. */
  method GroupProvenance(groups: map<string, seq<Observed>>, k: string, ghost observed: seq<Observed>, key: Keys)
    returns (r: Option<seq<Place>>)
    requires Grouped(groups, observed, key)
    ensures r.None? <==> Disputed(observed, k, key)
    ensures r.Some? ==> ProvenanceOf(r.value, observed, k, key)
  {
    var group := if k in groups then groups[k] else [];
    forall p ensures p in Places(group) <==> PlaceOf(observed, k, key, p) {
      PlacesOfGroup(groups, k, observed, key, p);
    }
    hide Grouped, Places, PlaceOf;
    r := StrictProvenance(Places(group));
  }

  // ---------- findings that cannot be made

  /** The finding about this approved fact takes over a nested mapping, which cannot be frozen twice. */
  ghost predicate UnreportableFact(f: Fact, observed: seq<Observed>, key: Keys)
  {
    Drifts(f, observed, key) && Nested(f.attributes)
  }

  /** The same for the finding about an observed key, which takes over the attributes of its first fact. */
  predicate UnreportableKey(observed: seq<Observed>, k: string, key: Keys)
  {
    var group := WithKey(observed, k, key);
    |group| > 0 && Nested(group[0].attributes)
  }

  /** Some difference between truth and observations cannot be reported. */
  ghost predicate Unreportable(facts: seq<Fact>, observed: seq<Observed>, key: Keys)
  {
    || (exists f :: f in facts && UnreportableFact(f, observed, key))
    || (exists k :: UnreportableKey(observed, k, key) && !Approved(facts, k, key))
  }

  ghost predicate About(x: Finding, f: Fact)
  {
    x.kind == f.kind && x.source == f.source && x.target == f.target && x.factId == Some(f.id)
  }

  /** This finding has the cause that its code names. */
  ghost predicate Explained(x: Finding, facts: seq<Fact>, observed: seq<Observed>, key: Keys)
  {
    match x.code
    case RequiredFactMissing =>
      exists f :: f in facts && About(x, f) && f.mode.Required? && !Seen(observed, FactKey(f, key), key)
                  && x.provenance == []
    case ForbiddenFactPresent =>
      exists f :: f in facts && About(x, f) && f.mode.Forbidden? && Seen(observed, FactKey(f, key), key)
                  && ProvenanceOf(x.provenance, observed, FactKey(f, key), key)
    case UnexpectedFactPresent =>
      exists o :: o in observed && Unexpected(x, o) && !Approved(facts, ObservedKey(o, key), key)
                  && ProvenanceOf(x.provenance, observed, ObservedKey(o, key), key)
    case _ => false
  }

  ghost predicate Unexpected(x: Finding, o: Observed)
  {
    x.code.UnexpectedFactPresent? && x.kind == o.kind && x.source == o.source && x.target == o.target && x.factId.None?
  }

  ghost predicate Reports(findings: seq<Finding>, code: Code, f: Fact)
  {
    exists x :: x in findings && x.code == code && About(x, f)
  }

  ghost predicate ReportsKey(findings: seq<Finding>, observed: seq<Observed>, k: string, key: Keys)
  {
    exists x, o :: x in findings && o in observed && ObservedKey(o, key) == k && Unexpected(x, o)
  }

  /** Whatever is wrong with this fact is reported. */
  ghost predicate Judged(findings: seq<Finding>, f: Fact, observed: seq<Observed>, key: Keys)
  {
    && (f.mode.Required? && !Seen(observed, FactKey(f, key), key) ==> Reports(findings, RequiredFactMissing, f))
    && (f.mode.Forbidden? && Seen(observed, FactKey(f, key), key) ==> Reports(findings, ForbiddenFactPresent, f))
  }

  /** The repository is what was approved: nothing missing, forbidden or undeclared. */
  ghost predicate Conforms(facts: seq<Fact>, observed: seq<Observed>, key: Keys)
  {
    && (forall f <- facts :: f.mode.Required? ==> Seen(observed, FactKey(f, key), key))
    && (forall f <- facts :: f.mode.Forbidden? ==> !Seen(observed, FactKey(f, key), key))
    && (forall o <- observed :: Approved(facts, ObservedKey(o, key), key))
  }

  ghost predicate Drifts(f: Fact, observed: seq<Observed>, key: Keys)
  {
    (f.mode.Required? && !Seen(observed, FactKey(f, key), key))
      || (f.mode.Forbidden? && Seen(observed, FactKey(f, key), key))
  }

  /** The finding about an approved fact that drifts. */
  ghost predicate FactFinding(x: Finding, f: Fact, observed: seq<Observed>, key: Keys)
  {
    && About(x, f) && x.named == []
    && (f.mode.Required? ==> x.code.RequiredFactMissing? && x.provenance == [])
    && (f.mode.Forbidden? ==>
         x.code.ForbiddenFactPresent? && ProvenanceOf(x.provenance, observed, FactKey(f, key), key))
  }

  /** One finding for each approved fact that drifts, in fact order. */
  ghost predicate Declared(findings: seq<Finding>, facts: seq<Fact>, observed: seq<Observed>, key: Keys)
    decreases |facts|
  {
    if |facts| == 0 then findings == []
    else
      var init, f := facts[..|facts| - 1], facts[|facts| - 1];
      if Drifts(f, observed, key) then
        && |findings| > 0 && FactFinding(findings[|findings| - 1], f, observed, key)
        && Declared(findings[..|findings| - 1], init, observed, key)
      else Declared(findings, init, observed, key)
  }

  /** The finding about an observed key: what the first fact with that key is, and everywhere the key was observed. */
  ghost predicate KeyFinding(x: Finding, k: string, observed: seq<Observed>, key: Keys)
  {
    var group := WithKey(observed, k, key);
    |group| > 0 && Unexpected(x, group[0]) && x.named == [] && ProvenanceOf(x.provenance, observed, k, key)
  }

  /** One finding for each of these keys that no approved fact has, in order. */
  ghost predicate Undeclared(findings: seq<Finding>, keys: seq<string>, facts: seq<Fact>,
                             observed: seq<Observed>, key: Keys)
    decreases |keys|
  {
    if |keys| == 0 then findings == []
    else
      var init, k := keys[..|keys| - 1], keys[|keys| - 1];
      if Approved(facts, k, key) then Undeclared(findings, init, facts, observed, key)
      else
        && |findings| > 0 && KeyFinding(findings[|findings| - 1], k, observed, key)
        && Undeclared(findings[..|findings| - 1], init, facts, observed, key)
  }

  /** The findings are the differences, each reported once: approved facts in order, then undeclared keys in order. */
  ghost predicate Differences(findings: seq<Finding>, facts: seq<Fact>, observed: seq<Observed>, key: Keys)
  {
    exists n :: 0 <= n <= |findings| && Declared(findings[..n], facts, observed, key)
                && Undeclared(findings[n..], SortedKeys(KeysOf(observed, key)), facts, observed, key)
  }

  /** Every finding has its cause, and every difference is reported. */
  ghost predicate Covers(findings: seq<Finding>, facts: seq<Fact>, observed: seq<Observed>, key: Keys)
  {
    && (forall x :: x in findings ==> Explained(x, facts, observed, key))
    && (forall f :: f in facts ==> Judged(findings, f, observed, key))
    && (forall o :: o in observed ==>
          Approved(facts, ObservedKey(o, key), key) || ReportsKey(findings, observed, ObservedKey(o, key), key))
  }

  lemma ExplainedByMore(x: Finding, facts: seq<Fact>, f: Fact, observed: seq<Observed>, key: Keys)
    requires Explained(x, facts, observed, key) && !x.code.UnexpectedFactPresent?
    ensures Explained(x, facts + [f], observed, key)
  {
    hide Seen, About, ProvenanceOf;
    var g :| g in facts && About(x, g)
             && (if x.code.RequiredFactMissing? then
                   g.mode.Required? && !Seen(observed, FactKey(g, key), key) && x.provenance == []
                 else x.code.ForbiddenFactPresent? && g.mode.Forbidden? && Seen(observed, FactKey(g, key), key)
                      && ProvenanceOf(x.provenance, observed, FactKey(g, key), key));
    assert g in facts + [f];
  }

  lemma ReportsGrow(before: seq<Finding>, findings: seq<Finding>, after: seq<Finding>, code: Code, f: Fact)
    requires Reports(findings, code, f)
    ensures Reports(before + findings + after, code, f)
  {
    var x :| x in findings && x.code == code && About(x, f);
    assert x in before + findings + after;
  }

  lemma JudgedGrows(before: seq<Finding>, findings: seq<Finding>, after: seq<Finding>, f: Fact,
                    observed: seq<Observed>, key: Keys)
    requires Judged(findings, f, observed, key)
    ensures Judged(before + findings + after, f, observed, key)
  {
    forall code | Reports(findings, code, f) ensures Reports(before + findings + after, code, f) {
      ReportsGrow(before, findings, after, code, f);
    }
  }

  lemma FactFindingExplains(x: Finding, f: Fact, facts: seq<Fact>, observed: seq<Observed>, key: Keys)
    requires f in facts && Drifts(f, observed, key) && FactFinding(x, f, observed, key)
    ensures Explained(x, facts, observed, key) && !x.code.UnexpectedFactPresent? && Judged([x], f, observed, key)
  {
    hide Seen, ProvenanceOf;
    assert x in [x];
  }

  lemma {:induction false} DeclaredCovers(findings: seq<Finding>, facts: seq<Fact>, observed: seq<Observed>, key: Keys)
    requires Declared(findings, facts, observed, key)
    ensures forall x :: x in findings ==> Explained(x, facts, observed, key) && !x.code.UnexpectedFactPresent?
    ensures forall f :: f in facts ==> Judged(findings, f, observed, key)
    decreases |facts|
  {
    hide Explained, FactFinding, Judged;
    if |facts| > 0 {
      var init, f := facts[..|facts| - 1], facts[|facts| - 1];
      assert facts == init + [f];
      var n := |findings| - (if Drifts(f, observed, key) then 1 else 0);
      var kept := findings[..n];
      assert findings[..|findings|] == findings;
      DeclaredCovers(kept, init, observed, key);
      forall x | x in kept ensures Explained(x, facts, observed, key) {
        ExplainedByMore(x, init, f, observed, key);
      }
      assert findings == kept + findings[n..] && [] + kept + findings[n..] == findings;
      forall g | g in init ensures Judged(findings, g, observed, key) {
        JudgedGrows([], kept, findings[n..], g, observed, key);
      }
      if Drifts(f, observed, key) {
        var x := findings[n];
        FactFindingExplains(x, f, facts, observed, key);
        assert kept + [x] + [] == findings;
        JudgedGrows(kept, [x], [], f, observed, key);
      } else {
        NothingToJudge(findings, f, observed, key);
      }
    }
  }

  lemma NothingToJudge(findings: seq<Finding>, f: Fact, observed: seq<Observed>, key: Keys)
    requires !Drifts(f, observed, key)
    ensures Judged(findings, f, observed, key)
  {
  }

  lemma ReportsKeyGrows(before: seq<Finding>, findings: seq<Finding>, after: seq<Finding>,
                        observed: seq<Observed>, k: string, key: Keys)
    requires ReportsKey(findings, observed, k, key)
    ensures ReportsKey(before + findings + after, observed, k, key)
  {
    var y, o :| y in findings && o in observed && ObservedKey(o, key) == k && Unexpected(y, o);
    assert y in before + findings + after;
  }

  lemma KeyFindingExplains(x: Finding, k: string, facts: seq<Fact>, observed: seq<Observed>, key: Keys)
    requires KeyFinding(x, k, observed, key) && !Approved(facts, k, key)
    ensures Explained(x, facts, observed, key) && ReportsKey([x], observed, k, key)
  {
    hide Approved, ProvenanceOf;
    var o := WithKey(observed, k, key)[0];
    InWithKey(observed, k, key, o);
    assert o in WithKey(observed, k, key) && x in [x];
  }

  lemma {:induction false} UndeclaredCovers(findings: seq<Finding>, keys: seq<string>, facts: seq<Fact>,
                                            observed: seq<Observed>, key: Keys)
    requires Undeclared(findings, keys, facts, observed, key)
    ensures forall x :: x in findings ==> Explained(x, facts, observed, key)
    ensures forall k :: k in keys ==> Approved(facts, k, key) || ReportsKey(findings, observed, k, key)
    decreases |keys|
  {
    hide Explained, KeyFinding, ReportsKey, Approved;
    if |keys| > 0 {
      var init, k := keys[..|keys| - 1], keys[|keys| - 1];
      assert keys == init + [k];
      if Approved(facts, k, key) {
        UndeclaredCovers(findings, init, facts, observed, key);
      } else {
        var kept, x := findings[..|findings| - 1], findings[|findings| - 1];
        assert [] + kept + [x] == findings && kept + [x] + [] == findings;
        UndeclaredCovers(kept, init, facts, observed, key);
        KeyFindingExplains(x, k, facts, observed, key);
        forall done | done in init && ReportsKey(kept, observed, done, key)
          ensures ReportsKey(findings, observed, done, key)
        {
          ReportsKeyGrows([], kept, [x], observed, done, key);
        }
        ReportsKeyGrows(kept, [x], [], observed, k, key);
      }
    }
  }

  /** The differences in their order are sound and complete as a set. */
  lemma DifferencesCover(findings: seq<Finding>, facts: seq<Fact>, observed: seq<Observed>, key: Keys)
    requires Differences(findings, facts, observed, key)
    ensures Covers(findings, facts, observed, key)
  {
    hide Explained, Judged, ReportsKey, Declared, Undeclared;
    var keys := SortedKeys(KeysOf(observed, key));
    var n :| 0 <= n <= |findings| && Declared(findings[..n], facts, observed, key)
             && Undeclared(findings[n..], keys, facts, observed, key);
    DeclaredCovers(findings[..n], facts, observed, key);
    UndeclaredCovers(findings[n..], keys, facts, observed, key);
    assert findings == findings[..n] + findings[n..];
    assert [] + findings[..n] + findings[n..] == findings && findings[..n] + findings[n..] + [] == findings;
    forall f | f in facts ensures Judged(findings, f, observed, key) {
      JudgedGrows([], findings[..n], findings[n..], f, observed, key);
    }
    forall k | k in keys && ReportsKey(findings[n..], observed, k, key) ensures ReportsKey(findings, observed, k, key) {
      ReportsKeyGrows(findings[..n], findings[n..], [], observed, k, key);
    }
  }

  lemma NoDifferencesIff(findings: seq<Finding>, facts: seq<Fact>, observed: seq<Observed>, key: Keys)
    requires Differences(findings, facts, observed, key)
    ensures findings == [] <==> Conforms(facts, observed, key)
  {
    hide Differences;
    DifferencesCover(findings, facts, observed, key);
    if findings != [] {
      assert findings[0] in findings;
      ExplainedDrifts(findings[0], facts, observed, key);
    } else {
      forall f | f in facts
        ensures f.mode.Required? ==> Seen(observed, FactKey(f, key), key)
        ensures f.mode.Forbidden? ==> !Seen(observed, FactKey(f, key), key)
      {
        assert Judged([], f, observed, key);
      }
      forall o | o in observed ensures Approved(facts, ObservedKey(o, key), key) {
        assert !ReportsKey([], observed, ObservedKey(o, key), key);
      }
    }
  }

  lemma ExplainedDrifts(x: Finding, facts: seq<Fact>, observed: seq<Observed>, key: Keys)
    requires Explained(x, facts, observed, key)
    ensures !Conforms(facts, observed, key)
  {
  }

  lemma DisputedSeen(observed: seq<Observed>, k: string, key: Keys)
    requires Disputed(observed, k, key)
    ensures Seen(observed, k, key)
  {
  }

  /** One more undeclared key. */
  lemma UndeclaredStep(findings: seq<Finding>, keys: seq<string>, k: string, facts: seq<Fact>,
                       observed: seq<Observed>, key: Keys)
    requires Undeclared(findings, keys, facts, observed, key)
    ensures Approved(facts, k, key) ==> Undeclared(findings, keys + [k], facts, observed, key)
    ensures forall x :: !Approved(facts, k, key) && KeyFinding(x, k, observed, key) ==>
              Undeclared(findings + [x], keys + [k], facts, observed, key)
  {
    hide KeyFinding, Approved;
    assert (keys + [k])[..|keys|] == keys;
    forall x | !Approved(facts, k, key) && KeyFinding(x, k, observed, key)
      ensures Undeclared(findings + [x], keys + [k], facts, observed, key)
    {
      assert (findings + [x])[..|findings|] == findings;
    }
  }

  /** The warnings about observed facts that no approved fact declares, in key order. */
  method UndeclaredFacts(facts: seq<Fact>, groups: map<string, seq<Observed>>, ghost observed: seq<Observed>, key: Keys)
    returns (r: Option<seq<Finding>>)
    requires Grouped(groups, observed, key)
    ensures r.None? <==>
              exists k :: (Disputed(observed, k, key) || UnreportableKey(observed, k, key)) && !Approved(facts, k, key)
    ensures r.Some? ==> Undeclared(r.value, SortedKeys(KeysOf(observed, key)), facts, observed, key)
  {
    hide Disputed, ProvenanceOf, Undeclared, WithKey, Nested;
    var approvedKeys := set f <- facts :: FactKey(f, key);
    var keys := SortedKeys(groups.Keys);
    var findings: seq<Finding> := [];
    NothingUndeclared(facts, observed, key);
    for i := 0 to |keys|
      invariant Undeclared(findings, keys[..i], facts, observed, key)
      invariant forall k :: k in keys[..i] ==>
                  Approved(facts, k, key) || (!Disputed(observed, k, key) && !UnreportableKey(observed, k, key))
    {
      var k := keys[i];
      assert keys[..i + 1] == keys[..i] + [k];
      assert k in keys && k in groups;
      assert k in approvedKeys <==> Approved(facts, k, key);
      UndeclaredStep(findings, keys[..i], k, facts, observed, key);
      if k !in approvedKeys {
        var provenance := GroupProvenance(groups, k, observed, key);
        if provenance.None? {
          return None;
        }
        var first := groups[k][0];
        if Nested(first.attributes) {
          assert UnreportableKey(observed, k, key);
          return None;
        }
        var x := Finding(UnexpectedFactPresent, first.kind, first.source, first.target, None, [], provenance.value);
        assert KeyFinding(x, k, observed, key);
        findings := findings + [x];
      }
    }
    assert keys[..|keys|] == keys;
    forall k
      ensures k in groups <==> k in KeysOf(observed, key)
      ensures Disputed(observed, k, key) || UnreportableKey(observed, k, key) ==> k in keys
    {
      GroupedSeen(groups, observed, key, k);
      if Disputed(observed, k, key) { DisputedSeen(observed, k, key); }
    }
    assert groups.Keys == KeysOf(observed, key);
    return Some(findings);
  }

  lemma NothingUndeclared(facts: seq<Fact>, observed: seq<Observed>, key: Keys)
    ensures Undeclared([], [], facts, observed, key)
  {
  }

  lemma DeclaredStep(findings: seq<Finding>, facts: seq<Fact>, f: Fact, observed: seq<Observed>, key: Keys)
    requires Declared(findings, facts, observed, key)
    ensures !Drifts(f, observed, key) ==> Declared(findings, facts + [f], observed, key)
    ensures forall x :: Drifts(f, observed, key) && FactFinding(x, f, observed, key) ==>
              Declared(findings + [x], facts + [f], observed, key)
  {
    hide FactFinding, Drifts;
    assert (facts + [f])[..|facts|] == facts;
    forall x | Drifts(f, observed, key) && FactFinding(x, f, observed, key)
      ensures Declared(findings + [x], facts + [f], observed, key)
    {
      assert (findings + [x])[..|findings|] == findings;
    }
  }

  /** The first loop of compare_architecture: approved facts that are missing or forbidden but present. */
  method DeclaredFacts(facts: seq<Fact>, groups: map<string, seq<Observed>>, ghost observed: seq<Observed>, key: Keys)
    returns (r: Option<seq<Finding>>)
    requires Grouped(groups, observed, key)
    ensures r.None? <==>
              exists f :: f in facts && (Disputed(observed, FactKey(f, key), key) || UnreportableFact(f, observed, key))
    ensures r.Some? ==> Declared(r.value, facts, observed, key)
  {
    hide Disputed, ProvenanceOf, Grouped, Seen, Nested;
    var findings: seq<Finding> := [];
    for i := 0 to |facts|
      invariant Declared(findings, facts[..i], observed, key)
      invariant forall f :: f in facts[..i] ==>
                  !Disputed(observed, FactKey(f, key), key) && !UnreportableFact(f, observed, key)
    {
      hide Declared;
      var f := facts[i];
      assert facts[..i + 1] == facts[..i] + [f];
      var provenance := GroupProvenance(groups, FactKey(f, key), observed, key);
      if provenance.None? {
        return None;
      }
      GroupedSeen(groups, observed, key, FactKey(f, key));
      DeclaredStep(findings, facts[..i], f, observed, key);
      var seen := FactKey(f, key) in groups;
      if ((f.mode.Required? && !seen) || (f.mode.Forbidden? && seen)) && Nested(f.attributes) {
        assert UnreportableFact(f, observed, key);
        return None;
      }
      if f.mode.Required? && FactKey(f, key) !in groups {
        var x := Finding(RequiredFactMissing, f.kind, f.source, f.target, Some(f.id), [], []);
        assert FactFinding(x, f, observed, key);
        findings := findings + [x];
      } else if f.mode.Forbidden? && FactKey(f, key) in groups {
        var x := Finding(ForbiddenFactPresent, f.kind, f.source, f.target, Some(f.id), [], provenance.value);
        assert FactFinding(x, f, observed, key);
        findings := findings + [x];
      }
    }
    assert facts[..|facts|] == facts;
    return Some(findings);
  }

  /**
   * compare_architecture: the differences between truth and observation. It refuses repeated observers,
   * observations beyond the limits on JSON, disputed provenance, and differences that it cannot report.
   */
  method CompareArchitecture(facts: seq<Fact>, observations: seq<Observation>, key: Keys)
    returns (r: Result<seq<Finding>, Failure>)
    ensures r.Err? <==>
              || !AllHashable(observations, key) || !DistinctObservers(observations)
              || (exists k :: Disputed(AllFacts(observations), k, key))
              || Unreportable(facts, AllFacts(observations), key)
    ensures r.Ok? ==> Differences(r.value, facts, AllFacts(observations), key)
  {
    hide Disputed, Grouped, AllFacts, DistinctObservers, AllHashable, Declared, Undeclared, UnreportableFact;
    hide UnreportableKey;
    var grouping := ObservedGroups(observations, key);
    if grouping.None? {
      return Err(BadArchitecture);
    }
    ghost var observed := AllFacts(observations);
    var declared := DeclaredFacts(facts, grouping.value, observed, key);
    if declared.None? {
      return Err(BadArchitecture);
    }
    var undeclared := UndeclaredFacts(facts, grouping.value, observed, key);
    if undeclared.None? {
      return Err(BadArchitecture);
    }
    var findings := declared.value + undeclared.value;
    assert findings[..|declared.value|] == declared.value && findings[|declared.value|..] == undeclared.value;
    return Ok(findings);
  }
}
