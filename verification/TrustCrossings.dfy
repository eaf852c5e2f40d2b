/**
 * Deriving cross-zone edges from observed communication, data access and deployment
 * (architecture_security_drift.py).
 */
module TrustCrossings {
  import opened Prelude
  import opened Json
  import opened FactAttributes
  import opened ArchitectureDrift
  import opened TrustBoundary

  /** A security-relevant relationship between two subjects. */
  datatype Edge = Edge(source: string, target: string, evidence: string, direction: string,
    protocol: Option<string>, access: Option<string>)

  /** Everything that identifies a crossing. */
  datatype Route = Route(edge: Edge, fromZone: string, toZone: string, sensitive: bool)

  datatype Crossing = Crossing(route: Route, provenance: seq<Place>)

  // ---------- which facts are considered

  predicate NonEmptyText(a: Json)
  {
    a.Str? && |a.s| > 0
  }

  /** The attributes that the derivation reads from this fact are usable. */
  predicate EvidenceValid(o: Observed)
  {
    match o.kind
    case Communication =>
      Get(o.attributes, "direction") in {Str("inbound"), Str("outbound")}
        && NonEmptyText(Get(o.attributes, "protocol"))
    case DataAccess => NonEmptyText(Get(o.attributes, "access"))
    case Deployment =>
      "direction" in o.attributes ==>
        o.attributes["direction"] in {Str("inbound"), Str("outbound"),
          Str("placement")}
    case _ => true
  }

  /** The derivation can read this fact: copying its attributes fails on a nested mapping, whatever its kind. */
  predicate Usable(o: Observed)
  {
    !Nested(o.attributes) && EvidenceValid(o)
  }

  /** The first fact that cannot be used, and how the derivation fails there. */
  ghost predicate UnusableAt(observed: seq<Observed>, i: nat, error: Failure)
  {
    && i < |observed| && !Usable(observed[i]) && (forall j :: 0 <= j < i ==> Usable(observed[j]))
    && error == (if Nested(observed[i].attributes) then Uncaught else BadEvidence)
  }

  /** The edge that an observed fact stands for, when it is considered at all. */
  function Considered(o: Observed, components: set<string>): Option<Edge>
  {
    match o.kind
    case Communication =>
      if Get(o.attributes, "direction") == Str("inbound") && o.target == HTTP_ENDPOINT then
        Some(Edge(EXTERNAL_SUBJECT, o.source, "communication", "inbound", TextOf(o.attributes, "protocol"), None))
      else if o.target !in components && !("external:" <= o.target) then None
      else Some(Edge(o.source, o.target, "communication", "outbound", TextOf(o.attributes, "protocol"), None))
    case DataAccess => Some(Edge(o.source, o.target, "data-access", "outbound", None, TextOf(o.attributes, "access")))
    case Deployment =>
      var direction := TextOf(o.attributes, "direction");
      Some(Edge(o.source, o.target, "deployment", if direction.Some? then direction.value else "placement", None, None))
    case _ => None
  }

  // ---------- zones

  predicate External(subject: string)
  {
    subject == EXTERNAL_SUBJECT || "external:" <= subject || subject == HTTP_ENDPOINT
  }

  ghost predicate Owns(observed: seq<Observed>, owner: string, subject: string)
  {
    exists o :: o in observed && o.kind.DataOwnership? && o.source == owner && o.target == subject
  }

  ghost predicate OwnershipAmbiguous(observed: seq<Observed>)
  {
    exists a, b, subject :: Owns(observed, a, subject) && Owns(observed, b, subject) && a != b
  }

  ghost predicate IsOwners(owners: map<string, string>, observed: seq<Observed>)
  {
    forall subject, owner :: Owns(observed, owner, subject) <==> subject in owners && owners[subject] == owner
  }

  ghost predicate Member(facts: seq<Fact>, subject: string, zone: string, sensitive: bool)
  {
    exists f :: f in facts && MembershipFact(f) && f.source == subject && MembershipOf(f).zone == zone
                && MembershipOf(f).sensitive == sensitive
  }

  /**
   * The zone of a subject, and whether it holds sensitive data: outside, its own zone, or else
   * the zone of whoever owns its data.
   */
  ghost predicate InZone(facts: seq<Fact>, observed: seq<Observed>, subject: string, zone: string, sensitive: bool)
  {
    if External(subject) then zone == EXTERNAL_ZONE && !sensitive
    else if HasMembership(facts, subject) then Member(facts, subject, zone, sensitive)
    else exists owner :: Owns(observed, owner, subject) && Member(facts, owner, zone, sensitive)
  }

  /** _zone_for */
  function ZoneFor(subject: string, members: map<string, Membership>,
                   owners: map<string, string>): (Option<string>, bool)
  {
    if External(subject) then (Some(EXTERNAL_ZONE), false)
    else if subject in members then (Some(members[subject].zone), members[subject].sensitive)
    else if subject in owners && owners[subject] in members then
      (Some(members[owners[subject]].zone), members[owners[subject]].sensitive)
    else (None, false)
  }

  lemma MemberIff(facts: seq<Fact>, members: map<string, Membership>, subject: string, zone: string, sensitive: bool)
    requires IsMemberships(members, facts)
    ensures Member(facts, subject, zone, sensitive) <==>
              subject in members && members[subject].zone == zone && members[subject].sensitive == sensitive
    ensures HasMembership(facts, subject) <==> subject in members
  {
    hide MembershipFact, MembershipOf;
    if subject in members {
      var f :| f in facts && MembershipFact(f) && f.source == subject;
    }
  }

  /** The lookup through both dictionaries finds the zone of a subject, if it has one. */
  lemma ZoneForIff(facts: seq<Fact>, observed: seq<Observed>, members: map<string, Membership>,
                   owners: map<string, string>, subject: string, zone: string, sensitive: bool)
    requires IsMemberships(members, facts) && IsOwners(owners, observed)
    ensures InZone(facts, observed, subject, zone, sensitive)
            <==> ZoneFor(subject, members, owners) == (Some(zone), sensitive)
  {
    hide IsMemberships, Member, HasMembership, Owns;
    MemberIff(facts, members, subject, zone, sensitive);
    if subject in owners {
      assert Owns(observed, owners[subject], subject);
    }
    forall owner | Owns(observed, owner, subject)
      ensures Member(facts, owner, zone, sensitive) <==>
                owner in members && members[owner].zone == zone && members[owner].sensitive == sensitive
    {
      MemberIff(facts, members, owner, zone, sensitive);
    }
  }

  ghost predicate OwnerSets(sets: map<string, set<string>>, observed: seq<Observed>)
  {
    && (forall subject, owner :: Owns(observed, owner, subject) ==> subject in sets && owner in sets[subject])
    && (forall subject, owner :: subject in sets && owner in sets[subject] ==> Owns(observed, owner, subject))
    && (forall subject :: subject in sets ==> sets[subject] != {})
  }

  method CollectOwners(observed: seq<Observed>) returns (sets: map<string, set<string>>)
    ensures OwnerSets(sets, observed)
  {
    sets := map[];
    for i := 0 to |observed|
      invariant OwnerSets(sets, observed[..i])
    {
      hide Owns;
      var o := observed[i];
      assert observed[..i + 1] == observed[..i] + [o];
      OwnsStep(observed[..i], o);
      if o.kind.DataOwnership? {
        sets := sets[o.target := (if o.target in sets then sets[o.target] else {}) + {o.source}];
      }
    }
    assert observed[..|observed|] == observed;
  }

  /** _ownership_map: one owner for each subject, or a refusal. */
  method OwnershipMap(observed: seq<Observed>) returns (r: Option<map<string, string>>)
    ensures r.None? <==> OwnershipAmbiguous(observed)
    ensures r.Some? ==> IsOwners(r.value, observed)
  {
    hide Owns;
    var sets := CollectOwners(observed);
    var subjects := ArtifactGraphs.SortedKeys(sets.Keys);
    var owners: map<string, string> := map[];
    for i := 0 to |subjects|
      invariant forall s :: s in owners <==> s in subjects[..i]
      invariant forall s :: s in owners ==> s in sets && sets[s] == {owners[s]}
    {
      hide OwnerSets, OwnershipAmbiguous;
      var s := subjects[i];
      assert subjects[..i + 1] == subjects[..i] + [s];
      assert s in subjects && s in sets;
      assert sets[s] != {} by { SomeOwner(sets, observed, s); }
      var owner :| owner in sets[s];
      OneValueIff(sets[s], owner);
      if |sets[s]| != 1 {
        var other :| other in sets[s] && other != owner;
        TwoOwners(sets, observed, s, owner, other);
        return None;
      }
      owners := owners[s := owner];
    }
    assert subjects[..|subjects|] == subjects;
    return Some(owners);
  }

  lemma SomeOwner(sets: map<string, set<string>>, observed: seq<Observed>, subject: string)
    requires OwnerSets(sets, observed) && subject in sets
    ensures sets[subject] != {}
  {
  }

  lemma TwoOwners(sets: map<string, set<string>>, observed: seq<Observed>, subject: string, a: string, b: string)
    requires OwnerSets(sets, observed) && subject in sets && a in sets[subject] && b in sets[subject] && a != b
    ensures OwnershipAmbiguous(observed)
  {
    hide Owns;
    assert Owns(observed, a, subject) && Owns(observed, b, subject);
  }

  lemma OwnsStep(observed: seq<Observed>, o: Observed)
    ensures forall owner, subject :: Owns(observed + [o], owner, subject) <==>
              Owns(observed, owner, subject) || (o.kind.DataOwnership? && o.source == owner && o.target == subject)
  {
    forall owner, subject
      ensures Owns(observed + [o], owner, subject) <==>
                Owns(observed, owner, subject) || (o.kind.DataOwnership? && o.source == owner && o.target == subject)
    {
      if Owns(observed, owner, subject) {
        var p :| p in observed && p.kind.DataOwnership? && p.source == owner && p.target == subject;
        assert p in observed + [o];
      }
      assert o in observed + [o];
    }
  }

  // ---------- crossings

  /** The first subject of an edge without a zone. */
  function Unplaced(e: Edge, members: map<string, Membership>, owners: map<string, string>): Option<string>
  {
    if ZoneFor(e.source, members, owners).0.None? then Some(e.source)
    else if ZoneFor(e.target, members, owners).0.None? then Some(e.target)
    else None
  }

  /** The route of an edge whose ends are in two zones. */
  function RouteOf(e: Edge, members: map<string, Membership>, owners: map<string, string>): Option<Route>
  {
    var (from, _) := ZoneFor(e.source, members, owners);
    var (to, sensitive) := ZoneFor(e.target, members, owners);
    if from.Some? && to.Some? && from != to then Some(Route(e, from.value, to.value, sensitive)) else None
  }

  datatype Scope = Scope(components: set<string>, members: map<string, Membership>, owners: map<string, string>)
  {
    /** This fact is evidence for a crossing along the route. */
    predicate Supports(o: Observed, route: Route)
    {
      var e := Considered(o, components);
      e.Some? && RouteOf(e.value, members, owners) == Some(route)
    }

    predicate Lost(o: Observed)
    {
      var e := Considered(o, components);
      e.Some? && Unplaced(e.value, members, owners).Some?
    }
  }

  function ZoneMissingFinding(e: Edge, subject: string, provenance: seq<Place>): Finding
  {
    Finding(ZoneMissing, TrustBoundary, e.source, e.target, None, [subject], provenance)
  }

  /** One finding for each fact that lost an end, in observation order. */
  function LostFindings(observed: seq<Observed>, s: Scope): seq<Finding>
  {
    if |observed| == 0 then []
    else
      var before, o := LostFindings(observed[..|observed| - 1], s), observed[|observed| - 1];
      if s.Lost(o) then
        var e := Considered(o, s.components).value;
        before + [ZoneMissingFinding(e, Unplaced(e, s.members, s.owners).value, o.provenance)]
      else before
  }

  /** A location that some evidence for the route gives. */
  ghost predicate PlaceOn(observed: seq<Observed>, s: Scope, route: Route, p: Place)
  {
    exists o :: o in observed && s.Supports(o, route) && p in o.provenance
  }

  /** The provenance of a crossing: each location of its evidence once, with the first-ranked record. */
  ghost predicate Evidenced(observed: seq<Observed>, s: Scope, route: Route, provenance: seq<Place>)
  {
    && (forall m :: m in provenance ==> PlaceOn(observed, s, route, m))
    && (forall m, p ::
         m in provenance && PlaceOn(observed, s, route, p) && p.Location() == m.Location() ==> !Precedes(p, m))
    && (forall p :: PlaceOn(observed, s, route, p) ==> Locates(provenance, p.Location()))
    && OneEach(provenance)
  }

  ghost predicate Travelled(observed: seq<Observed>, s: Scope, route: Route)
  {
    exists o :: o in observed && s.Supports(o, route)
  }

  /** The crossings are exactly the travelled routes, each once and with all its evidence. */
  ghost predicate Crosses(crossings: seq<Crossing>, observed: seq<Observed>, s: Scope)
  {
    && (forall c :: c in crossings ==> Travelled(observed, s, c.route) && Evidenced(observed, s, c.route, c.provenance))
    && (forall route :: Travelled(observed, s, route) ==> exists c :: c in crossings && c.route == route)
    && (forall i, j :: 0 <= i < j < |crossings| ==> crossings[i].route != crossings[j].route)
  }

  ghost predicate Supported(c: Crossing, observed: seq<Observed>, s: Scope)
  {
    exists o :: o in observed && s.Supports(o, c.route) && Merges(o.provenance, c.provenance)
  }

  ghost predicate Recorded(crossings: seq<Crossing>, o: Observed, route: Route)
  {
    exists c :: c in crossings && c.route == route && Merges(o.provenance, c.provenance)
  }

  /** The raw crossings: one for each supporting fact, with that fact's merged provenance. */
  ghost predicate Raw(crossings: seq<Crossing>, observed: seq<Observed>, s: Scope)
  {
    && (forall c :: c in crossings ==> Supported(c, observed, s))
    && (forall o, route :: o in observed && s.Supports(o, route) ==> Recorded(crossings, o, route))
  }

  lemma SupportedGrows(c: Crossing, observed: seq<Observed>, s: Scope, o: Observed)
    requires Supported(c, observed, s)
    ensures Supported(c, observed + [o], s)
  {
    var p :| p in observed && s.Supports(p, c.route) && Merges(p.provenance, c.provenance);
    assert p in observed + [o];
  }

  lemma RecordedGrows(crossings: seq<Crossing>, o: Observed, route: Route, more: seq<Crossing>)
    requires Recorded(crossings, o, route)
    ensures Recorded(crossings + more, o, route)
  {
    var c :| c in crossings && c.route == route && Merges(o.provenance, c.provenance);
    assert c in crossings + more;
  }

  /** Nothing is added for a fact that supports no route. */
  lemma RawSkip(crossings: seq<Crossing>, observed: seq<Observed>, s: Scope, o: Observed)
    requires Raw(crossings, observed, s) && forall route :: !s.Supports(o, route)
    ensures Raw(crossings, observed + [o], s)
  {
    hide Supported, Recorded;
    forall c | c in crossings ensures Supported(c, observed + [o], s) {
      SupportedGrows(c, observed, s, o);
    }
  }

  lemma RawStep(crossings: seq<Crossing>, observed: seq<Observed>, s: Scope, o: Observed, c: Crossing)
    requires Raw(crossings, observed, s)
    requires s.Supports(o, c.route) && (forall route :: s.Supports(o, route) ==> route == c.route)
    requires Merges(o.provenance, c.provenance)
    ensures Raw(crossings + [c], observed + [o], s)
  {
    forall d | d in crossings + [c] ensures Supported(d, observed + [o], s) {
      if d in crossings { SupportedGrows(d, observed, s, o); }
      else { assert o in observed + [o]; }
    }
    forall p, route | p in observed + [o] && s.Supports(p, route) ensures Recorded(crossings + [c], p, route) {
      if p in observed {
        RecordedGrows(crossings, p, route, [c]);
      } else {
        assert c in crossings + [c];
      }
    }
  }

  lemma LostStep(observed: seq<Observed>, s: Scope, o: Observed)
    ensures !s.Lost(o) ==> LostFindings(observed + [o], s) == LostFindings(observed, s)
    ensures s.Lost(o) ==>
              var e := Considered(o, s.components).value;
              LostFindings(observed + [o], s) ==
                LostFindings(observed, s)
                  + [ZoneMissingFinding(e, Unplaced(e, s.members, s.owners).value, o.provenance)]
  {
    assert (observed + [o])[..|observed|] == observed;
  }

  /** The loop of _derive_crossings over the observed facts, with its nested `resolve`. */
  method ResolveEdges(observed: seq<Observed>, s: Scope) returns (r: Result<(seq<Crossing>, seq<Finding>), Failure>)
    ensures r.Err? <==> exists o :: o in observed && !Usable(o)
    ensures r.Err? ==> exists i :: UnusableAt(observed, i, r.error)
    ensures r.Ok? ==> Raw(r.value.0, observed, s) && r.value.1 == LostFindings(observed, s)
  {
    var crossings: seq<Crossing> := [];
    var lost: seq<Finding> := [];
    for i := 0 to |observed|
      invariant forall j :: 0 <= j < i ==> Usable(observed[j])
      invariant Raw(crossings, observed[..i], s) && lost == LostFindings(observed[..i], s)
    {
      hide Raw, LostFindings, EvidenceValid, Considered, ZoneFor, Merges, Nested;
      var o := observed[i];
      assert observed[..i + 1] == observed[..i] + [o];
      assert o in observed;
      if Nested(o.attributes) {
        assert UnusableAt(observed, i, Uncaught);
        return Err(Uncaught);
      }
      if !EvidenceValid(o) {
        assert UnusableAt(observed, i, BadEvidence);
        return Err(BadEvidence);
      }
      var e := Considered(o, s.components);
      LostStep(observed[..i], s, o);
      if e.Some? {
        var (from, _) := ZoneFor(e.value.source, s.members, s.owners);
        var (to, sensitive) := ZoneFor(e.value.target, s.members, s.owners);
        if from.None? || to.None? {
          var subject := if from.None? then e.value.source else e.value.target;
          lost := lost + [ZoneMissingFinding(e.value, subject, o.provenance)];
        } else if from != to {
          var provenance := MergeProvenance(o.provenance);
          var c := Crossing(Route(e.value, from.value, to.value, sensitive), provenance);
          RawStep(crossings, observed[..i], s, o, c);
          crossings := crossings + [c];
          continue;
        }
      }
      RawSkip(crossings, observed[..i], s, o);
    }
    assert observed[..|observed|] == observed;
    return Ok((crossings, lost));
  }

  // ---------- merging crossings of one route

  ghost predicate Gathered(places: seq<Place>, raw: seq<Crossing>, route: Route)
  {
    forall p :: p in places <==> exists c :: c in raw && c.route == route && p in c.provenance
  }

  ghost predicate Collected(byRoute: map<Route, seq<Place>>, raw: seq<Crossing>)
  {
    && (forall route :: route in byRoute ==> Gathered(byRoute[route], raw, route))
    && (forall route :: route in byRoute <==> exists c :: c in raw && c.route == route)
  }

  lemma CollectedStep(byRoute: map<Route, seq<Place>>, raw: seq<Crossing>, c: Crossing)
    requires Collected(byRoute, raw)
    ensures var known := if c.route in byRoute then byRoute[c.route] else [];
            Collected(byRoute[c.route := known + c.provenance], raw + [c])
  {
    var before := if c.route in byRoute then byRoute[c.route] else [];
    var after := byRoute[c.route := before + c.provenance];
    assert c in raw + [c];
    forall route | route in after ensures Gathered(after[route], raw + [c], route) {
      GatheredStep(if route in byRoute then byRoute[route] else [], raw, c, route);
    }
    forall d | d in raw ensures d in raw + [c] {}
  }

  lemma GatheredStep(places: seq<Place>, raw: seq<Crossing>, c: Crossing, route: Route)
    requires Gathered(places, raw, route)
    ensures c.route == route ==> Gathered(places + c.provenance, raw + [c], route)
    ensures c.route != route ==> Gathered(places, raw + [c], route)
  {
    forall d ensures d in raw + [c] <==> d in raw || d == c {}
  }

  /** No later record of a place can outrank the one that was kept. */
  lemma KeptRanksFirst(p: Place, q: Place, m: Place)
    requires p.Location() == q.Location() == m.Location() && !Precedes(p, q) && !Precedes(q, m)
    ensures !Precedes(p, m)
  {
    if Precedes(p, m) {
      if Precedes(q, p) {
        PrecedesTransitive(q, p, m);
      } else {
        NeitherPrecedes(p, q);
      }
    }
  }

  /** Merging the merged provenance of each fact keeps every location of the evidence. */
  lemma MergedTwice(raw: seq<Crossing>, observed: seq<Observed>, s: Scope, route: Route, places: seq<Place>,
                    merged: seq<Place>)
    requires Raw(raw, observed, s) && Gathered(places, raw, route) && Merges(places, merged)
    ensures Evidenced(observed, s, route, merged)
  {
    hide Precedes, Considered, RouteOf;
    forall m | m in merged ensures PlaceOn(observed, s, route, m) {
      assert Chosen(places, m);
      var c :| c in raw && c.route == route && m in c.provenance;
      assert Supported(c, observed, s);
      var o :| o in observed && s.Supports(o, c.route) && Merges(o.provenance, c.provenance);
      assert Chosen(o.provenance, m);
    }
    forall p | PlaceOn(observed, s, route, p)
      ensures Locates(merged, p.Location())
      ensures forall m :: m in merged && m.Location() == p.Location() ==> !Precedes(p, m)
    {
      var q := RecordedPlace(raw, observed, s, route, p);
      assert q in places;
      forall m | m in merged && m.Location() == p.Location() ensures !Precedes(p, m) {
        assert Chosen(places, m);
        KeptRanksFirst(p, q, m);
      }
    }
  }

  lemma RecordedPlace(raw: seq<Crossing>, observed: seq<Observed>, s: Scope, route: Route, p: Place) returns (q: Place)
    requires Raw(raw, observed, s) && PlaceOn(observed, s, route, p)
    ensures q.Location() == p.Location() && !Precedes(p, q)
    ensures exists c :: c in raw && c.route == route && q in c.provenance
  {
    hide Precedes, Considered, RouteOf;
    var o :| o in observed && s.Supports(o, route) && p in o.provenance;
    assert Recorded(raw, o, route);
    var c :| c in raw && c.route == route && Merges(o.provenance, c.provenance);
    assert Locates(c.provenance, p.Location());
    q :| q in c.provenance && q.Location() == p.Location();
    assert Chosen(o.provenance, q);
  }

  lemma RawTravelled(raw: seq<Crossing>, observed: seq<Observed>, s: Scope, route: Route)
    requires Raw(raw, observed, s)
    ensures Travelled(observed, s, route) <==> exists c :: c in raw && c.route == route
  {
    hide Considered, RouteOf, Merges;
    if Travelled(observed, s, route) {
      var o :| o in observed && s.Supports(o, route);
      assert Recorded(raw, o, route);
    }
    if c :| c in raw && c.route == route {
      assert Supported(c, observed, s);
    }
  }

  /** The grouping at the end of _derive_crossings: crossings of one route become one. */
  method MergeCrossings(raw: seq<Crossing>, ghost observed: seq<Observed>,
                        ghost s: Scope) returns (merged: seq<Crossing>)
    requires Raw(raw, observed, s)
    ensures Crosses(merged, observed, s)
  {
    hide Raw, Collected, Evidenced, Travelled, Gathered, Merges;
    var byRoute: map<Route, seq<Place>> := map[];
    var order: seq<Route> := [];
    CollectedNone();
    for i := 0 to |raw|
      invariant Collected(byRoute, raw[..i])
      invariant forall route :: route in order <==> route in byRoute
      invariant forall j, k :: 0 <= j < k < |order| ==> order[j] != order[k]
    {
      var c := raw[i];
      assert raw[..i + 1] == raw[..i] + [c];
      CollectedStep(byRoute, raw[..i], c);
      if c.route !in byRoute { order := order + [c.route]; }
      byRoute := byRoute[c.route := (if c.route in byRoute then byRoute[c.route] else []) + c.provenance];
    }
    assert raw[..|raw|] == raw;
    merged := [];
    for i := 0 to |order|
      invariant |merged| == i
      invariant forall j :: 0 <= j < i ==> merged[j].route == order[j]
      invariant forall c :: c in merged
                  ==> Travelled(observed, s, c.route) && Evidenced(observed, s, c.route, c.provenance)
    {
      var route := order[i];
      assert route in order;
      var provenance := MergeProvenance(byRoute[route]);
      CollectedRoute(byRoute, raw, route);
      RawTravelled(raw, observed, s, route);
      MergedTwice(raw, observed, s, route, byRoute[route], provenance);
      merged := merged + [Crossing(route, provenance)];
    }
    forall route | Travelled(observed, s, route) ensures exists c :: c in merged && c.route == route {
      RawTravelled(raw, observed, s, route);
      CollectedKeys(byRoute, raw, route);
      var k :| 0 <= k < |order| && order[k] == route;
      assert merged[k] in merged;
    }
  }

  lemma CollectedRoute(byRoute: map<Route, seq<Place>>, raw: seq<Crossing>, route: Route)
    requires Collected(byRoute, raw) && route in byRoute
    ensures Gathered(byRoute[route], raw, route) && exists c :: c in raw && c.route == route
  {
  }

  lemma CollectedKeys(byRoute: map<Route, seq<Place>>, raw: seq<Crossing>, route: Route)
    requires Collected(byRoute, raw)
    ensures route in byRoute <==> exists c :: c in raw && c.route == route
  {
  }

  lemma CollectedNone()
    ensures Collected(map[], [])
  {
  }

  /** _derive_crossings: the crossings and the edges that lost an end, or a refusal. */
  method DeriveCrossings(components: set<string>, observed: seq<Observed>, members: map<string, Membership>)
    returns (r: Result<(seq<Crossing>, seq<Finding>), Failure>, ghost owners: map<string, string>)
    ensures r.Err? <==> OwnershipAmbiguous(observed) || exists o :: o in observed && !Usable(o)
    ensures r.Err? ==>
              if OwnershipAmbiguous(observed) then r.error == Ambiguous
              else exists i :: UnusableAt(observed, i, r.error)
    ensures r.Ok? ==> IsOwners(owners, observed)
    ensures r.Ok? ==> Crosses(r.value.0, observed, Scope(components, members, owners))
    ensures r.Ok? ==> r.value.1 == LostFindings(observed, Scope(components, members, owners))
  {
    hide Raw, LostFindings, Usable, UnusableAt, OwnershipAmbiguous, IsOwners, Crosses;
    owners := map[];
    var owned := OwnershipMap(observed);
    if owned.None? {
      return Err(Ambiguous), owners;
    }
    owners := owned.value;
    var s := Scope(components, members, owned.value);
    var edges := ResolveEdges(observed, s);
    if edges.Err? {
      return Err(edges.error), owners;
    }
    var merged := MergeCrossings(edges.value.0, observed, s);
    return Ok((merged, edges.value.1)), owners;
  }
}
