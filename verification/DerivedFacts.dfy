/**
 * The facts derived from crossings, and when they can be compared with the topology, said of
 * topology and observations alone (architecture_security_drift.py).
 */
module DerivedFacts {
  import opened Json
  import opened FactAttributes
  import opened ArchitectureDrift
  import opened ObservationBodies
  import opened TrustBoundary
  import opened TrustCrossings
  import opened TrustSecurity

  // ---------- the derived facts

  function RouteAttributes(route: Route): Attributes
  {
    var e := route.edge;
    var fixed: Attributes := map[
      "role" := Str("crossing"), "fromZone" := Str(route.fromZone),
      "toZone" := Str(route.toZone), "evidenceKind" := Str(e.evidence),
      "direction" := Str(e.direction)];
    var withProtocol := if e.protocol.Some? then fixed["protocol" := Str(e.protocol.value)] else fixed;
    var withAccess := if e.access.Some? then withProtocol["access" := Str(e.access.value)] else withProtocol;
    if route.sensitive then withAccess["sensitiveData" := Bool(true)] else withAccess
  }

  /** _Crossing.observed_fact */
  function CrossingFact(c: Crossing): Observed
  {
    Observed(TrustBoundary, c.route.edge.source, c.route.edge.target, RouteAttributes(c.route), c.provenance)
  }

  function CrossingFacts(crossings: seq<Crossing>): (derived: seq<Observed>)
    ensures |derived| == |crossings|
  {
    seq(|crossings|, k requires 0 <= k < |crossings| => CrossingFact(crossings[k]))
  }

  function RouteKey(route: Route, key: Keys): string
  {
    key(TrustBoundary, route.edge.source, route.edge.target, RouteAttributes(route))
  }

  /** Different routes are different facts. */
  lemma RoutesApart(a: Route, b: Route)
    requires a.edge.source == b.edge.source && a.edge.target == b.edge.target
    requires RouteAttributes(a) == RouteAttributes(b)
    ensures a == b
  {
    var m, n := RouteAttributes(a), RouteAttributes(b);
    assert m["fromZone"] == n["fromZone"] && m["toZone"] == n["toZone"];
    assert m["evidenceKind"] == n["evidenceKind"] && m["direction"] == n["direction"];
    assert ("protocol" in m <==> "protocol" in n) && ("protocol" in m ==> m["protocol"] == n["protocol"]);
    assert ("access" in m <==> "access" in n) && ("access" in m ==> m["access"] == n["access"]);
    assert "sensitiveData" in m <==> "sensitiveData" in n;
  }

  // ---------- when the derived facts cannot be compared, said of the inputs alone

  /** This fact is evidence for an edge along the route. */
  ghost predicate Along(facts: seq<Fact>, components: set<string>, observed: seq<Observed>, o: Observed, route: Route)
  {
    o in observed && Considered(o, components).Some?
      && Connects(facts, observed, Considered(o, components).value, route)
  }

  ghost predicate PlaceAlong(facts: seq<Fact>, components: set<string>, observed: seq<Observed>, route: Route, p: Place)
  {
    exists o :: Along(facts, components, observed, o, route) && p in o.provenance
  }

  /** Some evidence for the route names this place, and no competing record of its location ranks before it. */
  ghost predicate FirstRanked(facts: seq<Fact>, components: set<string>, observed: seq<Observed>,
                              route: Route, p: Place)
  {
    && PlaceAlong(facts, components, observed, route, p)
    && forall q :: PlaceAlong(facts, components, observed, route, q) && q.Location() == p.Location() ==> !Precedes(q, p)
  }

  /** A place with this key that enters the comparison: observed, or the evidence of a derived fact. */
  ghost predicate ComparedAt(facts: seq<Fact>, components: set<string>, observed: seq<Observed>, k: string,
                             key: Keys, p: Place)
  {
    || PlaceOf(observed, k, key, p)
    || exists route :: RouteKey(route, key) == k && FirstRanked(facts, components, observed, route, p)
  }

  ghost predicate TooManyRoutes(facts: seq<Fact>, components: set<string>, observed: seq<Observed>)
  {
    exists routes: seq<Route> ::
      |routes| > MAX_FACTS && Distinct(routes) &&
        forall route :: route in routes ==> EdgeAlong(facts, components, observed, route)
  }

  predicate Distinct<T(==)>(xs: seq<T>)
  {
    forall i, j :: 0 <= i < j < |xs| ==> xs[i] != xs[j]
  }

  ghost predicate ComparisonDisputed(facts: seq<Fact>, components: set<string>, observed: seq<Observed>, key: Keys)
  {
    exists k, p, q ::
      && ComparedAt(facts, components, observed, k, key, p) && ComparedAt(facts, components, observed, k, key, q)
      && p.Location() == q.Location() && p != q
  }

  /** Exactly the first-ranked evidence for the route, each location once. */
  ghost predicate RanksFirst(facts: seq<Fact>, components: set<string>, observed: seq<Observed>, c: Crossing)
  {
    (forall p :: p in c.provenance <==> FirstRanked(facts, components, observed, c.route, p)) && OneEach(c.provenance)
  }

  /** Every route with an edge once, with its first-ranked evidence. */
  ghost predicate Derivable(facts: seq<Fact>, components: set<string>, observed: seq<Observed>,
                            crossings: seq<Crossing>)
  {
    && (forall c :: c in crossings ==>
          EdgeAlong(facts, components, observed, c.route) && RanksFirst(facts, components, observed, c))
    && (forall route :: EdgeAlong(facts, components, observed, route) ==>
          exists c :: c in crossings && c.route == route)
    && (forall i, j :: 0 <= i < j < |crossings| ==> crossings[i].route != crossings[j].route)
  }

  /** The number of JSON values in the body of an observation of the derived facts. */
  function DerivedSize(crossings: seq<Crossing>): nat
  {
    5 + Weight(CrossingFacts(crossings), FactNodes)
  }

  /** The derived facts do not fit into one observation that can be digested. */
  ghost predicate DerivedTooLarge(facts: seq<Fact>, components: set<string>, observed: seq<Observed>)
  {
    exists crossings ::
      Derivable(facts, components, observed, crossings) && DerivedSize(crossings) > MAX_JSON_ITEMS
  }

  /** A fact with this key is observed, or derived from an edge. */
  ghost predicate Compared(facts: seq<Fact>, components: set<string>, observed: seq<Observed>, k: string, key: Keys)
  {
    || Seen(observed, k, key)
    || exists route :: EdgeAlong(facts, components, observed, route) && RouteKey(route, key) == k
  }

  /** The finding about this approved fact takes over a nested mapping, which cannot be frozen twice. */
  ghost predicate NestedDrift(facts: seq<Fact>, components: set<string>, observed: seq<Observed>, f: Fact, key: Keys)
  {
    var k := FactKey(f, key);
    && Nested(f.attributes)
    && ((f.mode.Required? && !Compared(facts, components, observed, k, key))
        || (f.mode.Forbidden? && Compared(facts, components, observed, k, key)))
  }

  /**
   * The comparison with the derived facts refuses: they are too many or too large, some fact has
   * competing records of one location, or a difference cannot be reported.
   */
  ghost predicate Incomparable(facts: seq<Fact>, components: set<string>, observed: seq<Observed>, key: Keys)
  {
    || TooManyRoutes(facts, components, observed)
    || DerivedTooLarge(facts, components, observed)
    || ComparisonDisputed(facts, components, observed, key)
    || exists f :: f in facts && NestedDrift(facts, components, observed, f, key)
  }

  lemma AlongIff(facts: seq<Fact>, observed: seq<Observed>, s: Scope, o: Observed, route: Route)
    requires IsMemberships(s.members, facts) && IsOwners(s.owners, observed)
    ensures Along(facts, s.components, observed, o, route) <==> o in observed && s.Supports(o, route)
  {
    hide Considered, Connects, RouteOf, IsMemberships, IsOwners;
    if Considered(o, s.components).Some? {
      ConnectsIff(facts, observed, s, Considered(o, s.components).value, route);
    }
  }

  lemma PlaceAlongIff(facts: seq<Fact>, observed: seq<Observed>, s: Scope, route: Route, p: Place)
    requires IsMemberships(s.members, facts) && IsOwners(s.owners, observed)
    ensures PlaceAlong(facts, s.components, observed, route, p) <==> PlaceOn(observed, s, route, p)
  {
    hide Along, IsMemberships, IsOwners, Considered, RouteOf;
    forall o ensures Along(facts, s.components, observed, o, route) <==> o in observed && s.Supports(o, route) {
      AlongIff(facts, observed, s, o, route);
    }
  }

  /** The provenance of a crossing is exactly the first-ranked evidence for its route. */
  lemma EvidenceIsFirstRanked(facts: seq<Fact>, observed: seq<Observed>, s: Scope, c: Crossing, p: Place)
    requires IsMemberships(s.members, facts) && IsOwners(s.owners, observed)
    requires Evidenced(observed, s, c.route, c.provenance)
    ensures p in c.provenance <==> FirstRanked(facts, s.components, observed, c.route, p)
  {
    hide PlaceAlong, PlaceOn, IsMemberships, IsOwners, Precedes, OneEach;
    forall q ensures PlaceAlong(facts, s.components, observed, c.route, q) <==> PlaceOn(observed, s, c.route, q) {
      PlaceAlongIff(facts, observed, s, c.route, q);
    }
    if FirstRanked(facts, s.components, observed, c.route, p) {
      assert Locates(c.provenance, p.Location());
      var m :| m in c.provenance && m.Location() == p.Location();
      NeitherPrecedes(m, p);
    }
  }

  /** What is compared at a key: the places of the observed and the derived facts. */
  lemma ComparedIff(facts: seq<Fact>, observed: seq<Observed>, s: Scope, crossings: seq<Crossing>, k: string,
                    key: Keys, p: Place)
    requires IsMemberships(s.members, facts) && IsOwners(s.owners, observed) && Crosses(crossings, observed, s)
    ensures ComparedAt(facts, s.components, observed, k, key, p)
            <==> PlaceOf(observed + CrossingFacts(crossings), k, key, p)
  {
    hide FirstRanked, Evidenced, IsMemberships, IsOwners, RouteAttributes, Travelled;
    var derived := CrossingFacts(crossings);
    forall c | c in crossings ensures p in c.provenance <==> FirstRanked(facts, s.components, observed, c.route, p) {
      EvidenceIsFirstRanked(facts, observed, s, c, p);
    }
    if route :| RouteKey(route, key) == k && FirstRanked(facts, s.components, observed, route, p) {
      FirstRankedTravels(facts, observed, s, route, p);
      var c :| c in crossings && c.route == route;
      var i :| 0 <= i < |crossings| && crossings[i] == c;
      assert derived[i] == CrossingFact(c) && derived[i] in observed + derived;
    }
    if o :| o in observed && ObservedKey(o, key) == k && p in o.provenance {
      assert o in observed + derived;
    }
    if o :| o in derived && ObservedKey(o, key) == k && p in o.provenance {
      var i :| 0 <= i < |derived| && derived[i] == o;
      assert crossings[i] in crossings && o == CrossingFact(crossings[i]);
      assert RouteKey(crossings[i].route, key) == k;
    }
  }

  lemma FirstRankedTravels(facts: seq<Fact>, observed: seq<Observed>, s: Scope, route: Route, p: Place)
    requires IsMemberships(s.members, facts) && IsOwners(s.owners, observed)
    requires FirstRanked(facts, s.components, observed, route, p)
    ensures Travelled(observed, s, route)
  {
    hide Considered, RouteOf, IsMemberships, IsOwners;
    PlaceAlongIff(facts, observed, s, route, p);
  }

  /** A list without repetitions is no longer than any list that has all its elements. */
  lemma {:induction false} DistinctAtMost<T>(xs: seq<T>, ys: seq<T>)
    requires Distinct(xs) && forall x :: x in xs ==> x in ys
    ensures |xs| <= |ys|
  {
    if |xs| > 0 {
      var init, last := xs[..|xs| - 1], xs[|xs| - 1];
      assert last in xs;
      var i :| 0 <= i < |ys| && ys[i] == last;
      var others := ys[..i] + ys[i + 1..];
      forall x | x in init ensures x in others {
        assert x in xs;
        var j :| 0 <= j < |ys| && ys[j] == x;
        assert j != i;
        assert if j < i then others[j] == x else others[j - 1] == x;
      }
      DistinctAtMost(init, others);
    }
  }

  lemma TooManyIff(facts: seq<Fact>, observed: seq<Observed>, s: Scope, crossings: seq<Crossing>)
    requires IsMemberships(s.members, facts) && IsOwners(s.owners, observed) && Crosses(crossings, observed, s)
    ensures TooManyRoutes(facts, s.components, observed) <==> |crossings| > MAX_FACTS
  {
    hide EdgeAlong, Travelled, Evidenced, IsMemberships, IsOwners, MAX_FACTS;
    var routes := seq(|crossings|, k requires 0 <= k < |crossings| => crossings[k].route);
    forall route ensures route in routes <==> EdgeAlong(facts, s.components, observed, route) {
      TravelledIff(facts, observed, s, route);
      if Travelled(observed, s, route) {
        var c :| c in crossings && c.route == route;
        var i :| 0 <= i < |crossings| && crossings[i] == c;
        assert routes[i] == route;
      }
      if route in routes {
        var i :| 0 <= i < |routes| && routes[i] == route;
        assert crossings[i] in crossings;
      }
    }
    if more: seq<Route> :| |more| > MAX_FACTS && Distinct(more)
                           && forall route :: route in more ==> EdgeAlong(facts, s.components, observed, route) {
      DistinctAtMost(more, routes);
    }
  }

  // ---------- the size of the derived observation

  lemma DerivedFlat(route: Route)
    ensures FlatAttributes(RouteAttributes(route))
  {
  }

  lemma CrossesDerivable(facts: seq<Fact>, observed: seq<Observed>, s: Scope, crossings: seq<Crossing>)
    requires IsMemberships(s.members, facts) && IsOwners(s.owners, observed) && Crosses(crossings, observed, s)
    ensures Derivable(facts, s.components, observed, crossings)
  {
    hide EdgeAlong, Travelled, FirstRanked, IsMemberships, IsOwners;
    forall route ensures Travelled(observed, s, route) <==> EdgeAlong(facts, s.components, observed, route) {
      TravelledIff(facts, observed, s, route);
    }
    forall c | c in crossings ensures RanksFirst(facts, s.components, observed, c) {
      forall p ensures p in c.provenance <==> FirstRanked(facts, s.components, observed, c.route, p) {
        EvidenceIsFirstRanked(facts, observed, s, c, p);
      }
    }
  }

  lemma SamePlacesWeigh(ps: seq<Place>, qs: seq<Place>)
    requires OneEach(ps) && OneEach(qs) && forall p :: p in ps <==> p in qs
    ensures Weight(ps, PlaceNodes) == Weight(qs, PlaceNodes)
  {
    var same := (p: Place) => p;
    forall p ensures Named(ps, same, p) <==> Named(qs, same, p) {}
    MatchedWeigh(ps, qs, same, PlaceNodes);
  }

  function CrossingNodes(c: Crossing): nat
  {
    FactNodes(CrossingFact(c))
  }

  lemma {:induction false} CrossingsWeigh(crossings: seq<Crossing>)
    ensures Weight(CrossingFacts(crossings), FactNodes) == Weight(crossings, CrossingNodes)
  {
    hide FactNodes;
    if |crossings| > 0 {
      CrossingsWeigh(crossings[1..]);
      assert CrossingFacts(crossings)[1..] == CrossingFacts(crossings[1..]);
    }
  }

  /** All ways to list the derived facts have one size. */
  lemma DerivedSizeUnique(facts: seq<Fact>, components: set<string>, observed: seq<Observed>, a: seq<Crossing>,
                          b: seq<Crossing>)
    requires Derivable(facts, components, observed, a) && Derivable(facts, components, observed, b)
    ensures DerivedSize(a) == DerivedSize(b)
  {
    hide EdgeAlong, FirstRanked, PlaceNodes, RouteAttributes;
    var name := (c: Crossing) => c.route;
    forall x, y | x in a && y in b && name(x) == name(y) ensures CrossingNodes(x) == CrossingNodes(y) {
      SamePlacesWeigh(x.provenance, y.provenance);
    }
    forall route ensures Named(a, name, route) <==> Named(b, name, route) {
      NamedIsEdge(facts, components, observed, a, route);
      NamedIsEdge(facts, components, observed, b, route);
    }
    hide CrossingNodes;
    MatchedWeigh(a, b, name, CrossingNodes);
    CrossingsWeigh(a);
    CrossingsWeigh(b);
  }

  lemma NamedIsEdge(facts: seq<Fact>, components: set<string>, observed: seq<Observed>, crossings: seq<Crossing>,
                    route: Route)
    requires Derivable(facts, components, observed, crossings)
    ensures (exists c :: c in crossings && c.route == route) <==> EdgeAlong(facts, components, observed, route)
  {
    hide EdgeAlong, RanksFirst;
  }

  lemma TooLargeIff(facts: seq<Fact>, observed: seq<Observed>, s: Scope, crossings: seq<Crossing>, key: Keys)
    requires IsMemberships(s.members, facts) && IsOwners(s.owners, observed) && Crosses(crossings, observed, s)
    ensures DerivedTooLarge(facts, s.components, observed) <==>
              !Hashable(Observation(DERIVED_OBSERVER, CrossingFacts(crossings)), key)
  {
    hide Derivable, Crosses, IsMemberships, IsOwners, Hashable, FlatAttributes, RouteAttributes, Weight;
    CrossesDerivable(facts, observed, s, crossings);
    forall other | Derivable(facts, s.components, observed, other)
      ensures DerivedSize(other) == DerivedSize(crossings)
    {
      DerivedSizeUnique(facts, s.components, observed, other, crossings);
    }
    forall o | o in CrossingFacts(crossings) ensures FlatAttributes(o.attributes) {
      var i :| 0 <= i < |crossings| && o == CrossingFact(crossings[i]);
      DerivedFlat(crossings[i].route);
    }
    FlatHashable(Observation(DERIVED_OBSERVER, CrossingFacts(crossings)), key);
  }

  // ---------- differences that cannot be reported

  lemma SeenIff(facts: seq<Fact>, observed: seq<Observed>, s: Scope, crossings: seq<Crossing>, k: string, key: Keys)
    requires IsMemberships(s.members, facts) && IsOwners(s.owners, observed) && Crosses(crossings, observed, s)
    ensures Compared(facts, s.components, observed, k, key) <==> Seen(observed + CrossingFacts(crossings), k, key)
  {
    hide EdgeAlong, Travelled, Evidenced, IsMemberships, IsOwners, RouteAttributes;
    var derived := CrossingFacts(crossings);
    if o :| o in observed && ObservedKey(o, key) == k {
      assert o in observed + derived;
    }
    if route :| EdgeAlong(facts, s.components, observed, route) && RouteKey(route, key) == k {
      TravelledIff(facts, observed, s, route);
      var c :| c in crossings && c.route == route;
      var i :| 0 <= i < |crossings| && crossings[i] == c;
      assert derived[i] in observed + derived;
    }
    if o :| o in derived && ObservedKey(o, key) == k {
      var i :| 0 <= i < |derived| && derived[i] == o;
      assert crossings[i] in crossings;
      TravelledIff(facts, observed, s, crossings[i].route);
      assert RouteKey(crossings[i].route, key) == k;
    }
  }

  /** Once no observed fact is nested, only approved facts that drift can be unreportable. */
  lemma UnreportableIff(facts: seq<Fact>, observed: seq<Observed>, s: Scope, crossings: seq<Crossing>, key: Keys)
    requires IsMemberships(s.members, facts) && IsOwners(s.owners, observed) && Crosses(crossings, observed, s)
    requires forall o :: o in observed ==> !Nested(o.attributes)
    ensures Unreportable(facts, observed + CrossingFacts(crossings), key) <==>
              exists f :: f in facts && NestedDrift(facts, s.components, observed, f, key)
  {
    hide Compared, Seen, Nested, IsMemberships, IsOwners, Crosses, RouteAttributes, WithKey;
    var all := observed + CrossingFacts(crossings);
    forall k ensures !UnreportableKey(all, k, key) {
      var group := WithKey(all, k, key);
      if |group| > 0 {
        InWithKey(all, k, key, group[0]);
        assert group[0] in group;
        if group[0] !in observed {
          var i :| 0 <= i < |crossings| && group[0] == CrossingFact(crossings[i]);
          DerivedFlat(crossings[i].route);
          FlatNotNested(group[0].attributes);
        }
      }
    }
    forall f
      ensures Compared(facts, s.components, observed, FactKey(f, key), key) <==> Seen(all, FactKey(f, key), key)
    {
      SeenIff(facts, observed, s, crossings, FactKey(f, key), key);
    }
  }

  lemma DisputedIff(facts: seq<Fact>, observed: seq<Observed>, s: Scope, crossings: seq<Crossing>, key: Keys)
    requires IsMemberships(s.members, facts) && IsOwners(s.owners, observed) && Crosses(crossings, observed, s)
    ensures ComparisonDisputed(facts, s.components, observed, key) <==>
              exists k :: Disputed(observed + CrossingFacts(crossings), k, key)
  {
    hide ComparedAt, PlaceOf, Crosses, IsMemberships, IsOwners, CrossingFacts;
    forall k, p
      ensures ComparedAt(facts, s.components, observed, k, key, p)
              <==> PlaceOf(observed + CrossingFacts(crossings), k, key, p)
    {
      ComparedIff(facts, observed, s, crossings, k, key, p);
    }
    var all := observed + CrossingFacts(crossings);
    if ComparisonDisputed(facts, s.components, observed, key) {
      var k, p, q :|
        && ComparedAt(facts, s.components, observed, k, key, p)
        && ComparedAt(facts, s.components, observed, k, key, q)
        && p.Location() == q.Location() && p != q;
      assert Disputed(all, k, key);
    }
    if k :| Disputed(all, k, key) {
      var p, q :| PlaceOf(all, k, key, p) && PlaceOf(all, k, key, q) && p.Location() == q.Location() && p != q;
      assert ComparedAt(facts, s.components, observed, k, key, p)
             && ComparedAt(facts, s.components, observed, k, key, q);
    }
  }

  /** What the comparison with the derived facts refuses is decided by topology and observations. */
  lemma IncomparableIff(facts: seq<Fact>, observed: seq<Observed>, s: Scope, crossings: seq<Crossing>, key: Keys)
    requires IsMemberships(s.members, facts) && IsOwners(s.owners, observed) && Crosses(crossings, observed, s)
    requires forall o :: o in observed ==> !Nested(o.attributes)
    ensures var derived := CrossingFacts(crossings);
            Incomparable(facts, s.components, observed, key) <==>
              || |derived| > MAX_FACTS || !Hashable(Observation(DERIVED_OBSERVER, derived), key)
              || (exists k :: Disputed(observed + derived, k, key))
              || Unreportable(facts, observed + derived, key)
  {
    hide TooManyRoutes, DerivedTooLarge, ComparisonDisputed, NestedDrift, Disputed, Unreportable, Hashable, Crosses;
    hide IsMemberships, IsOwners, MAX_FACTS, Nested;
    TooManyIff(facts, observed, s, crossings);
    TooLargeIff(facts, observed, s, crossings, key);
    DisputedIff(facts, observed, s, crossings, key);
    UnreportableIff(facts, observed, s, crossings, key);
  }

  // ---------- what a faithful key leaves of the disputes

  /** A fact whose key the evaluation looks at: approved, observed, or derived from an edge. */
  ghost predicate Keyed(facts: seq<Fact>, components: set<string>, observed: seq<Observed>, a: Observed)
  {
    || a in observed
    || (exists f :: f in facts && a == Observed(f.kind, f.source, f.target, f.attributes, a.provenance))
    || exists route ::
         EdgeAlong(facts, components, observed, route) && a == CrossingFact(Crossing(route, a.provenance))
  }

  predicate SameFact(a: Observed, b: Observed)
  {
    a.kind == b.kind && a.source == b.source && a.target == b.target && a.attributes == b.attributes
  }

  /** Among the facts of this evaluation, different facts have different keys: no two digests collide. */
  ghost predicate Separates(facts: seq<Fact>, components: set<string>, observed: seq<Observed>, key: Keys)
  {
    forall a, b | Keyed(facts, components, observed, a) && Keyed(facts, components, observed, b) ::
      ObservedKey(a, key) == ObservedKey(b, key) ==> SameFact(a, b)
  }

  /** An observed fact is already what the evaluation derives for a route, and gives some location another record. */
  ghost predicate RivalRecord(facts: seq<Fact>, components: set<string>, observed: seq<Observed>)
  {
    exists o, route, p, q ::
      && o in observed && o == CrossingFact(Crossing(route, o.provenance)) && p in o.provenance
      && FirstRanked(facts, components, observed, route, q) && p.Location() == q.Location() && p != q
  }

  lemma SameRouteSameRecord(facts: seq<Fact>, components: set<string>, observed: seq<Observed>, route: Route,
                            p: Place, q: Place)
    requires FirstRanked(facts, components, observed, route, p) && FirstRanked(facts, components, observed, route, q)
    requires p.Location() == q.Location()
    ensures p == q
  {
    hide PlaceAlong, Precedes;
    NeitherPrecedes(p, q);
  }

  lemma FirstRankedIsEdge(facts: seq<Fact>, components: set<string>, observed: seq<Observed>, route: Route, p: Place)
    requires FirstRanked(facts, components, observed, route, p)
    ensures EdgeAlong(facts, components, observed, route)
  {
    hide Considered, Connects;
  }

  lemma SameKeySameRoute(facts: seq<Fact>, components: set<string>, observed: seq<Observed>, a: Route, b: Route,
                         key: Keys)
    requires Separates(facts, components, observed, key) && RouteKey(a, key) == RouteKey(b, key)
    requires EdgeAlong(facts, components, observed, a) && EdgeAlong(facts, components, observed, b)
    ensures a == b
  {
    hide RouteAttributes, EdgeAlong;
    var x, y := CrossingFact(Crossing(a, [])), CrossingFact(Crossing(b, []));
    assert ObservedKey(x, key) == ObservedKey(y, key);
    assert Keyed(facts, components, observed, x) && Keyed(facts, components, observed, y);
    RoutesApart(a, b);
  }

  /** An observed fact with the key of an edge's route is the fact that is derived for the route. */
  lemma SameKeySameFact(facts: seq<Fact>, components: set<string>, observed: seq<Observed>, o: Observed,
                        route: Route, key: Keys)
    requires Separates(facts, components, observed, key) && ObservedKey(o, key) == RouteKey(route, key)
    requires o in observed && EdgeAlong(facts, components, observed, route)
    ensures o == CrossingFact(Crossing(route, o.provenance))
  {
    hide RouteAttributes, EdgeAlong;
    var x := CrossingFact(Crossing(route, []));
    assert ObservedKey(x, key) == ObservedKey(o, key);
    assert Keyed(facts, components, observed, x) && Keyed(facts, components, observed, o);
  }

  /**
   * Derived facts never dispute each other: unless two facts collide, the comparison is disputed
   * exactly when the inputs already are, or one of them rivals a derived fact.
   */
  lemma DerivedNeverDispute(facts: seq<Fact>, components: set<string>, observed: seq<Observed>, key: Keys)
    requires Separates(facts, components, observed, key)
    ensures ComparisonDisputed(facts, components, observed, key) <==>
              (exists k :: Disputed(observed, k, key)) || RivalRecord(facts, components, observed)
  {
    hide FirstRanked, Separates, RouteAttributes;
    if k, p, q :|
      && ComparedAt(facts, components, observed, k, key, p)
      && ComparedAt(facts, components, observed, k, key, q)
      && p.Location() == q.Location() && p != q {
      if PlaceOf(observed, k, key, p) && PlaceOf(observed, k, key, q) {
        assert Disputed(observed, k, key);
      } else if PlaceOf(observed, k, key, p) {
        RivalFrom(facts, components, observed, k, key, p, q);
      } else if PlaceOf(observed, k, key, q) {
        RivalFrom(facts, components, observed, k, key, q, p);
      } else {
        var a :| RouteKey(a, key) == k && FirstRanked(facts, components, observed, a, p);
        var b :| RouteKey(b, key) == k && FirstRanked(facts, components, observed, b, q);
        FirstRankedIsEdge(facts, components, observed, a, p);
        FirstRankedIsEdge(facts, components, observed, b, q);
        SameKeySameRoute(facts, components, observed, a, b, key);
        SameRouteSameRecord(facts, components, observed, a, p, q);
      }
    }
    if k :| Disputed(observed, k, key) {
      var p, q :| PlaceOf(observed, k, key, p) && PlaceOf(observed, k, key, q) && p.Location() == q.Location()
        && p != q;
      assert ComparedAt(facts, components, observed, k, key, p) && ComparedAt(facts, components, observed, k, key, q);
    }
    if RivalRecord(facts, components, observed) {
      RivalDisputes(facts, components, observed, key);
    }
  }

  lemma RivalFrom(facts: seq<Fact>, components: set<string>, observed: seq<Observed>, k: string, key: Keys,
                  p: Place, q: Place)
    requires Separates(facts, components, observed, key)
    requires PlaceOf(observed, k, key, p) && !PlaceOf(observed, k, key, q)
    requires ComparedAt(facts, components, observed, k, key, q) && p.Location() == q.Location() && p != q
    ensures RivalRecord(facts, components, observed)
  {
    hide FirstRanked, Separates, RouteAttributes;
    var route :| RouteKey(route, key) == k && FirstRanked(facts, components, observed, route, q);
    var o :| o in observed && ObservedKey(o, key) == k && p in o.provenance;
    FirstRankedIsEdge(facts, components, observed, route, q);
    SameKeySameFact(facts, components, observed, o, route, key);
  }

  lemma RivalDisputes(facts: seq<Fact>, components: set<string>, observed: seq<Observed>, key: Keys)
    requires RivalRecord(facts, components, observed)
    ensures ComparisonDisputed(facts, components, observed, key)
  {
    hide FirstRanked, RouteAttributes;
    var o, route, p, q :|
      && o in observed && o == CrossingFact(Crossing(route, o.provenance)) && p in o.provenance
      && FirstRanked(facts, components, observed, route, q) && p.Location() == q.Location() && p != q;
    var k := RouteKey(route, key);
    assert ObservedKey(o, key) == k && PlaceOf(observed, k, key, p);
    assert ComparedAt(facts, components, observed, k, key, p) && ComparedAt(facts, components, observed, k, key, q);
  }
}
