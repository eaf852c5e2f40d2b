/** Trust-boundary evaluation as a whole: when it refuses, and what its report says (architecture_security_drift.py). */
module TrustReport {
  import opened Prelude
  import opened FactAttributes
  import opened ArchitectureDrift
  import opened TrustBoundary
  import opened TrustCrossings
  import opened TrustEvaluation
  import opened TrustSecurity
  import opened DerivedFacts

  // ---------- the report

  /** Each observation is within the limits on JSON, and none repeats an observer or claims the reserved one. */
  ghost predicate InputsOk(observations: seq<Observation>, key: Keys)
  {
    AllHashable(observations, key) && Observers(observations)
  }

  predicate Observers(observations: seq<Observation>)
  {
    DistinctObservers(observations) && forall n :: n in observations ==> n.observer != DERIVED_OBSERVER
  }

  /** _observations: sorting them takes the digest of each. */
  method CheckObservations(observations: seq<Observation>, key: Keys) returns (ok: bool)
    ensures ok <==> InputsOk(observations, key)
  {
    hide AllHashable;
    if !AllHashable(observations, key) {
      return false;
    }
    var seen: set<string> := {};
    for i := 0 to |observations|
      invariant Observers(observations[..i])
      invariant forall name :: name in seen <==> exists j :: 0 <= j < i && observations[j].observer == name
    {
      assert observations[..i + 1] == observations[..i] + [observations[i]];
      assert observations[i] in observations;
      if observations[i].observer == DERIVED_OBSERVER || observations[i].observer in seen {
        return false;
      }
      seen := seen + {observations[i].observer};
    }
    assert observations[..|observations|] == observations;
    return true;
  }

  /** The inputs of the security part cannot be judged. */
  ghost predicate Refused(facts: seq<Fact>, components: set<string>, observed: seq<Observed>)
  {
    || !TopologySound(facts, components)
    || OwnershipAmbiguous(observed)
    || (exists o :: o in observed && Nested(o.attributes))
    || (exists o :: o in observed && !EvidenceValid(o))
    || (exists o :: o in observed && AttestationFact(o) && !AttestationValid(o))
    || (exists route :: EdgeAlong(facts, components, observed, route) && GatewayConflict(RulesOf(facts), route))
    || exists route ::
         && EdgeAlong(facts, components, observed, route)
         && Unspeakable(RulesOf(facts), route, Attestations(observed))
  }

  /** The parts of an evaluation that its report is put together from. */
  datatype Run = Run(scope: Scope, crossings: seq<Crossing>, base: seq<Finding>, lost: seq<Finding>,
    judged: seq<Finding>, missing: seq<Finding>)

  /** The findings that are not about trust boundaries. */
  function Others(findings: seq<Finding>): (others: seq<Finding>)
    ensures forall x :: x in others <==> x in findings && !x.kind.TrustBoundary?
  {
    if |findings| == 0 then []
    else
      assert forall x :: x in findings <==> x == findings[0] || x in findings[1..];
      (if findings[0].kind.TrustBoundary? then [] else [findings[0]]) + Others(findings[1..])
  }

  /**
   * These findings are the report of a run: the other differences between the topology and the
   * observations with the derived facts, then lost edges, verdicts and unwitnessed rules.
   */
  ghost predicate IsReport(findings: seq<Finding>, facts: seq<Fact>, components: set<string>,
                           observed: seq<Observed>, key: Keys, run: Run)
  {
    && run.scope.components == components
    && Evaluated(facts, observed, run.scope, run.crossings, run.lost, run.judged, run.missing)
    && Differences(run.base, facts, observed + CrossingFacts(run.crossings), key)
    && findings == Others(run.base) + (run.lost + run.judged + run.missing)
  }

  lemma RefusedMeans(facts: seq<Fact>, components: set<string>, observed: seq<Observed>)
    ensures Refused(facts, components, observed) <==>
              (!TopologySound(facts, components)
               || OwnershipAmbiguous(observed)
               || (exists o :: o in observed && !Usable(o))
               || (exists o :: o in observed && !Attestable(o))
               || exists route ::
                    && EdgeAlong(facts, components, observed, route)
                    && Unjudgeable(RulesOf(facts), route, Attestations(observed)))
    ensures forall o :: Usable(o) ==> !Nested(o.attributes)
  {
    hide TopologySound, OwnershipAmbiguous, EvidenceValid, AttestationValid, EdgeAlong, GatewayConflict, Unspeakable;
    hide RulesOf, Attestations, Nested;
  }

  lemma OneMoreObserver(observations: seq<Observation>, derived: seq<Observed>, key: Keys)
    requires InputsOk(observations, key)
    ensures var n := Observation(DERIVED_OBSERVER, derived);
            && DistinctObservers(observations + [n])
            && (AllHashable(observations + [n], key) <==> Hashable(n, key))
            && AllFacts(observations + [n]) == AllFacts(observations) + derived
  {
    hide Hashable;
    var n := Observation(DERIVED_OBSERVER, derived);
    assert n in observations + [n];
    AllFactsAppend(observations, n);
  }

  lemma UnjudgeableIff(facts: seq<Fact>, observed: seq<Observed>, s: Scope, crossings: seq<Crossing>)
    requires IsMemberships(s.members, facts) && IsOwners(s.owners, observed) && Crosses(crossings, observed, s)
    ensures (exists c :: c in crossings && Unjudgeable(RulesOf(facts), c.route, Attestations(observed))) <==>
            exists route ::
              && EdgeAlong(facts, s.components, observed, route)
              && Unjudgeable(RulesOf(facts), route, Attestations(observed))
  {
    hide Travelled, EdgeAlong, IsMemberships, IsOwners, Evidenced, Unjudgeable, RulesOf, Attestations;
    forall route ensures Travelled(observed, s, route) <==> EdgeAlong(facts, s.components, observed, route) {
      TravelledIff(facts, observed, s, route);
    }
  }

  /** A report has no boundary finding exactly under complete mediation. */
  lemma ReportMediation(findings: seq<Finding>, facts: seq<Fact>, components: set<string>,
                        observed: seq<Observed>, key: Keys, run: Run)
    requires IsReport(findings, facts, components, observed, key, run)
    ensures (forall x :: x in findings ==> !x.kind.TrustBoundary?) <==> CompletelyMediated(facts, components, observed)
  {
    hide Crosses, Judgements, MissingRequired, IsMemberships, IsOwners, RulesOf, Attestations,
         CompletelyMediated, LostFindings, Differences, CrossingFacts;
    CompleteMediation(facts, observed, run.scope, run.crossings, run.lost, run.judged, run.missing);
    NothingLostIff(observed, run.scope);
    NoJudgementsIff(run.judged, run.crossings, RulesOf(facts), Attestations(observed));
    NoneMissingIff(RulesOf(facts), run.crossings);
    var security := run.lost + run.judged + run.missing;
    if |security| > 0 {
      assert security[0] in security && security[0] in findings;
    }
  }

  /**
   * evaluate_trust_boundary_security: it refuses exactly on inputs that cannot be judged or
   * compared; otherwise the report is that of a run, and has no boundary finding exactly when
   * the architecture is completely mediated.
   */
  method EvaluateSecurity(facts: seq<Fact>, components: set<string>, observations: seq<Observation>, key: Keys)
    returns (r: Result<seq<Finding>, Failure>)
    ensures r.Err? <==> !InputsOk(observations, key) || Refused(facts, components, AllFacts(observations))
                        || Incomparable(facts, components, AllFacts(observations), key)
    ensures r.Ok? ==> exists run :: IsReport(r.value, facts, components, AllFacts(observations), key, run)
    ensures r.Ok? ==> ((forall x :: x in r.value ==> !x.kind.TrustBoundary?) <==>
                        CompletelyMediated(facts, components, AllFacts(observations)))
  {
    hide *;
    var ok := CheckObservations(observations, key);
    if !ok {
      return Err(BadInput);
    }
    var observed := AllFacts(observations);
    RefusedMeans(facts, components, observed);
    var topology := ParseTopology(facts, components);
    if topology.Err? {
      return Err(topology.error);
    }
    var rules := topology.value.rules;
    var deriving, owners := DeriveCrossings(components, observed, topology.value.members);
    if deriving.Err? {
      return Err(deriving.error);
    }
    var (crossings, lost) := deriving.value;
    ghost var s := Scope(components, topology.value.members, owners);
    var derived := CrossingFacts(crossings);
    IncomparableIff(facts, observed, s, crossings, key);
    if |derived| > MAX_FACTS {
      return Err(BadArchitecture);
    }
    OneMoreObserver(observations, derived, key);
    var base := CompareArchitecture(facts, observations + [Observation(DERIVED_OBSERVER, derived)], key);
    if base.Err? {
      return Err(BadArchitecture);
    }
    var attested := ControlAttestations(observed);
    if attested.Err? {
      return Err(attested.error);
    }
    UnjudgeableIff(facts, observed, s, crossings);
    var judged := JudgeCrossings(crossings, rules, attested.value);
    if judged.Err? {
      return Err(judged.error);
    }
    var missing := RequiredRules(rules, crossings);
    var findings := Others(base.value) + (lost + judged.value + missing);
    ghost var run := Run(s, crossings, base.value, lost, judged.value, missing);
    Reported(findings, facts, observed, key, run);
    ReportMediation(findings, facts, components, observed, key, run);
    return Ok(findings);
  }

  lemma Reported(findings: seq<Finding>, facts: seq<Fact>, observed: seq<Observed>, key: Keys, run: Run)
    requires IsMemberships(run.scope.members, facts) && IsOwners(run.scope.owners, observed)
    requires Crosses(run.crossings, observed, run.scope) && run.lost == LostFindings(observed, run.scope)
    requires Judgements(run.judged, run.crossings, RulesOf(facts), Attestations(observed))
    requires run.missing == MissingRequired(RulesOf(facts), run.crossings)
    requires Differences(run.base, facts, observed + CrossingFacts(run.crossings), key)
    requires findings == Others(run.base) + (run.lost + run.judged + run.missing)
    ensures IsReport(findings, facts, run.scope.components, observed, key, run)
  {
  }

  // ---------- the other findings of a report

  /** Among the facts of this evaluation, those with one key are of one kind. */
  ghost predicate KindsApart(facts: seq<Fact>, components: set<string>, observed: seq<Observed>, key: Keys)
  {
    forall a, b | Keyed(facts, components, observed, a) && Keyed(facts, components, observed, b) ::
      ObservedKey(a, key) == ObservedKey(b, key) ==> a.kind == b.kind
  }

  /** These boundary facts share no key with a fact of another kind. */
  ghost predicate SetApart(facts: seq<Fact>, observed: seq<Observed>, derived: seq<Observed>, key: Keys)
  {
    && (forall d :: d in derived ==> d.kind.TrustBoundary?)
    && (forall f, d :: f in facts && d in observed + derived && ObservedKey(d, key) == FactKey(f, key) ==>
          d.kind == f.kind)
    && (forall o, d :: o in observed && d in observed + derived && ObservedKey(d, key) == ObservedKey(o, key) ==>
          d.kind == o.kind)
  }

  /** The findings of other kinds are the differences of other kinds between the topology and the observations. */
  ghost predicate OtherDifferences(findings: seq<Finding>, facts: seq<Fact>, observed: seq<Observed>, key: Keys)
  {
    && (forall x :: x in findings && !x.kind.TrustBoundary? ==> Explained(x, facts, observed, key))
    && (forall f :: f in facts && !f.kind.TrustBoundary? ==> Judged(findings, f, observed, key))
    && (forall o :: o in observed && !o.kind.TrustBoundary? ==>
          Approved(facts, ObservedKey(o, key), key) || ReportsKey(findings, observed, ObservedKey(o, key), key))
  }

  /** A key of another kind is seen, and evidenced, by the given facts alone. */
  lemma KeyElsewhere(observed: seq<Observed>, derived: seq<Observed>, k: string, key: Keys)
    requires forall d :: d in derived ==> ObservedKey(d, key) != k
    ensures Seen(observed + derived, k, key) <==> Seen(observed, k, key)
    ensures forall p :: PlaceOf(observed + derived, k, key, p) <==> PlaceOf(observed, k, key, p)
  {
  }

  lemma FactElsewhere(facts: seq<Fact>, observed: seq<Observed>, derived: seq<Observed>, key: Keys, f: Fact)
    requires SetApart(facts, observed, derived, key) && f in facts && !f.kind.TrustBoundary?
    ensures var k := FactKey(f, key);
            && (Seen(observed + derived, k, key) <==> Seen(observed, k, key))
            && (forall p :: PlaceOf(observed + derived, k, key, p) <==> PlaceOf(observed, k, key, p))
  {
    forall d | d in derived ensures ObservedKey(d, key) != FactKey(f, key) {
      assert d in observed + derived;
    }
    KeyElsewhere(observed, derived, FactKey(f, key), key);
  }

  lemma ExplainedElsewhere(x: Finding, facts: seq<Fact>, observed: seq<Observed>, derived: seq<Observed>, key: Keys)
    requires SetApart(facts, observed, derived, key) && !x.kind.TrustBoundary?
    requires Explained(x, facts, observed + derived, key)
    ensures Explained(x, facts, observed, key)
  {
    hide Seen, PlaceOf, Approved;
    if x.code.UnexpectedFactPresent? {
      var o :| o in observed + derived && Unexpected(x, o) && !Approved(facts, ObservedKey(o, key), key)
               && ProvenanceOf(x.provenance, observed + derived, ObservedKey(o, key), key);
      assert o in observed;
      forall d | d in derived ensures ObservedKey(d, key) != ObservedKey(o, key) {
        assert d in observed + derived;
      }
      KeyElsewhere(observed, derived, ObservedKey(o, key), key);
    } else {
      forall f | f in facts && !f.kind.TrustBoundary?
        ensures Seen(observed + derived, FactKey(f, key), key) <==> Seen(observed, FactKey(f, key), key)
        ensures forall p ::
                  PlaceOf(observed + derived, FactKey(f, key), key, p) <==> PlaceOf(observed, FactKey(f, key), key, p)
      {
        FactElsewhere(facts, observed, derived, key, f);
      }
    }
  }

  /** Dropping boundary findings and adding others of that kind keeps what is said about a fact of another kind. */
  lemma JudgedElsewhere(base: seq<Finding>, security: seq<Finding>, facts: seq<Fact>, f: Fact,
                        observed: seq<Observed>, derived: seq<Observed>, key: Keys)
    requires SetApart(facts, observed, derived, key) && f in facts && !f.kind.TrustBoundary?
    requires Judged(base, f, observed + derived, key)
    ensures Judged(Others(base) + security, f, observed, key)
  {
    hide Seen, PlaceOf, SetApart;
    FactElsewhere(facts, observed, derived, key, f);
    forall code | Reports(base, code, f) ensures Reports(Others(base) + security, code, f) {
      var x :| x in base && x.code == code && About(x, f);
      assert x in Others(base) + security;
    }
  }

  lemma ReportedElsewhere(base: seq<Finding>, security: seq<Finding>, facts: seq<Fact>, o: Observed,
                          observed: seq<Observed>, derived: seq<Observed>, key: Keys)
    requires SetApart(facts, observed, derived, key) && o in observed && !o.kind.TrustBoundary?
    requires ReportsKey(base, observed + derived, ObservedKey(o, key), key)
    ensures ReportsKey(Others(base) + security, observed, ObservedKey(o, key), key)
  {
    var x, d :| x in base && d in observed + derived && ObservedKey(d, key) == ObservedKey(o, key) && Unexpected(x, d);
    assert d.kind == o.kind;
    assert x in Others(base) + security;
  }

  lemma DerivedSetApart(facts: seq<Fact>, observed: seq<Observed>, s: Scope, crossings: seq<Crossing>, key: Keys)
    requires KindsApart(facts, s.components, observed, key)
    requires IsMemberships(s.members, facts) && IsOwners(s.owners, observed) && Crosses(crossings, observed, s)
    ensures SetApart(facts, observed, CrossingFacts(crossings), key)
  {
    hide IsMemberships, IsOwners, RouteAttributes, EdgeAlong, Travelled, Evidenced;
    var derived := CrossingFacts(crossings);
    forall d | d in observed + derived
      ensures Keyed(facts, s.components, observed, d) && (d in derived ==> d.kind.TrustBoundary?)
    {
      if d in derived {
        var i :| 0 <= i < |derived| && derived[i] == d;
        assert crossings[i] in crossings;
        TravelledIff(facts, observed, s, crossings[i].route);
      }
    }
    forall f, d | f in facts && d in observed + derived && ObservedKey(d, key) == FactKey(f, key)
      ensures d.kind == f.kind
    {
      var a := Observed(f.kind, f.source, f.target, f.attributes, []);
      assert Keyed(facts, s.components, observed, a) && ObservedKey(a, key) == ObservedKey(d, key);
    }
  }

  /** Unless facts of different kinds collide, the other findings have a cause and cover the other differences. */
  lemma OthersAreDifferences(findings: seq<Finding>, facts: seq<Fact>, components: set<string>,
                             observed: seq<Observed>, key: Keys, run: Run)
    requires KindsApart(facts, components, observed, key) && IsReport(findings, facts, components, observed, key, run)
    ensures OtherDifferences(findings, facts, observed, key)
  {
    var derived, security := CrossingFacts(run.crossings), run.lost + run.judged + run.missing;
    hide SetApart, KindsApart, CrossingFacts, Explained, Judged, ReportsKey, Approved, Crosses, IsMemberships;
    hide IsOwners, Judgements, MissingRequired, LostFindings;
    DerivedSetApart(facts, observed, run.scope, run.crossings, key);
    SecurityIsBoundary(facts, observed, run);
    DifferencesCover(run.base, facts, observed + derived, key);
    hide Evaluated, Differences;
    forall x | x in findings && !x.kind.TrustBoundary? ensures Explained(x, facts, observed, key) {
      ExplainedElsewhere(x, facts, observed, derived, key);
    }
    forall f | f in facts && !f.kind.TrustBoundary? ensures Judged(findings, f, observed, key) {
      JudgedElsewhere(run.base, security, facts, f, observed, derived, key);
    }
    forall o | o in observed && !o.kind.TrustBoundary? && !Approved(facts, ObservedKey(o, key), key)
      ensures ReportsKey(findings, observed, ObservedKey(o, key), key)
    {
      assert o in observed + derived;
      ReportedElsewhere(run.base, security, facts, o, observed, derived, key);
    }
  }

  lemma SecurityIsBoundary(facts: seq<Fact>, observed: seq<Observed>, run: Run)
    requires Evaluated(facts, observed, run.scope, run.crossings, run.lost, run.judged, run.missing)
    ensures forall x :: x in run.lost + run.judged + run.missing ==> x.kind.TrustBoundary?
  {
    hide Crosses, Judgements, MissingRequired, IsMemberships, IsOwners, RulesOf, Attestations, LostFindings;
    NothingLostIff(observed, run.scope);
    NoJudgementsIff(run.judged, run.crossings, RulesOf(facts), Attestations(observed));
    NoneMissingIff(RulesOf(facts), run.crossings);
  }
}
