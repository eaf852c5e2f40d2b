/**
 * The whole trust-boundary evaluation: no boundary finding exactly when every cross-zone edge is
 * mediated (architecture_security_drift.py).
 */
module TrustSecurity {
  import opened Prelude
  import Json
  import opened ArchitectureDrift
  import opened TrustBoundary
  import opened TrustCrossings
  import opened TrustEvaluation

  // ---------- the loops of _evaluate_crossings

  /** One verdict for each crossing that is not mediated, in crossing order. */
  ghost predicate Judgements(findings: seq<Finding>, crossings: seq<Crossing>, rules: seq<Rule>,
                             attested: set<Attestation>)
    decreases |crossings|
  {
    if |crossings| == 0 then findings == []
    else
      var init, last := crossings[..|crossings| - 1], crossings[|crossings| - 1];
      if Mediated(last.route, rules, attested) then Judgements(findings, init, rules, attested)
      else
        && |findings| > 0 && Verdict(findings[|findings| - 1], last, rules, attested)
        && Judgements(findings[..|findings| - 1], init, rules, attested)
  }

  lemma {:induction false} NoJudgementsIff(findings: seq<Finding>, crossings: seq<Crossing>, rules: seq<Rule>,
                                           attested: set<Attestation>)
    requires Judgements(findings, crossings, rules, attested)
    ensures findings == [] <==> forall c :: c in crossings ==> Mediated(c.route, rules, attested)
    ensures forall x :: x in findings ==> x.kind.TrustBoundary?
    decreases |crossings|
  {
    hide Mediated;
    if |crossings| > 0 {
      var init, last := crossings[..|crossings| - 1], crossings[|crossings| - 1];
      assert crossings == init + [last];
      if Mediated(last.route, rules, attested) {
        NoJudgementsIff(findings, init, rules, attested);
      } else {
        NoJudgementsIff(findings[..|findings| - 1], init, rules, attested);
        assert last in crossings;
        assert findings == findings[..|findings| - 1] + [findings[|findings| - 1]];
      }
    }
  }

  /** Findings and crossings fix each other: there is only one list of judgements. */
  lemma {:induction false} JudgementsUnique(a: seq<Finding>, b: seq<Finding>, crossings: seq<Crossing>,
                                            rules: seq<Rule>, attested: set<Attestation>)
    requires Judgements(a, crossings, rules, attested) && Judgements(b, crossings, rules, attested)
    ensures a == b
    decreases |crossings|
  {
    hide Mediated, Verdict;
    if |crossings| > 0 {
      var init, last := crossings[..|crossings| - 1], crossings[|crossings| - 1];
      if Mediated(last.route, rules, attested) {
        JudgementsUnique(a, b, init, rules, attested);
      } else {
        JudgementsUnique(a[..|a| - 1], b[..|b| - 1], init, rules, attested);
        VerdictUnique(a[|a| - 1], b[|b| - 1], last, rules, attested);
        assert a == a[..|a| - 1] + [a[|a| - 1]] && b == b[..|b| - 1] + [b[|b| - 1]];
      }
    }
  }

  /** No finding can be given and none can be withheld: gateways conflict, or the finding cannot be made. */
  ghost predicate Unjudgeable(rules: seq<Rule>, route: Route, attested: set<Attestation>)
  {
    GatewayConflict(rules, route) || Unspeakable(rules, route, attested)
  }

  /** The first crossing that cannot be judged, and which refusal that is. */
  ghost predicate StuckAt(crossings: seq<Crossing>, i: nat, rules: seq<Rule>, attested: set<Attestation>,
                          error: Failure)
  {
    && i < |crossings| && Unjudgeable(rules, crossings[i].route, attested)
    && (forall j :: 0 <= j < i ==> !Unjudgeable(rules, crossings[j].route, attested))
    && error == (if GatewayConflict(rules, crossings[i].route) then Ambiguous else BadArchitecture)
  }

  method JudgeCrossings(crossings: seq<Crossing>, rules: seq<Rule>, attested: set<Attestation>)
    returns (r: Result<seq<Finding>, Failure>)
    ensures r.Err? <==> exists c :: c in crossings && Unjudgeable(rules, c.route, attested)
    ensures r.Err? ==> exists i :: StuckAt(crossings, i, rules, attested, r.error)
    ensures r.Ok? ==> Judgements(r.value, crossings, rules, attested)
  {
    hide Mediated, Verdict, GatewayConflict, Unspeakable;
    var findings: seq<Finding> := [];
    for i := 0 to |crossings|
      invariant forall j :: 0 <= j < i ==> !Unjudgeable(rules, crossings[j].route, attested)
      invariant Judgements(findings, crossings[..i], rules, attested)
    {
      assert crossings[..i + 1] == crossings[..i] + [crossings[i]] && crossings[..i + 1][..i] == crossings[..i];
      var judged := JudgeCrossing(crossings[i], rules, attested);
      if judged.Err? {
        assert crossings[i] in crossings && StuckAt(crossings, i, rules, attested, judged.error);
        return Err(judged.error);
      }
      if judged.value.Some? {
        assert (findings + [judged.value.value])[..|findings|] == findings;
        findings := findings + [judged.value.value];
      }
    }
    assert crossings[..|crossings|] == crossings;
    return Ok(findings);
  }

  /** A crossing that a rule asks for: along its dimensions, and into its gateway when it has one. */
  predicate Witnesses(route: Route, r: Rule)
  {
    DimensionMatch(r, route, true) && (r.gateway.Some? ==> route.edge.target == r.gateway.value)
  }

  ghost predicate Witnessed(r: Rule, crossings: seq<Crossing>)
  {
    exists c :: c in crossings && Witnesses(c.route, r)
  }

  function RequiredFinding(r: Rule): Finding
  {
    Finding(RequiredBoundaryMissing, TrustBoundary, r.fromZone, r.toZone, Some(r.id), [], [])
  }

  /** One finding for each required rule that no crossing witnesses, in rule order. */
  ghost function MissingRequired(rules: seq<Rule>, crossings: seq<Crossing>): seq<Finding>
  {
    if |rules| == 0 then []
    else
      var before, last := MissingRequired(rules[..|rules| - 1], crossings), rules[|rules| - 1];
      if last.mode.Required? && !Witnessed(last, crossings) then before + [RequiredFinding(last)] else before
  }

  lemma {:induction false} NoneMissingIff(rules: seq<Rule>, crossings: seq<Crossing>)
    ensures MissingRequired(rules, crossings) == [] <==>
              forall r :: r in rules && r.mode.Required? ==> Witnessed(r, crossings)
    ensures forall x :: x in MissingRequired(rules, crossings) ==> x.kind.TrustBoundary?
  {
    hide Witnessed;
    if |rules| > 0 {
      var init, last := rules[..|rules| - 1], rules[|rules| - 1];
      NoneMissingIff(init, crossings);
      assert rules == init + [last];
      assert last in rules;
    }
  }

  method RequiredRules(rules: seq<Rule>, crossings: seq<Crossing>) returns (findings: seq<Finding>)
    ensures findings == MissingRequired(rules, crossings)
  {
    findings := [];
    for i := 0 to |rules|
      invariant findings == MissingRequired(rules[..i], crossings)
    {
      hide DimensionMatch;
      var r := rules[i];
      assert rules[..i + 1] == rules[..i] + [r] && rules[..i + 1][..i] == rules[..i];
      if r.mode.Required? {
        var found := false;
        for j := 0 to |crossings|
          invariant found <==> exists c :: c in crossings[..j] && Witnesses(c.route, r)
        {
          assert crossings[..j + 1] == crossings[..j] + [crossings[j]];
          if Witnesses(crossings[j].route, r) { found := true; }
        }
        assert crossings[..|crossings|] == crossings;
        if !found { findings := findings + [RequiredFinding(r)]; }
      }
    }
    assert rules[..|rules|] == rules;
  }

  // ---------- complete mediation, said of the inputs alone

  ghost predicate Resolves(facts: seq<Fact>, observed: seq<Observed>, subject: string)
  {
    exists zone, sensitive :: InZone(facts, observed, subject, zone, sensitive)
  }

  /** The edge leads along this route: from one zone into another, whose data may be sensitive. */
  ghost predicate Connects(facts: seq<Fact>, observed: seq<Observed>, e: Edge, route: Route)
  {
    && route.edge == e && route.fromZone != route.toZone
    && (exists sensitive :: InZone(facts, observed, e.source, route.fromZone, sensitive))
    && InZone(facts, observed, e.target, route.toZone, route.sensitive)
  }

  /** The edge this fact stands for, if any, has both zones and is mediated wherever it crosses. */
  ghost predicate EdgeMediated(facts: seq<Fact>, components: set<string>, observed: seq<Observed>, o: Observed)
  {
    Considered(o, components).Some? ==>
      var e := Considered(o, components).value;
      && Resolves(facts, observed, e.source) && Resolves(facts, observed, e.target)
      && forall route :: Connects(facts, observed, e, route) ==> Mediated(route, RulesOf(facts), Attestations(observed))
  }

  ghost predicate EdgeAlong(facts: seq<Fact>, components: set<string>, observed: seq<Observed>, route: Route)
  {
    exists o :: o in observed && Considered(o, components).Some?
      && Connects(facts, observed, Considered(o, components).value, route)
  }

  ghost predicate RequiredSeen(facts: seq<Fact>, components: set<string>, observed: seq<Observed>, r: Rule)
  {
    exists route :: EdgeAlong(facts, components, observed, route) && Witnesses(route, r)
  }

  /** Every considered edge is mediated, and every required rule is witnessed by an edge. */
  ghost predicate CompletelyMediated(facts: seq<Fact>, components: set<string>, observed: seq<Observed>)
  {
    && (forall o :: o in observed ==> EdgeMediated(facts, components, observed, o))
    && (forall r :: r in RulesOf(facts) && r.mode.Required? ==> RequiredSeen(facts, components, observed, r))
  }

  lemma ResolvesIff(facts: seq<Fact>, observed: seq<Observed>, s: Scope, subject: string)
    requires IsMemberships(s.members, facts) && IsOwners(s.owners, observed)
    ensures Resolves(facts, observed, subject) <==> ZoneFor(subject, s.members, s.owners).0.Some?
  {
    hide InZone, ZoneFor;
    forall zone, sensitive
      ensures InZone(facts, observed, subject, zone, sensitive)
              <==> ZoneFor(subject, s.members, s.owners) == (Some(zone), sensitive)
    {
      ZoneForIff(facts, observed, s.members, s.owners, subject, zone, sensitive);
    }
    var (zone, sensitive) := ZoneFor(subject, s.members, s.owners);
    if zone.Some? {
      assert InZone(facts, observed, subject, zone.value, sensitive);
    }
  }

  lemma ConnectsIff(facts: seq<Fact>, observed: seq<Observed>, s: Scope, e: Edge, route: Route)
    requires IsMemberships(s.members, facts) && IsOwners(s.owners, observed)
    ensures Connects(facts, observed, e, route) <==> RouteOf(e, s.members, s.owners) == Some(route)
  {
    hide InZone, ZoneFor;
    forall sensitive
      ensures InZone(facts, observed, e.source, route.fromZone, sensitive) <==>
                ZoneFor(e.source, s.members, s.owners) == (Some(route.fromZone), sensitive)
    {
      ZoneForIff(facts, observed, s.members, s.owners, e.source, route.fromZone, sensitive);
    }
    ZoneForIff(facts, observed, s.members, s.owners, e.target, route.toZone, route.sensitive);
    var (from, sensitive) := ZoneFor(e.source, s.members, s.owners);
    if from == Some(route.fromZone) {
      assert InZone(facts, observed, e.source, route.fromZone, sensitive);
    }
  }

  lemma TravelledIff(facts: seq<Fact>, observed: seq<Observed>, s: Scope, route: Route)
    requires IsMemberships(s.members, facts) && IsOwners(s.owners, observed)
    ensures Travelled(observed, s, route) <==> EdgeAlong(facts, s.components, observed, route)
  {
    hide Considered, Connects, RouteOf, IsMemberships, IsOwners;
    forall o | o in observed && Considered(o, s.components).Some?
      ensures Connects(facts, observed, Considered(o, s.components).value, route) <==> s.Supports(o, route)
    {
      ConnectsIff(facts, observed, s, Considered(o, s.components).value, route);
    }
  }

  lemma EdgeMediatedIff(facts: seq<Fact>, observed: seq<Observed>, s: Scope, o: Observed)
    requires IsMemberships(s.members, facts) && IsOwners(s.owners, observed)
    ensures EdgeMediated(facts, s.components, observed, o) <==>
              !s.Lost(o) &&
                forall route :: s.Supports(o, route) ==> Mediated(route, RulesOf(facts), Attestations(observed))
  {
    hide Considered, Connects, RouteOf, IsMemberships, IsOwners, Mediated, Resolves, ZoneFor;
    if Considered(o, s.components).Some? {
      var e := Considered(o, s.components).value;
      ResolvesIff(facts, observed, s, e.source);
      ResolvesIff(facts, observed, s, e.target);
      forall route ensures Connects(facts, observed, e, route) <==> s.Supports(o, route) {
        ConnectsIff(facts, observed, s, e, route);
      }
    }
  }

  /** What the evaluation computes: lost edges, judgements and unwitnessed rules. */
  ghost predicate Evaluated(facts: seq<Fact>, observed: seq<Observed>, s: Scope, crossings: seq<Crossing>,
                            lost: seq<Finding>, judged: seq<Finding>, missing: seq<Finding>)
  {
    && IsMemberships(s.members, facts) && IsOwners(s.owners, observed)
    && Crosses(crossings, observed, s) && lost == LostFindings(observed, s)
    && Judgements(judged, crossings, RulesOf(facts), Attestations(observed))
    && missing == MissingRequired(RulesOf(facts), crossings)
  }

  lemma {:induction false} NothingLostIff(observed: seq<Observed>, s: Scope)
    ensures LostFindings(observed, s) == [] <==> forall o :: o in observed ==> !s.Lost(o)
    ensures forall x :: x in LostFindings(observed, s) ==> x.kind.TrustBoundary?
  {
    hide Considered, Unplaced;
    if |observed| > 0 {
      var init, last := observed[..|observed| - 1], observed[|observed| - 1];
      NothingLostIff(init, s);
      assert observed == init + [last];
    }
  }

  /** No crossing is dropped by the merge: the verdicts on crossings cover the verdicts on edges. */
  lemma CrossingsCoverEdges(facts: seq<Fact>, observed: seq<Observed>, s: Scope, crossings: seq<Crossing>)
    requires Crosses(crossings, observed, s)
    ensures (forall c :: c in crossings ==> Mediated(c.route, RulesOf(facts), Attestations(observed))) <==>
            forall o, route :: o in observed && s.Supports(o, route)
              ==> Mediated(route, RulesOf(facts), Attestations(observed))
  {
    hide Mediated, Considered, RouteOf, RulesOf, Attestations, Evidenced;
    forall o, route | o in observed && s.Supports(o, route) ensures exists c :: c in crossings && c.route == route {
      assert Travelled(observed, s, route);
    }
    forall c | c in crossings ensures exists o :: o in observed && s.Supports(o, c.route) {
      assert Travelled(observed, s, c.route);
    }
  }

  lemma WitnessedIff(facts: seq<Fact>, observed: seq<Observed>, s: Scope, crossings: seq<Crossing>, r: Rule)
    requires IsMemberships(s.members, facts) && IsOwners(s.owners, observed) && Crosses(crossings, observed, s)
    ensures Witnessed(r, crossings) <==> RequiredSeen(facts, s.components, observed, r)
  {
    hide Witnesses, Travelled, EdgeAlong, IsMemberships, IsOwners, Evidenced;
    forall route ensures Travelled(observed, s, route) <==> EdgeAlong(facts, s.components, observed, route) {
      TravelledIff(facts, observed, s, route);
    }
  }

  /**
   * Complete mediation: the evaluation finds nothing exactly when every edge is mediated and every
   * requirement seen.
   */
  lemma CompleteMediation(facts: seq<Fact>, observed: seq<Observed>, s: Scope, crossings: seq<Crossing>,
                          lost: seq<Finding>, judged: seq<Finding>, missing: seq<Finding>)
    requires Evaluated(facts, observed, s, crossings, lost, judged, missing)
    ensures (lost == [] && judged == [] && missing == []) <==> CompletelyMediated(facts, s.components, observed)
  {
    hide Crosses, LostFindings, IsMemberships, IsOwners, Judgements, MissingRequired, Witnessed, RequiredSeen,
         EdgeMediated, Mediated, RulesOf, Attestations, Considered, RouteOf, Unplaced;
    NothingLostIff(observed, s);
    NoJudgementsIff(judged, crossings, RulesOf(facts), Attestations(observed));
    CrossingsCoverEdges(facts, observed, s, crossings);
    NoneMissingIff(RulesOf(facts), crossings);
    forall o ensures EdgeMediated(facts, s.components, observed, o) <==>
              !s.Lost(o) &&
                forall route :: s.Supports(o, route) ==> Mediated(route, RulesOf(facts), Attestations(observed))
    {
      EdgeMediatedIff(facts, observed, s, o);
    }
    forall r ensures Witnessed(r, crossings) <==> RequiredSeen(facts, s.components, observed, r) {
      WitnessedIff(facts, observed, s, crossings, r);
    }
  }

  // ---------- adding a forbidden rule

  /** Another forbidden rule never clears an edge: what it leaves mediated was mediated without it. */
  lemma AddingForbidden(before: seq<Fact>, after: seq<Fact>, i: nat, f: Fact, components: set<string>,
                        observed: seq<Observed>)
    requires i <= |before| && after == before[..i] + [f] + before[i..] && RuleFact(f) && f.mode.Forbidden?
    ensures forall o :: EdgeMediated(after, components, observed, o) ==> EdgeMediated(before, components, observed, o)
    ensures CompletelyMediated(after, components, observed) ==> CompletelyMediated(before, components, observed)
  {
    hide Considered, Connects, Mediated, RulesOf, Attestations, RuleFact, Resolves, Witnesses, RuleOf;
    SameZones(before, after, i, f, observed);
    forall route | Mediated(route, RulesOf(after), Attestations(observed))
      ensures Mediated(route, RulesOf(before), Attestations(observed))
    {
      StillMediated(before, after, i, f, route, Attestations(observed));
    }
    forall r | r in RulesOf(before) ensures r in RulesOf(after) {
      MoreRules(before, after, i, f, r);
    }
    forall r | RequiredSeen(after, components, observed, r) ensures RequiredSeen(before, components, observed, r) {
      var route :| EdgeAlong(after, components, observed, route) && Witnesses(route, r);
      assert EdgeAlong(before, components, observed, route);
    }
  }

  lemma SameZones(before: seq<Fact>, after: seq<Fact>, i: nat, f: Fact, observed: seq<Observed>)
    requires i <= |before| && after == before[..i] + [f] + before[i..] && RuleFact(f)
    ensures forall subject :: Resolves(before, observed, subject) <==> Resolves(after, observed, subject)
    ensures forall e, route :: Connects(before, observed, e, route) <==> Connects(after, observed, e, route)
  {
    hide MembershipOf;
    assert forall g :: g in after <==> g in before || g == f by {
      assert before == before[..i] + before[i..];
    }
    assert !MembershipFact(f);
    forall subject ensures HasMembership(before, subject) <==> HasMembership(after, subject) {}
    forall subject, zone, sensitive ensures Member(before, subject, zone, sensitive)
      <==> Member(after, subject, zone, sensitive) {}
    hide Member, HasMembership, MembershipFact;
    forall subject, zone, sensitive
      ensures InZone(before, observed, subject, zone, sensitive) <==> InZone(after, observed, subject, zone, sensitive)
    {
    }
    hide InZone;
  }

  lemma MoreRules(before: seq<Fact>, after: seq<Fact>, i: nat, f: Fact, r: Rule)
    requires i <= |before| && after == before[..i] + [f] + before[i..] && RuleFact(f)
    ensures r in RulesOf(after) <==> r in RulesOf(before) || r == RuleOf(f)
  {
    hide RuleOf;
    InRules(before, r);
    InRules(after, r);
    assert before == before[..i] + before[i..];
    assert forall g :: g in after <==> g in before || g == f;
    hide RuleFact;
  }

  lemma StillMediated(before: seq<Fact>, after: seq<Fact>, i: nat, f: Fact, route: Route, attested: set<Attestation>)
    requires i <= |before| && after == before[..i] + [f] + before[i..] && RuleFact(f) && f.mode.Forbidden?
    requires Mediated(route, RulesOf(after), attested)
    ensures Mediated(route, RulesOf(before), attested)
  {
    hide RuleFact, DimensionMatch, Satisfies;
    forall r ensures r in RulesOf(after) <==> r in RulesOf(before) || r == RuleOf(f) {
      MoreRules(before, after, i, f, r);
    }
    assert RuleOf(f).mode.Forbidden?;
    hide RulesOf, RuleOf;
    var p :| p in RulesOf(after) && Fits(p, route, PermissiveRule);
    assert p in RulesOf(before);
  }

  // ---------- the evaluation

  /** Rules collected from facts in id order are in id order: sorting them again changes nothing. */
  lemma {:induction false} RulesStaySorted(facts: seq<Fact>)
    requires SortedById(facts)
    ensures forall i, j :: 0 <= i < j < |RulesOf(facts)| ==> Json.Less(RulesOf(facts)[i].id, RulesOf(facts)[j].id)
  {
    hide Json.Less, RuleFact;
    if |facts| > 0 {
      var init, last := facts[..|facts| - 1], facts[|facts| - 1];
      RulesStaySorted(init);
      forall r | r in RulesOf(init) ensures Json.Less(r.id, last.id) {
        InRules(init, r);
        var f :| f in init && RuleFact(f) && RuleOf(f) == r;
        var k :| 0 <= k < |init| && init[k] == f;
        assert facts[k] == f;
      }
    }
  }
}
