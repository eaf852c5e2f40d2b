/**
 * The terms of the trust-boundary evaluation spelled out over the fields of facts, rules and edges
 * (architecture_security_drift.py).
 */
module SecurityTerms {
  import opened Prelude
  import opened Json
  import opened FactAttributes
  import opened ArchitectureDrift
  import opened TrustBoundary
  import opened TrustCrossings
  import opened TrustEvaluation
  import opened TrustSecurity
  import DerivedFacts

  // ---------- rules and crossings

  /**
   * A crossing is mediated exactly when some rule is about it and every rule about it allows it,
   * names no other gateway, permits its data, and has its control attested. A rule is about a
   * crossing when zones, evidence and direction agree, and protocol and access where it has them.
   */
  lemma MediatedMeans(route: Route, rules: seq<Rule>, attested: set<Attestation>)
    ensures var e := route.edge;
            var about := (r: Rule) =>
              && r.fromZone == route.fromZone && r.toZone == route.toZone
              && r.evidence == e.evidence && r.direction == e.direction
              && (r.protocol == None || r.protocol == e.protocol) && (r.access == None || r.access == e.access);
            Mediated(route, rules, attested) <==>
              && (exists r :: r in rules && about(r))
              && forall r :: r in rules && about(r) ==>
                   && r.mode != Forbidden
                   && (r.gateway == None || r.gateway == Some(e.target))
                   && (route.sensitive ==> r.allowSensitive)
                   && (r.control == None || (e.source, r.control.value, Some(e.target)) in attested
                       || (e.source, r.control.value, None) in attested)
  {
    var e := route.edge;
    var about := (r: Rule) =>
      && r.fromZone == route.fromZone && r.toZone == route.toZone
      && r.evidence == e.evidence && r.direction == e.direction
      && (r.protocol == None || r.protocol == e.protocol) && (r.access == None || r.access == e.access);
    forall r: Rule
      ensures Fits(r, route, PermissiveRule) <==> about(r) && r.mode != Forbidden
      ensures Fits(r, route, ForbiddenRule) <==> about(r) && r.mode == Forbidden
    {
    }
    hide Fits, DimensionMatch;
  }

  /** A rule that differs in one of these fields has no say in whether the crossing is mediated. */
  lemma OtherRulesDoNotMatter(route: Route, before: seq<Rule>, r: Rule, after: seq<Rule>, attested: set<Attestation>)
    requires || r.fromZone != route.fromZone || r.toZone != route.toZone
             || r.evidence != route.edge.evidence || r.direction != route.edge.direction
             || (r.protocol.Some? && r.protocol != route.edge.protocol)
             || (r.access.Some? && r.access != route.edge.access)
    ensures Mediated(route, before + [r] + after, attested) <==> Mediated(route, before + after, attested)
  {
    assert forall q :: q in before + [r] + after <==> q in before + after || q == r;
    assert !DimensionMatch(r, route, true);
    hide DimensionMatch, Satisfies;
  }

  /** A required rule is witnessed exactly by a crossing of its zones, evidence and direction, into its gateway. */
  lemma WitnessedMeans(r: Rule, crossings: seq<Crossing>)
    ensures Witnessed(r, crossings) <==>
              exists c :: c in crossings &&
                var route, e := c.route, c.route.edge;
                && route.fromZone == r.fromZone && route.toZone == r.toZone
                && e.evidence == r.evidence && e.direction == r.direction
                && (r.protocol == None || e.protocol == r.protocol) && (r.access == None || e.access == r.access)
                && (r.gateway == None || Some(e.target) == r.gateway)
  {
    if Witnessed(r, crossings) {
      var c :| c in crossings && Witnesses(c.route, r);
    }
    forall c | c in crossings && c.route.fromZone == r.fromZone && c.route.toZone == r.toZone
               && c.route.edge.evidence == r.evidence && c.route.edge.direction == r.direction
               && (r.protocol == None || c.route.edge.protocol == r.protocol)
               && (r.access == None || c.route.edge.access == r.access)
               && (r.gateway == None || Some(c.route.edge.target) == r.gateway)
      ensures Witnesses(c.route, r)
    {
    }
  }

  // ---------- verdicts

  /** Zones and evidence agree, and protocol and access where the rule has them. */
  predicate Alike(r: Rule, route: Route)
  {
    && r.fromZone == route.fromZone && r.toZone == route.toZone && r.evidence == route.edge.evidence
    && (r.protocol == None || r.protocol == route.edge.protocol)
    && (r.access == None || r.access == route.edge.access)
  }

  /** The direction agrees as well. */
  predicate About(r: Rule, route: Route)
  {
    Alike(r, route) && r.direction == route.edge.direction
  }

  lemma AboutMeans(r: Rule, route: Route)
    ensures DimensionMatch(r, route, true) <==> About(r, route)
    ensures DimensionMatch(r, route, false) <==> Alike(r, route)
  {
  }

  /** The first rule with some property has this id. */
  ghost predicate FirstWith(rules: seq<Rule>, property: Rule -> bool, id: Option<string>)
  {
    exists k :: 0 <= k < |rules| && property(rules[k]) && id == Some(rules[k].id)
                && forall j :: 0 <= j < k ==> !property(rules[j])
  }

  lemma FirstMeans(x: Finding, rules: seq<Rule>, route: Route, sought: Sought, property: Rule -> bool)
    requires ByFirst(x, rules, route, sought) && forall r :: Fits(r, route, sought) <==> property(r)
    ensures FirstWith(rules, property, x.factId)
  {
    hide Fits;
    var r :| IsFirst(rules, route, sought, r) && x.factId == Some(r.id);
    var k :| 0 <= k < |rules| && rules[k] == r && Fits(r, route, sought)
             && forall j :: 0 <= j < k ==> !Fits(rules[j], route, sought);
    assert property(rules[k]);
  }

  /** Where a crossing is about to be found, and the evidence for it. */
  lemma VerdictIsAboutCrossing(x: Finding, c: Crossing, rules: seq<Rule>, attested: set<Attestation>)
    requires Verdict(x, c, rules, attested)
    ensures x.source == c.route.edge.source && x.target == c.route.edge.target && x.kind == TrustBoundary
    ensures x.provenance == c.provenance
  {
  }

  /** A forbidden crossing is blamed on the first rule about it that forbids it. */
  lemma ForbiddenMeans(x: Finding, c: Crossing, rules: seq<Rule>, attested: set<Attestation>)
    requires Verdict(x, c, rules, attested) && x.code == BoundaryForbidden
    ensures FirstWith(rules, r => About(r, c.route) && r.mode == Forbidden, x.factId)
  {
    forall r ensures DimensionMatch(r, c.route, true) <==> About(r, c.route) { AboutMeans(r, c.route); }
    hide DimensionMatch, About, FirstWith, IsFirst;
    FirstMeans(x, rules, c.route, ForbiddenRule, r => About(r, c.route) && r.mode == Forbidden);
  }

  /** The verdicts of a permitted crossing: no rule about it forbids it, and one allows it. */
  lemma PermittedMeans(x: Finding, c: Crossing, rules: seq<Rule>, attested: set<Attestation>)
    requires Verdict(x, c, rules, attested) && x.code in {GatewayBypass, SensitiveDataCrossing, ControlMissing}
    ensures forall r :: r in rules && About(r, c.route) ==> r.mode != Forbidden
    ensures exists r :: r in rules && About(r, c.route)
    ensures x.code != GatewayBypass ==>
              forall r :: r in rules && About(r, c.route) ==>
                r.gateway == None || r.gateway == Some(c.route.edge.target)
    ensures x.code == ControlMissing && c.route.sensitive ==>
              forall r :: r in rules && About(r, c.route) ==> r.allowSensitive
  {
    forall r ensures DimensionMatch(r, c.route, true) <==> About(r, c.route) { AboutMeans(r, c.route); }
    hide DimensionMatch, About, IsFirst, Ascending, ByFirst;
    assert Passed(rules, c.route, 1);
    forall r | r in rules && About(r, c.route)
      ensures Fits(r, c.route, ForbiddenRule) || Fits(r, c.route, PermissiveRule)
      ensures r.mode != Forbidden && r.gateway.Some? ==> Fits(r, c.route, GatewayRule)
      ensures r.mode != Forbidden && !r.allowSensitive ==> Fits(r, c.route, StrictRule)
    {
    }
  }

  /** A bypassed gateway is the one of the first rule about the crossing that has a gateway. */
  lemma GatewayBypassMeans(x: Finding, c: Crossing, rules: seq<Rule>, attested: set<Attestation>)
    requires Verdict(x, c, rules, attested) && x.code == GatewayBypass
    ensures FirstWith(rules, r => About(r, c.route) && r.mode != Forbidden && r.gateway != None, x.factId)
    ensures exists r :: r in rules && About(r, c.route) && r.gateway.Some? && x.named == [r.gateway.value]
  {
    forall r ensures DimensionMatch(r, c.route, true) <==> About(r, c.route) { AboutMeans(r, c.route); }
    var r :| IsFirst(rules, c.route, GatewayRule, r) && x.factId == Some(r.id) && x.named == [r.gateway.value];
    FirstIsIn(rules, c.route, GatewayRule, r);
    hide DimensionMatch, About, FirstWith, IsFirst;
    FirstMeans(x, rules, c.route, GatewayRule, r => About(r, c.route) && r.mode != Forbidden && r.gateway != None);
  }

  lemma FirstIsIn(rules: seq<Rule>, route: Route, sought: Sought, r: Rule)
    requires IsFirst(rules, route, sought, r)
    ensures r in rules && Fits(r, route, sought)
  {
  }

  /** Sensitive data is blamed on the first rule about the crossing that does not permit it. */
  lemma SensitiveMeans(x: Finding, c: Crossing, rules: seq<Rule>, attested: set<Attestation>)
    requires Verdict(x, c, rules, attested) && x.code == SensitiveDataCrossing
    ensures c.route.sensitive
    ensures FirstWith(rules, r => About(r, c.route) && r.mode != Forbidden && !r.allowSensitive, x.factId)
  {
    forall r ensures DimensionMatch(r, c.route, true) <==> About(r, c.route) { AboutMeans(r, c.route); }
    hide DimensionMatch, About, FirstWith, IsFirst;
    FirstMeans(x, rules, c.route, StrictRule, r => About(r, c.route) && r.mode != Forbidden && !r.allowSensitive);
  }

  /** Exactly the required controls that nobody attested are named, and the first of them is blamed. */
  lemma ControlMissingMeans(x: Finding, c: Crossing, rules: seq<Rule>, attested: set<Attestation>)
    requires Verdict(x, c, rules, attested) && x.code == ControlMissing
    ensures |x.named| > 0 && forall i, j :: 0 <= i < j < |x.named| ==> Less(x.named[i], x.named[j])
    ensures FirstWith(rules, r => About(r, c.route) && r.mode != Forbidden && r.control == Some(x.named[0]), x.factId)
    ensures var e := c.route.edge;
            forall n :: n in x.named <==>
              && (exists r :: r in rules && About(r, c.route) && r.mode != Forbidden && r.control == Some(n))
              && (e.source, n, Some(e.target)) !in attested && (e.source, n, None) !in attested
  {
    forall r ensures DimensionMatch(r, c.route, true) <==> About(r, c.route) { AboutMeans(r, c.route); }
    hide DimensionMatch, About, FirstWith, IsFirst, Less;
    FirstMeans(x, rules, c.route, ControlRule(x.named[0]),
               r => About(r, c.route) && r.mode != Forbidden && r.control == Some(x.named[0]));
    forall n
      ensures AnyRule(rules, c.route, ControlRule(n)) <==>
                exists r :: r in rules && About(r, c.route) && r.mode != Forbidden && r.control == Some(n)
    {
      forall r ensures Fits(r, c.route, ControlRule(n)) <==>
                         About(r, c.route) && r.mode != Forbidden && r.control == Some(n) {}
    }
  }

  /** Without any rule about a crossing, its direction is blamed if a rule is alike, and else its exposure. */
  lemma UnruledMeans(x: Finding, c: Crossing, rules: seq<Rule>, attested: set<Attestation>)
    requires Verdict(x, c, rules, attested) && x.code in {DirectionChange, ExposureChange, BoundaryUnapproved}
    ensures forall r :: r in rules ==> !About(r, c.route)
    ensures x.code == DirectionChange ==> FirstWith(rules, r => Alike(r, c.route), x.factId)
    ensures x.code != DirectionChange ==>
              && (forall r :: r in rules ==> !Alike(r, c.route)) && x.factId == None
              && (x.code == ExposureChange <==> "zone:external" in {c.route.fromZone, c.route.toZone})
  {
    forall r
      ensures DimensionMatch(r, c.route, true) <==> About(r, c.route)
      ensures DimensionMatch(r, c.route, false) <==> Alike(r, c.route)
    {
      AboutMeans(r, c.route);
    }
    hide DimensionMatch, About, Alike, FirstWith, IsFirst;
    forall r | r in rules && About(r, c.route)
      ensures Fits(r, c.route, ForbiddenRule) || Fits(r, c.route, PermissiveRule)
    {
    }
    if x.code == DirectionChange {
      FirstMeans(x, rules, c.route, AnyDirection, r => Alike(r, c.route));
    } else {
      forall r | r in rules ensures !Alike(r, c.route) { assert !Fits(r, c.route, AnyDirection); }
    }
  }

  /** The gateways of a permitted crossing conflict exactly when two rules about it name different ones. */
  lemma ConflictMeans(rules: seq<Rule>, route: Route)
    ensures GatewayConflict(rules, route) <==>
              && (forall r :: r in rules && About(r, route) ==> r.mode != Forbidden)
              && exists p, q :: p in rules && q in rules && About(p, route) && About(q, route)
                                && p.gateway.Some? && q.gateway.Some? && p.gateway != q.gateway
  {
    forall r: Rule
      ensures Fits(r, route, ForbiddenRule) <==> About(r, route) && r.mode == Forbidden
      ensures Fits(r, route, GatewayRule) <==> About(r, route) && r.mode != Forbidden && r.gateway.Some?
    {
      AboutMeans(r, route);
    }
    hide Fits, About;
  }

  function Letters(names: seq<string>): nat
  {
    if |names| == 0 then 0 else |names[0]| + Letters(names[1..])
  }

  /** The message about missing controls has 65 characters of its own, the names, and two between any two of them. */
  lemma MessageMeans(names: seq<string>)
    requires names != []
    ensures MessageFits(names) <==> 65 + Letters(names) + 2 * (|names| - 1) <= 4096
  {
    JoinedLength(names);
  }

  lemma {:induction false} JoinedLength(names: seq<string>)
    requires names != []
    ensures |Joined(names)| == Letters(names) + 2 * (|names| - 1)
  {
    if |names| > 1 { JoinedLength(names[1..]); }
  }

  // ---------- lost edges and missing crossings

  ghost predicate Placed(facts: seq<Fact>, observed: seq<Observed>, subject: string)
  {
    exists zone, sensitive :: InZone(facts, observed, subject, zone, sensitive)
  }

  /** The finding about an edge names its first end without a zone, and has all the evidence for it. */
  ghost predicate AboutLost(x: Finding, facts: seq<Fact>, observed: seq<Observed>, e: Edge, o: Observed)
  {
    && x.code == ZoneMissing && x.kind == TrustBoundary && x.source == e.source && x.target == e.target
    && x.factId == None && x.provenance == o.provenance
    && (if !Placed(facts, observed, e.source) then x.named == [e.source]
        else !Placed(facts, observed, e.target) && x.named == [e.target])
  }

  lemma {:induction false} LostMeans(facts: seq<Fact>, observed: seq<Observed>, s: Scope, seen: seq<Observed>,
                                     x: Finding)
    requires IsMemberships(s.members, facts) && IsOwners(s.owners, observed)
    ensures x in LostFindings(seen, s) <==>
              exists o, e :: o in seen && Considered(o, s.components) == Some(e) && AboutLost(x, facts, observed, e, o)
  {
    if |seen| > 0 {
      var init, o := seen[..|seen| - 1], seen[|seen| - 1];
      LostMeans(facts, observed, s, init, x);
      assert seen == init + [o];
      if Considered(o, s.components).Some? {
        OneLostMeans(facts, observed, s, o, Considered(o, s.components).value, x);
      }
      hide AboutLost, Considered, Unplaced, ZoneMissingFinding, IsMemberships, IsOwners;
    }
  }

  lemma OneLostMeans(facts: seq<Fact>, observed: seq<Observed>, s: Scope, o: Observed, e: Edge, x: Finding)
    requires IsMemberships(s.members, facts) && IsOwners(s.owners, observed) && Considered(o, s.components) == Some(e)
    ensures var end := Unplaced(e, s.members, s.owners);
            s.Lost(o) && x == ZoneMissingFinding(e, end.value, o.provenance) <==> AboutLost(x, facts, observed, e, o)
  {
    forall subject ensures Placed(facts, observed, subject) <==> ZoneFor(subject, s.members, s.owners).0.Some? {
      ResolvesIff(facts, observed, s, subject);
      assert Resolves(facts, observed, subject) <==> Placed(facts, observed, subject);
    }
    hide Placed, ZoneFor, IsMemberships, IsOwners;
  }

  /** A required rule without a witness is reported between its zones, under its id, without evidence. */
  lemma {:induction false} MissingMeans(rules: seq<Rule>, crossings: seq<Crossing>, x: Finding)
    ensures x in MissingRequired(rules, crossings) <==>
              exists r :: r in rules && r.mode == Required && !Witnessed(r, crossings) && AboutMissing(x, r)
  {
    if |rules| > 0 {
      var init, last := rules[..|rules| - 1], rules[|rules| - 1];
      MissingMeans(init, crossings, x);
      assert rules == init + [last];
      assert AboutMissing(x, last) <==> x == RequiredFinding(last);
      hide AboutMissing, RequiredFinding, Witnessed;
    }
  }

  predicate AboutMissing(x: Finding, r: Rule)
  {
    && x.code == RequiredBoundaryMissing && x.kind == TrustBoundary && x.source == r.fromZone && x.target == r.toZone
    && x.factId == Some(r.id) && x.named == [] && x.provenance == []
  }

  // ---------- facts

  /** The text under this name, if there is one. */
  function Says(a: Attributes, name: string): Option<string>
  {
    if name in a && a[name].Str? then Some(a[name].s) else None
  }

  /** Which edge an observed fact stands for. */
  lemma EdgeMeans(o: Observed, components: set<string>, e: Edge)
    ensures var direction, protocol := Says(o.attributes, "direction"), Says(o.attributes, "protocol");
            var incoming := o.kind == Communication && direction == Some("inbound") && o.target == "endpoint:http";
            Considered(o, components) == Some(e) <==>
              || (incoming && e == Edge("external:public", o.source, "communication", "inbound", protocol, None))
              || (o.kind == Communication && !incoming && (o.target in components || "external:" <= o.target)
                  && e == Edge(o.source, o.target, "communication", "outbound", protocol, None))
              || (o.kind == DataAccess
                  && e == Edge(o.source, o.target, "data-access", "outbound", None, Says(o.attributes, "access")))
              || (o.kind == Deployment
                  && e == Edge(o.source, o.target, "deployment",
                               if direction == None then "placement" else direction.value, None, None))
  {
  }

  /** Which facts of these kinds have evidence that cannot be used. */
  lemma EvidenceMeans(o: Observed)
    ensures EvidenceValid(o) <==>
              && (o.kind == Communication ==>
                    && Says(o.attributes, "direction") in {Some("inbound"), Some("outbound")}
                    && Says(o.attributes, "protocol") !in {None, Some("")})
              && (o.kind == DataAccess ==> Says(o.attributes, "access") !in {None, Some("")})
              && (o.kind == Deployment && "direction" in o.attributes ==>
                    Says(o.attributes, "direction") in {Some("inbound"), Some("outbound"), Some("placement")})
  {
    var a := o.attributes;
    assert o.kind == Communication && Says(a, "direction") in {Some("inbound"), Some("outbound")} ==> "direction" in a;
  }

  /** A membership declaration. */
  predicate Declares(f: Fact, subject: string)
  {
    f.kind == TrustBoundary && Says(f.attributes, "role") == Some("zone-membership") && f.source == subject
  }

  predicate MarkedSensitive(f: Fact)
  {
    "sensitive" in f.attributes && f.attributes["sensitive"] == Bool(true)
  }

  /** The zone of a subject: outside, declared, or that of the owner of its data. */
  lemma ZoneMeans(facts: seq<Fact>, observed: seq<Observed>, subject: string, zone: string, sensitive: bool)
    ensures var declared := exists f :: f in facts && Declares(f, subject);
            InZone(facts, observed, subject, zone, sensitive) <==>
              if "external:" <= subject || subject == "endpoint:http" then zone == "zone:external" && !sensitive
              else if declared then
                exists f :: f in facts && Declares(f, subject) && f.target == zone && MarkedSensitive(f) == sensitive
              else
                exists o, f :: o in observed && f in facts && o.kind == DataOwnership && o.target == subject
                               && Declares(f, o.source) && f.target == zone && MarkedSensitive(f) == sensitive
  {
    forall f: Fact, s: string
      ensures Declares(f, s) <==> MembershipFact(f) && f.source == s
      ensures MembershipOf(f).zone == f.target && MembershipOf(f).sensitive == MarkedSensitive(f)
    {
    }
    assert "external:" <= "external:public";
    hide Declares, MembershipFact, MembershipOf, MarkedSensitive;
    if !External(subject) && !HasMembership(facts, subject) {
      forall owner | Owns(observed, owner, subject) && TrustCrossings.Member(facts, owner, zone, sensitive)
        ensures exists o, f :: o in observed && f in facts && o.kind == DataOwnership && o.target == subject
                               && Declares(f, o.source) && f.target == zone && MarkedSensitive(f) == sensitive
      {
        var o :| o in observed && o.kind.DataOwnership? && o.source == owner && o.target == subject;
        var f :| f in facts && MembershipFact(f) && f.source == owner && MembershipOf(f).zone == zone
                 && MembershipOf(f).sensitive == sensitive;
      }
      forall o, f | o in observed && f in facts && o.kind == DataOwnership && o.target == subject
                    && Declares(f, o.source) && f.target == zone && MarkedSensitive(f) == sensitive
        ensures Owns(observed, o.source, subject) && TrustCrossings.Member(facts, o.source, zone, sensitive)
      {
      }
    }
  }

  /** The rules of a sound topology, read off its facts. */
  lemma RulesMean(facts: seq<Fact>, components: set<string>, r: Rule)
    requires TopologySound(facts, components)
    ensures r in RulesOf(facts) <==>
              exists f :: f in facts && f.kind == TrustBoundary &&
                var a := f.attributes;
                && Says(a, "role") == Some("boundary-rule")
                && r.id == f.id && r.mode == f.mode && r.fromZone == f.source && r.toZone == f.target
                && Some(r.evidence) == Says(a, "evidenceKind") && Some(r.direction) == Says(a, "direction")
                && r.protocol == Says(a, "protocol") && r.access == Says(a, "access")
                && r.gateway == Says(a, "gateway") && r.control == Says(a, "requiredControl")
                && (r.allowSensitive <==> "allowSensitiveData" in a && a["allowSensitiveData"] == Bool(true))
  {
    InRules(facts, r);
    forall f | f in facts
      ensures RuleFact(f) <==> f.kind == TrustBoundary && Says(f.attributes, "role") == Some("boundary-rule")
      ensures RuleFact(f) ==> (RuleOf(f) == r <==>
                var a := f.attributes;
                && r.id == f.id && r.mode == f.mode && r.fromZone == f.source && r.toZone == f.target
                && Some(r.evidence) == Says(a, "evidenceKind") && Some(r.direction) == Says(a, "direction")
                && r.protocol == Says(a, "protocol") && r.access == Says(a, "access")
                && r.gateway == Says(a, "gateway") && r.control == Says(a, "requiredControl")
                && (r.allowSensitive <==> "allowSensitiveData" in a && a["allowSensitiveData"] == Bool(true)))
    {
      assert BoundaryFactValid(f, components);
      RuleMeans(f, components, r);
    }
    hide RuleFact, RuleOf, RulesOf, TopologySound;
  }

  lemma RuleMeans(f: Fact, components: set<string>, r: Rule)
    requires BoundaryFactValid(f, components)
    ensures RuleFact(f) <==> f.kind == TrustBoundary && Says(f.attributes, "role") == Some("boundary-rule")
    ensures RuleFact(f) ==> (RuleOf(f) == r <==>
              var a := f.attributes;
              && r.id == f.id && r.mode == f.mode && r.fromZone == f.source && r.toZone == f.target
              && Some(r.evidence) == Says(a, "evidenceKind") && Some(r.direction) == Says(a, "direction")
              && r.protocol == Says(a, "protocol") && r.access == Says(a, "access")
              && r.gateway == Says(a, "gateway") && r.control == Says(a, "requiredControl")
              && (r.allowSensitive <==> "allowSensitiveData" in a && a["allowSensitiveData"] == Bool(true)))
  {
    if RuleFact(f) { OneRole(f); }
  }

  /** A control is attested by observed boundary facts with that role, for one target or for all. */
  lemma AttestationsMean(observed: seq<Observed>, source: string, control: string, target: Option<string>)
    ensures (source, control, target) in Attestations(observed) <==>
              exists o :: o in observed && o.kind == TrustBoundary && o.source == source && o.target == control
                          && Says(o.attributes, "role") == Some("control-attestation")
                          && Says(o.attributes, "targetSubject") == target
  {
    forall o: Observed
      ensures AttestationFact(o) <==>
                o.kind == TrustBoundary && Says(o.attributes, "role") == Some("control-attestation")
      ensures TextOf(o.attributes, "targetSubject") == Says(o.attributes, "targetSubject")
    {
    }
    hide AttestationFact, Says, TextOf;
  }

  /** A fact is read for attestations unless it holds a mapping, or claims for a wrong target, or says more. */
  lemma AttestableMeans(o: Observed)
    ensures var a, target := o.attributes, Says(o.attributes, "targetSubject");
            Attestable(o) <==>
              (o.kind == TrustBoundary ==>
                 && !Nested(a)
                 && (Says(a, "role") == Some("control-attestation") ==>
                       && (forall name :: name in a ==> name in {"role", "targetSubject"})
                       && ("targetSubject" in a ==> a["targetSubject"] == Null || target !in {None, Some("")})))
  {
    hide Nested;
  }

  // ---------- sound topologies

  /** No value, an explicit null, or a text of 1 to 256 characters. */
  predicate Optional(a: Attributes, name: string)
  {
    name in a && a[name] != Null ==> a[name].Str? && 1 <= |a[name].s| <= 256
  }

  predicate Switch(a: Attributes, name: string)
  {
    name in a ==> a[name] in {Bool(true), Bool(false)}
  }

  /** A boundary fact is a membership in a zone, or a rule between zones, and nothing else. */
  lemma BoundaryFactMeans(f: Fact, components: set<string>)
    requires f.kind == TrustBoundary
    ensures var a, role := f.attributes, Says(f.attributes, "role");
            BoundaryFactValid(f, components) <==>
              || (role == Some("zone-membership") && f.mode != Forbidden && "zone:" <= f.target
                  && (forall name :: name in a ==> name in {"role", "sensitive", "exposure"})
                  && Optional(a, "exposure") && Switch(a, "sensitive"))
              || (role == Some("boundary-rule") && "zone:" <= f.source && "zone:" <= f.target
                  && (forall name :: name in a ==>
                        name in {"role", "evidenceKind", "direction", "protocol", "access", "gateway",
                                 "requiredControl", "allowSensitiveData"})
                  && Says(a, "evidenceKind") in {Some("communication"), Some("data-access"), Some("deployment")}
                  && Says(a, "direction") in {Some("inbound"), Some("outbound"), Some("placement")}
                  && Optional(a, "protocol") && Optional(a, "access") && Optional(a, "gateway")
                  && Optional(a, "requiredControl") && Switch(a, "allowSensitiveData")
                  && (Says(a, "gateway") != None ==> Says(a, "gateway").value in components)
                  && (f.mode == Forbidden ==> Says(a, "gateway") == None && Says(a, "requiredControl") == None))
  {
    OneRole(f);
    MembershipFactMeans(f);
    RoleMeans(f);
    if RuleFact(f) { RuleFactMeans(f, components); }
    hide MembershipValid, RuleValid, MembershipFact, RuleFact, Optional, Switch;
  }

  lemma MembershipFactMeans(f: Fact)
    requires f.kind == TrustBoundary
    ensures MembershipFact(f) <==> Says(f.attributes, "role") == Some("zone-membership")
    ensures var a := f.attributes;
            MembershipFact(f) ==>
              (MembershipValid(f) <==>
                 && f.mode != Forbidden && "zone:" <= f.target
                 && (forall name :: name in a ==> name in {"role", "sensitive", "exposure"})
                 && Optional(a, "exposure") && Switch(a, "sensitive"))
  {
  }

  lemma TextBounds(a: Attributes, name: string)
    ensures TextOk(a, name, false) <==> Optional(a, name)
    ensures TextOk(a, name, true) <==> Says(a, name) != None && 1 <= |Says(a, name).value| <= 256
    ensures TextOf(a, name) == Says(a, name)
    ensures FlagOk(a, name) <==> Switch(a, name)
  {
  }

  lemma RoleMeans(f: Fact)
    requires f.kind == TrustBoundary
    ensures RuleFact(f) <==> Says(f.attributes, "role") == Some("boundary-rule")
  {
  }

  lemma RuleFactMeans(f: Fact, components: set<string>)
    requires RuleFact(f)
    ensures var a := f.attributes;
            RuleValid(f, components) <==>
              && "zone:" <= f.source && "zone:" <= f.target
              && (forall name :: name in a ==>
                    name in {"role", "evidenceKind", "direction", "protocol", "access", "gateway",
                             "requiredControl", "allowSensitiveData"})
              && Says(a, "evidenceKind") in {Some("communication"), Some("data-access"), Some("deployment")}
              && Says(a, "direction") in {Some("inbound"), Some("outbound"), Some("placement")}
              && Optional(a, "protocol") && Optional(a, "access") && Optional(a, "gateway")
              && Optional(a, "requiredControl") && Switch(a, "allowSensitiveData")
              && (Says(a, "gateway") != None ==> Says(a, "gateway").value in components)
              && (f.mode == Forbidden ==> Says(a, "gateway") == None && Says(a, "requiredControl") == None)
  {
    forall name
      ensures TextOk(f.attributes, name, false) <==> Optional(f.attributes, name)
      ensures TextOk(f.attributes, name, true) <==>
                Says(f.attributes, name) != None && 1 <= |Says(f.attributes, name).value| <= 256
      ensures TextOf(f.attributes, name) == Says(f.attributes, name)
      ensures FlagOk(f.attributes, name) <==> Switch(f.attributes, name)
    {
      TextBounds(f.attributes, name);
    }
    hide TextOk, FlagOk, TextOf, Optional, Switch;
  }

  /** In a sound topology no subject is declared in two ways, and gateways are where they belong. */
  lemma SoundMeans(facts: seq<Fact>, components: set<string>)
    requires forall f :: f in facts ==> BoundaryFactValid(f, components)
    ensures TopologySound(facts, components) <==>
              && (forall f, g, subject :: f in facts && g in facts && Declares(f, subject) && Declares(g, subject) ==>
                    && f.target == g.target && MarkedSensitive(f) == MarkedSensitive(g)
                    && Says(f.attributes, "exposure") == Says(g.attributes, "exposure"))
              && (forall f :: f in facts && f.kind == TrustBoundary
                              && Says(f.attributes, "role") == Some("boundary-rule")
                              && Says(f.attributes, "gateway") != None ==>
                    exists m :: m in facts && Declares(m, Says(f.attributes, "gateway").value) && m.target == f.target)
  {
    UnambiguousMeans(facts);
    GatewaysMean(facts);
    forall f | f in facts
      ensures RuleFact(f) <==> f.kind == TrustBoundary && Says(f.attributes, "role") == Some("boundary-rule")
      ensures RuleOf(f).gateway == Says(f.attributes, "gateway") && RuleOf(f).toZone == f.target
    {
    }
    hide RuleFact, RuleOf, Declares, MarkedSensitive, Says, BoundaryFactValid, GatewaysPlaced, Unambiguous;
  }

  lemma UnambiguousMeans(facts: seq<Fact>)
    ensures Unambiguous(facts) <==>
              forall f, g, subject :: f in facts && g in facts && Declares(f, subject) && Declares(g, subject) ==>
                && f.target == g.target && MarkedSensitive(f) == MarkedSensitive(g)
                && Says(f.attributes, "exposure") == Says(g.attributes, "exposure")
  {
    forall f: Fact, subject ensures Declares(f, subject) <==> MembershipFact(f) && f.source == subject {}
    forall f: Fact
      ensures MembershipOf(f) == Membership(f.target, MarkedSensitive(f), Says(f.attributes, "exposure"))
    {
    }
    hide MembershipFact, MembershipOf, Declares, MarkedSensitive, Says;
    if forall f, g, subject :: f in facts && g in facts && Declares(f, subject) && Declares(g, subject) ==>
         && f.target == g.target && MarkedSensitive(f) == MarkedSensitive(g)
         && Says(f.attributes, "exposure") == Says(g.attributes, "exposure")
    {
      forall f, g | f in facts && g in facts && MembershipFact(f) && MembershipFact(g) && f.source == g.source
        ensures MembershipOf(f) == MembershipOf(g)
      {
        assert Declares(f, f.source) && Declares(g, f.source);
      }
    }
  }

  lemma GatewaysMean(facts: seq<Fact>)
    ensures GatewaysPlaced(facts) <==>
              forall f :: f in facts && RuleFact(f) && RuleOf(f).gateway.Some? ==>
                exists m :: m in facts && Declares(m, RuleOf(f).gateway.value) && m.target == RuleOf(f).toZone
  {
    forall m: Fact, subject ensures Declares(m, subject) <==> MembershipFact(m) && m.source == subject {}
    forall r ensures r in RulesOf(facts) <==> exists f :: f in facts && RuleFact(f) && RuleOf(f) == r {
      InRules(facts, r);
    }
    hide RulesOf, RuleFact, RuleOf, MembershipFact, Declares;
    forall r: Rule | r.gateway.Some?
      ensures (exists f :: f in facts && MembershipFact(f) && f.source == r.gateway.value && f.target == r.toZone) <==>
                exists m :: m in facts && Declares(m, r.gateway.value) && m.target == r.toZone
    {
    }
  }

  // ---------- derived facts

  /** The fact derived for a crossing carries its ends, its zones and all its dimensions, and nothing else. */
  lemma DerivedFactMeans(c: Crossing)
    ensures var o, route, e := DerivedFacts.CrossingFact(c), c.route, c.route.edge;
            && o.kind == TrustBoundary && o.source == e.source && o.target == e.target && o.provenance == c.provenance
            && (forall name :: name in o.attributes ==>
                  name in {"role", "fromZone", "toZone", "evidenceKind", "direction", "protocol", "access",
                           "sensitiveData"})
            && Says(o.attributes, "role") == Some("crossing")
            && Says(o.attributes, "fromZone") == Some(route.fromZone)
            && Says(o.attributes, "toZone") == Some(route.toZone)
            && Says(o.attributes, "evidenceKind") == Some(e.evidence)
            && Says(o.attributes, "direction") == Some(e.direction)
            && Says(o.attributes, "protocol") == e.protocol && ("protocol" in o.attributes <==> e.protocol != None)
            && Says(o.attributes, "access") == e.access && ("access" in o.attributes <==> e.access != None)
            && ("sensitiveData" in o.attributes <==> route.sensitive)
            && (route.sensitive ==> o.attributes["sensitiveData"] == Bool(true))
  {
  }
}
