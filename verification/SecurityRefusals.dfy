/**
 * Well-formed inputs that the trust-boundary evaluation refuses all the same, and which inputs it
 * never refuses for that reason (architecture_security_drift.py).
 */
module SecurityRefusals {
  import opened Prelude
  import opened Json
  import opened FactAttributes
  import opened ArchitectureDrift
  import opened ObservationBodies
  import opened TrustBoundary
  import opened TrustCrossings
  import opened TrustEvaluation
  import opened TrustSecurity
  import opened TrustReport

  // ---------- nested evidence

  /**
   * One observed contract with a mapping for its schema: an empty topology, digestible observations,
   * valid evidence, no edge at all, and yet the evaluation ends in an error.
   */
  lemma NestedEvidenceRefused(key: Keys)
    ensures var observations := [Observation("o", [SchemaFact()])];
            var observed := AllFacts(observations);
            && InputsOk(observations, key) && TopologySound([], {}) && !OwnershipAmbiguous(observed)
            && (forall o :: o in observed ==> EvidenceValid(o) && Attestable(o))
            && (forall route :: !EdgeAlong([], {}, observed, route))
            && Refused([], {}, observed) && UnusableAt(observed, 0, Uncaught)
  {
    hide Hashable;
    var o, observations := SchemaFact(), [Observation("o", [SchemaFact()])];
    SchemaUnreportable(key);
    AllFactsAppend([], observations[0]);
    assert AllFacts(observations) == [o];
    assert "schema" in o.attributes && HoldsMapping(o.attributes["schema"]);
    assert o in [o] && Nested(o.attributes);
  }

  // ---------- the length of the message

  lemma {:induction false} JoinedAtMost(names: seq<string>)
    requires forall n :: n in names ==> |n| <= MAX_TEXT
    ensures |Joined(names)| <= (MAX_TEXT + 2) * |names|
  {
    if |names| > 0 {
      assert names[0] in names;
      JoinedAtMost(names[1..]);
    }
  }

  lemma {:induction false} JoinedExactly(names: seq<string>)
    requires |names| > 0 && forall n :: n in names ==> |n| == MAX_TEXT
    ensures |Joined(names)| + 2 == (MAX_TEXT + 2) * |names|
  {
    assert names[0] in names;
    if |names| > 1 {
      JoinedExactly(names[1..]);
    }
  }

  /** Controls of a sound topology are bounded texts. */
  lemma ControlBounded(facts: seq<Fact>, components: set<string>, route: Route, n: string)
    requires TopologySound(facts, components) && AnyRule(RulesOf(facts), route, ControlRule(n))
    ensures |n| <= MAX_TEXT
  {
    hide RulesOf, Unambiguous, GatewaysPlaced, DimensionMatch;
    var r :| r in RulesOf(facts) && Fits(r, route, ControlRule(n));
    InRules(facts, r);
    var f :| f in facts && RuleFact(f) && RuleOf(f) == r;
    assert BoundaryFactValid(f, components);
  }

  /** Up to fifteen missing controls always fit into the message. */
  lemma FifteenControlsFit(facts: seq<Fact>, components: set<string>, route: Route, attested: set<Attestation>,
                           missing: seq<string>)
    requires TopologySound(facts, components) && |missing| <= 15
    requires forall n :: n in missing ==> MissingControl(RulesOf(facts), route, attested, n)
    ensures MessageFits(missing)
  {
    hide TopologySound, RulesOf, AnyRule;
    forall n | n in missing ensures |n| <= MAX_TEXT { ControlBounded(facts, components, route, n); }
    JoinedAtMost(missing);
  }

  // ---------- sixteen long controls

  /** A control name of 256 characters. */
  function LongControl(i: nat): (control: string)
    requires i < 16
    ensures |control| == MAX_TEXT && control[0] == 'a' + i as char
  {
    ['a' + i as char] + seq(MAX_TEXT - 1, _ => 'x')
  }

  function LongControls(): seq<string>
  {
    seq(16, i requires 0 <= i < 16 => LongControl(i))
  }

  function MemberFact(id: string, subject: string, zone: string): Fact
  {
    Fact(id, TrustBoundary, Allowed, subject, zone, map["role" := Str("zone-membership")])
  }

  /** Data may be read across the boundary when this control is attested. */
  function ControlFact(i: nat): Fact
    requires i < 16
  {
    Fact(['r', 'a' + i as char], TrustBoundary, Allowed, "zone:a", "zone:b",
         map["role" := Str("boundary-rule"), "evidenceKind" := Str("data-access"), "direction" := Str("outbound"),
             "requiredControl" := Str(LongControl(i))])
  }

  function ControlledTopology(): seq<Fact>
  {
    [MemberFact("ma", "a", "zone:a"), MemberFact("mb", "b", "zone:b")]
    + seq(16, i requires 0 <= i < 16 => ControlFact(i))
  }

  function ReadAccess(): Observed
  {
    Observed(DataAccess, "a", "b", map["access" := Str("read")], [Place("c", 1, "", "")])
  }

  function ReadRoute(): Route
  {
    Route(Edge("a", "b", "data-access", "outbound", None, Some("read")), "zone:a", "zone:b", false)
  }

  lemma ControlFactValid(i: nat)
    requires i < 16
    ensures RuleFact(ControlFact(i)) && !MembershipFact(ControlFact(i)) && RuleValid(ControlFact(i), {})
    ensures var r := RuleOf(ControlFact(i));
            && r.gateway.None? && r.control == Some(LongControl(i)) && r.mode.Allowed?
            && DimensionMatch(r, ReadRoute(), true)
  {
    hide LongControl;
    OneRole(ControlFact(i));
  }

  lemma MemberFactValid(f: Fact)
    requires f == MemberFact("ma", "a", "zone:a") || f == MemberFact("mb", "b", "zone:b")
    ensures MembershipFact(f) && !RuleFact(f) && MembershipValid(f) && BoundaryFactValid(f, {})
    ensures MembershipOf(f) == Membership(f.target, false, None)
  {
    OneRole(f);
  }

  lemma TopologyFacts(f: Fact)
    ensures f in ControlledTopology() <==>
              (f == MemberFact("ma", "a", "zone:a") || f == MemberFact("mb", "b", "zone:b")
               || exists i :: 0 <= i < 16 && f == ControlFact(i))
  {
    hide ControlFact;
    var facts := ControlledTopology();
    assert facts[0] in facts && facts[1] in facts;
    if i :| 0 <= i < 16 && f == ControlFact(i) {
      assert facts[2 + i] == f;
    }
  }

  lemma TopologyRules(r: Rule)
    ensures r in RulesOf(ControlledTopology()) <==> exists i :: 0 <= i < 16 && r == RuleOf(ControlFact(i))
  {
    hide ControlFact, RuleOf, RuleFact, RulesOf, MemberFact, ControlledTopology;
    var facts := ControlledTopology();
    InRules(facts, r);
    forall f ensures f in facts && RuleFact(f) <==> exists i :: 0 <= i < 16 && f == ControlFact(i) {
      TopologyFacts(f);
      if i :| 0 <= i < 16 && f == ControlFact(i) { ControlFactValid(i); }
      if f == MemberFact("ma", "a", "zone:a") || f == MemberFact("mb", "b", "zone:b") { MemberFactValid(f); }
    }
  }

  lemma TopologyIsSound()
    ensures TopologySound(ControlledTopology(), {})
  {
    hide ControlFact, RuleOf, RulesOf, ControlledTopology, MembershipOf, RuleFact, RuleValid, MembershipValid;
    hide MembershipFact;
    var facts := ControlledTopology();
    forall f | f in facts
      ensures BoundaryFactValid(f, {})
      ensures MembershipFact(f) ==> f == MemberFact("ma", "a", "zone:a") || f == MemberFact("mb", "b", "zone:b")
    {
      TopologyFacts(f);
      if i :| 0 <= i < 16 && f == ControlFact(i) { ControlFactValid(i); }
      else { MemberFactValid(f); }
    }
    forall f, g | f in facts && g in facts && MembershipFact(f) && MembershipFact(g) && f.source == g.source
      ensures MembershipOf(f) == MembershipOf(g)
    {
    }
    forall r | r in RulesOf(facts) ensures r.gateway.None? {
      TopologyRules(r);
      var i :| 0 <= i < 16 && r == RuleOf(ControlFact(i));
      ControlFactValid(i);
    }
  }

  lemma ReadIsAnEdge()
    ensures EdgeAlong(ControlledTopology(), {}, [ReadAccess()], ReadRoute())
  {
    hide ControlledTopology, ControlFact, MembershipOf, MembershipFact;
    var facts, observed, a, b := ControlledTopology(), [ReadAccess()], MemberFact("ma", "a", "zone:a"),
      MemberFact("mb", "b", "zone:b");
    TopologyFacts(a);
    TopologyFacts(b);
    MemberFactValid(a);
    MemberFactValid(b);
    assert TrustCrossings.Member(facts, "a", "zone:a", false) && TrustCrossings.Member(facts, "b", "zone:b", false);
    assert HasMembership(facts, "a") && HasMembership(facts, "b");
    assert InZone(facts, observed, "a", "zone:a", false) && InZone(facts, observed, "b", "zone:b", false);
    assert ReadAccess() in observed;
  }

  lemma FitsControl(i: nat)
    requires i < 16
    ensures var r, route := RuleOf(ControlFact(i)), ReadRoute();
            && Fits(r, route, PermissiveRule) && !Fits(r, route, ForbiddenRule) && !Fits(r, route, GatewayRule)
            && forall n :: Fits(r, route, ControlRule(n)) <==> n == LongControl(i)
  {
    hide ControlFact, RuleOf, LongControl, ReadRoute, DimensionMatch;
    ControlFactValid(i);
  }

  lemma OnlyControls()
    ensures Passed(RulesOf(ControlledTopology()), ReadRoute(), 3)
  {
    assert !ReadRoute().sensitive;
    hide ControlledTopology, ControlFact, RulesOf, RuleOf, LongControl, ReadRoute, Fits;
    var rules := RulesOf(ControlledTopology());
    forall r | r in rules ensures !Fits(r, ReadRoute(), ForbiddenRule) && !Fits(r, ReadRoute(), GatewayRule) {
      TopologyRules(r);
      var i :| 0 <= i < 16 && r == RuleOf(ControlFact(i));
      FitsControl(i);
    }
    TopologyRules(RuleOf(ControlFact(0)));
    FitsControl(0);
  }

  lemma AllMissing(n: string)
    ensures n in LongControls() <==> MissingControl(RulesOf(ControlledTopology()), ReadRoute(), {}, n)
  {
    hide ControlledTopology, ControlFact, RulesOf, RuleOf, LongControl, ReadRoute, Fits;
    var rules := RulesOf(ControlledTopology());
    if n in LongControls() {
      var i :| 0 <= i < 16 && n == LongControl(i);
      TopologyRules(RuleOf(ControlFact(i)));
      FitsControl(i);
    }
    if AnyRule(rules, ReadRoute(), ControlRule(n)) {
      var r :| r in rules && Fits(r, ReadRoute(), ControlRule(n));
      TopologyRules(r);
      var i :| 0 <= i < 16 && r == RuleOf(ControlFact(i));
      FitsControl(i);
      assert LongControls()[i] == n;
    }
  }

  lemma LongControlsAscend()
    ensures Ascending(LongControls())
  {
    var names := LongControls();
    hide LongControl;
    forall i, j | 0 <= i < j < 16 ensures Less(names[i], names[j]) {
      assert names[i][0] < names[j][0];
    }
  }

  lemma LongControlsTooLong()
    ensures !MessageFits(LongControls())
  {
    hide LongControl, Joined;
    var names := LongControls();
    forall n | n in names ensures |n| == MAX_TEXT {
      var i :| 0 <= i < 16 && n == LongControl(i);
    }
    JoinedExactly(names);
    hide LongControls;
  }

  lemma ReadAccessUsable()
    ensures var observed := [ReadAccess()];
            && Attestations(observed) == {} && !OwnershipAmbiguous(observed)
            && forall o :: o in observed ==> Usable(o) && Attestable(o)
  {
  }

  /**
   * A sound topology and one valid observation of a data access: only sixteen controls are
   * unattested, and the evaluation refuses, because their names do not fit into the finding's message.
   */
  lemma SixteenControlsRefused()
    ensures var facts, observed := ControlledTopology(), [ReadAccess()];
            && TopologySound(facts, {}) && !OwnershipAmbiguous(observed)
            && (forall o :: o in observed ==> Usable(o) && Attestable(o))
            && !GatewayConflict(RulesOf(facts), ReadRoute()) && EdgeAlong(facts, {}, observed, ReadRoute())
            && Unspeakable(RulesOf(facts), ReadRoute(), Attestations(observed)) && Refused(facts, {}, observed)
  {
    hide ControlledTopology, RulesOf, MissingControl, Ascending, MessageFits, TopologySound, EdgeAlong, LongControls;
    hide Passed, ReadRoute, ReadAccess, Usable, Attestable, Attestations, OwnershipAmbiguous, Unspeakable;
    hide GatewayConflict;
    var facts := ControlledTopology();
    TopologyIsSound();
    ReadIsAnEdge();
    ReadAccessUsable();
    OnlyControls();
    forall n ensures n in LongControls() <==> MissingControl(RulesOf(facts), ReadRoute(), {}, n) { AllMissing(n); }
    LongControlsAscend();
    LongControlsTooLong();
    assert LongControls() != [] by { SixteenControls(); }
    UnspeakableIff(RulesOf(facts), ReadRoute(), {}, LongControls());
    NeverBoth(RulesOf(facts), ReadRoute(), {});
  }

  lemma SixteenControls()
    ensures |LongControls()| == 16
  {
  }
}
