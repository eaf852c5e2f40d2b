/**
 * Judging crossings against boundary rules: complete mediation of the cross-zone edges
 * (architecture_security_drift.py).
 */
module TrustEvaluation {
  import opened Prelude
  import opened JsonProofs
  import Json
  import opened FactAttributes
  import opened ArchitectureDrift
  import opened TrustBoundary
  import opened TrustCrossings
  import ArtifactGraphs

  /** Source subject, control, and the target subject it is limited to. */
  type Attestation = (string, string, Option<string>)

  // ---------- attested controls

  predicate AttestationFact(o: Observed)
  {
    o.kind.TrustBoundary? && Get(o.attributes, "role") == Json.Str("control-attestation")
  }

  predicate AttestationValid(o: Observed)
  {
    var target := Get(o.attributes, "targetSubject");
    o.attributes.Keys <= {"role", "targetSubject"} && (target.Null? || NonEmptyText(target))
  }

  function Attestations(observed: seq<Observed>): set<Attestation>
  {
    set o | o in observed && AttestationFact(o) :: (o.source, o.target, TextOf(o.attributes, "targetSubject"))
  }

  /** The attestation loop can read this fact. */
  predicate Attestable(o: Observed)
  {
    o.kind.TrustBoundary? ==> !Nested(o.attributes) && (AttestationFact(o) ==> AttestationValid(o))
  }

  /** The first boundary fact that cannot be read, and how the loop fails there. */
  ghost predicate UnattestableAt(observed: seq<Observed>, i: nat, error: Failure)
  {
    && i < |observed| && !Attestable(observed[i]) && (forall j :: 0 <= j < i ==> Attestable(observed[j]))
    && error == (if Nested(observed[i].attributes) then Uncaught else BadEvidence)
  }

  /** _control_attestations */
  method ControlAttestations(observed: seq<Observed>) returns (r: Result<set<Attestation>, Failure>)
    ensures r.Err? <==> exists o :: o in observed && !Attestable(o)
    ensures r.Err? ==> exists i :: UnattestableAt(observed, i, r.error)
    ensures r.Ok? ==> r.value == Attestations(observed)
  {
    var attested: set<Attestation> := {};
    for i := 0 to |observed|
      invariant forall j :: 0 <= j < i ==> Attestable(observed[j])
      invariant attested == Attestations(observed[..i])
    {
      hide AttestationValid, Nested;
      var o := observed[i];
      assert observed[..i + 1] == observed[..i] + [o];
      assert o in observed;
      if o.kind.TrustBoundary? {
        if Nested(o.attributes) {
          assert UnattestableAt(observed, i, Uncaught);
          return Err(Uncaught);
        }
        if AttestationFact(o) {
          if !AttestationValid(o) {
            assert UnattestableAt(observed, i, BadEvidence);
            return Err(BadEvidence);
          }
          attested := attested + {(o.source, o.target, TextOf(o.attributes, "targetSubject"))};
        }
      }
    }
    assert observed[..|observed|] == observed;
    return Ok(attested);
  }

  // ---------- rules and crossings

  /** _dimension_match */
  predicate DimensionMatch(r: Rule, route: Route, includeDirection: bool)
  {
    && r.fromZone == route.fromZone && r.toZone == route.toZone
    && r.evidence == route.edge.evidence
    && (includeDirection ==> r.direction == route.edge.direction)
    && (r.protocol.Some? ==> r.protocol == route.edge.protocol)
    && (r.access.Some? ==> r.access == route.edge.access)
  }

  /** _control_present */
  predicate ControlPresent(route: Route, control: string, attested: set<Attestation>)
  {
    (route.edge.source, control, Some(route.edge.target)) in attested || (route.edge.source, control, None) in attested
  }

  /** What a scan over the rules looks for. */
  datatype Sought =
    ForbiddenRule | PermissiveRule | GatewayRule | StrictRule | ControlRule(control: string) | AnyDirection

  predicate Fits(r: Rule, route: Route, sought: Sought)
  {
    match sought
    case ForbiddenRule => DimensionMatch(r, route, true) && r.mode.Forbidden?
    case PermissiveRule => DimensionMatch(r, route, true) && !r.mode.Forbidden?
    case GatewayRule => DimensionMatch(r, route, true) && !r.mode.Forbidden? && r.gateway.Some?
    case StrictRule => DimensionMatch(r, route, true) && !r.mode.Forbidden? && !r.allowSensitive
    case ControlRule(control) => DimensionMatch(r, route, true) && !r.mode.Forbidden? && r.control == Some(control)
    case AnyDirection => DimensionMatch(r, route, false)
  }

  ghost predicate AnyRule(rules: seq<Rule>, route: Route, sought: Sought)
  {
    exists r :: r in rules && Fits(r, route, sought)
  }

  /** The earliest rule of this sort. */
  ghost predicate IsFirst(rules: seq<Rule>, route: Route, sought: Sought, r: Rule)
  {
    exists k :: 0 <= k < |rules| && rules[k] == r && Fits(r, route, sought) &&
      forall j :: 0 <= j < k ==> !Fits(rules[j], route, sought)
  }

  method First(rules: seq<Rule>, route: Route, sought: Sought) returns (r: Option<Rule>)
    ensures r.None? <==> !AnyRule(rules, route, sought)
    ensures r.Some? ==> IsFirst(rules, route, sought, r.value)
  {
    hide Fits;
    for k := 0 to |rules|
      invariant forall j :: 0 <= j < k ==> !Fits(rules[j], route, sought)
    {
      if Fits(rules[k], route, sought) {
        assert rules[k] in rules;
        return Some(rules[k]);
      }
    }
    return None;
  }

  /**
   * A crossing is mediated: no rule forbids it, some rule permits it, it goes to the required
   * gateway, may carry its data, and has every required control attested.
   */
  ghost predicate Mediated(route: Route, rules: seq<Rule>, attested: set<Attestation>)
  {
    && !AnyRule(rules, route, ForbiddenRule)
    && AnyRule(rules, route, PermissiveRule)
    && (forall r :: r in rules && Fits(r, route, PermissiveRule) ==> Satisfies(route, r, attested))
  }

  /** What one permissive rule asks of a crossing. */
  predicate Satisfies(route: Route, r: Rule, attested: set<Attestation>)
  {
    && (r.gateway.Some? ==> r.gateway.value == route.edge.target)
    && (route.sensitive ==> r.allowSensitive)
    && (r.control.Some? ==> ControlPresent(route, r.control.value, attested))
  }

  ghost predicate GatewayConflict(rules: seq<Rule>, route: Route)
  {
    && !AnyRule(rules, route, ForbiddenRule)
    && exists p, q ::
         && p in rules && q in rules && Fits(p, route, GatewayRule) && Fits(q, route, GatewayRule)
         && p.gateway != q.gateway
  }

  ghost predicate GatewayMet(rules: seq<Rule>, route: Route)
  {
    forall r :: r in rules && Fits(r, route, GatewayRule) ==> r.gateway.value == route.edge.target
  }

  ghost predicate DataPermitted(rules: seq<Rule>, route: Route)
  {
    route.sensitive ==> !AnyRule(rules, route, StrictRule)
  }

  ghost predicate MissingControl(rules: seq<Rule>, route: Route, attested: set<Attestation>, control: string)
  {
    AnyRule(rules, route, ControlRule(control)) && !ControlPresent(route, control, attested)
  }

  ghost predicate ByFirst(x: Finding, rules: seq<Rule>, route: Route, sought: Sought)
  {
    exists r :: IsFirst(rules, route, sought, r) && x.factId == Some(r.id)
  }

  /**
   * The one finding that a crossing which is not mediated gets: which requirement failed first, and
   * which rule says so.
   */
  ghost predicate Verdict(x: Finding, c: Crossing, rules: seq<Rule>, attested: set<Attestation>)
  {
    && x.kind.TrustBoundary? && x.source == c.route.edge.source && x.target == c.route.edge.target
       && x.provenance == c.provenance
    && match x.code
       case BoundaryForbidden => ByFirst(x, rules, c.route, ForbiddenRule) && x.named == []
       case GatewayBypass =>
         && Passed(rules, c.route, 1) && !GatewayMet(rules, c.route)
         && exists r ::
              IsFirst(rules, c.route, GatewayRule, r) && x.factId == Some(r.id) && x.named == [r.gateway.value]
       case SensitiveDataCrossing =>
         Passed(rules, c.route, 2) && !DataPermitted(rules, c.route) && ByFirst(x, rules, c.route, StrictRule)
           && x.named == []
       case ControlMissing =>
         && Passed(rules, c.route, 3)
         && |x.named| > 0 && (
              forall control :: control in x.named <==> MissingControl(rules, c.route, attested, control))
         && Ascending(x.named) && ByFirst(x, rules, c.route, ControlRule(x.named[0]))
       case DirectionChange =>
         Unruled(rules, c.route) && ByFirst(x, rules, c.route, AnyDirection) && x.named == []
       case ExposureChange =>
         Unruled(rules, c.route) && !AnyRule(rules, c.route, AnyDirection) && TouchesExternal(c.route)
           && x.factId.None? && x.named == []
       case BoundaryUnapproved =>
         Unruled(rules, c.route) && !AnyRule(rules, c.route, AnyDirection) && !TouchesExternal(c.route)
           && x.factId.None? && x.named == []
       case _ => false
  }

  predicate TouchesExternal(route: Route)
  {
    route.fromZone == EXTERNAL_ZONE || route.toZone == EXTERNAL_ZONE
  }

  predicate Ascending(names: seq<string>)
  {
    forall i, j :: 0 <= i < j < |names| ==> Json.Less(names[i], names[j])
  }

  ghost predicate Unruled(rules: seq<Rule>, route: Route)
  {
    !AnyRule(rules, route, ForbiddenRule) && !AnyRule(rules, route, PermissiveRule)
  }

  /** The requirements that are checked before the given stage are met. */
  ghost predicate Passed(rules: seq<Rule>, route: Route, stage: nat)
  {
    && !AnyRule(rules, route, ForbiddenRule)
    && AnyRule(rules, route, PermissiveRule)
    && (stage > 1 ==> GatewayMet(rules, route))
    && (stage > 2 ==> DataPermitted(rules, route))
  }

  lemma MediatedIff(route: Route, rules: seq<Rule>, attested: set<Attestation>)
    ensures Mediated(route, rules, attested) <==>
              Passed(rules, route, 3) && forall control :: !MissingControl(rules, route, attested, control)
  {
    hide DimensionMatch;
    if Mediated(route, rules, attested) {
      forall control ensures !MissingControl(rules, route, attested, control) {
        if AnyRule(rules, route, ControlRule(control)) {
          var r :| r in rules && Fits(r, route, ControlRule(control));
          assert Fits(r, route, PermissiveRule);
        }
      }
      forall r | r in rules && Fits(r, route, GatewayRule) ensures r.gateway.value == route.edge.target {
        assert Fits(r, route, PermissiveRule);
      }
    } else if Passed(rules, route, 3) {
      var r :| r in rules && Fits(r, route, PermissiveRule) && !Satisfies(route, r, attested);
      if r.gateway.Some? { assert Fits(r, route, GatewayRule); }
      assert Fits(r, route, ControlRule(r.control.value));
      assert MissingControl(rules, route, attested, r.control.value);
    }
  }

  /** A finding is only ever given to a crossing that is not mediated. */
  lemma VerdictMeansUnmediated(x: Finding, c: Crossing, rules: seq<Rule>, attested: set<Attestation>)
    requires Verdict(x, c, rules, attested)
    ensures !Mediated(c.route, rules, attested)
  {
    hide Fits;
    MediatedIff(c.route, rules, attested);
    if x.code.BoundaryForbidden? {
      var r :| IsFirst(rules, c.route, ForbiddenRule, r) && x.factId == Some(r.id);
      assert r in rules;
    } else if x.code.ControlMissing? {
      assert x.named[0] in x.named;
    }
  }

  lemma FirstUnique(rules: seq<Rule>, route: Route, sought: Sought, p: Rule, q: Rule)
    requires IsFirst(rules, route, sought, p) && IsFirst(rules, route, sought, q)
    ensures p == q && AnyRule(rules, route, sought)
  {
    hide Fits;
    assert p in rules;
  }

  /** A list in strictly ascending order is determined by its elements. */
  lemma {:induction false} AscendingUnique(a: seq<string>, b: seq<string>)
    requires Ascending(a) && Ascending(b) && forall n :: n in a <==> n in b
    ensures a == b
    decreases |a|
  {
    hide Json.Less;
    if |a| == 0 {
      Inhabited(b);
    } else {
      var first := a[0];
      assert first in b;
      assert b[0] in a;
      LeastFirst(a, b[0]);
      LeastFirst(b, first);
      if b[0] != first {
        LessTransitive(first, b[0], first);
        LessIrreflexive(first);
      }
      forall n ensures n in a[1..] <==> n in b[1..] {
        TailOf(a, n);
        TailOf(b, n);
      }
      AscendingUnique(a[1..], b[1..]);
    }
  }

  lemma Inhabited(b: seq<string>)
    ensures b == [] || exists n :: n in b
  {
    if |b| > 0 { assert b[0] in b; }
  }

  lemma LeastFirst(a: seq<string>, n: string)
    requires Ascending(a) && n in a
    ensures n == a[0] || Json.Less(a[0], n)
  {
  }

  lemma TailOf(a: seq<string>, n: string)
    requires Ascending(a) && |a| > 0
    ensures n in a[1..] <==> n in a && n != a[0]
  {
    LessIrreflexive(a[0]);
    assert a == [a[0]] + a[1..];
  }

  lemma SameFirst(rules: seq<Rule>, route: Route, sought: Sought, x: Finding, y: Finding)
    requires ByFirst(x, rules, route, sought) && ByFirst(y, rules, route, sought)
    ensures x.factId == y.factId && AnyRule(rules, route, sought)
  {
    var p :| IsFirst(rules, route, sought, p) && x.factId == Some(p.id);
    var q :| IsFirst(rules, route, sought, q) && y.factId == Some(q.id);
    FirstUnique(rules, route, sought, p, q);
  }

  /** The verdict on a crossing is determined, down to the rule it blames and the controls it names. */
  lemma VerdictUnique(x: Finding, y: Finding, c: Crossing, rules: seq<Rule>, attested: set<Attestation>)
    requires Verdict(x, c, rules, attested) && Verdict(y, c, rules, attested)
    ensures x == y
  {
    hide Fits, IsFirst, GatewayMet, MissingControl, ByFirst, Ascending;
    forall sought | ByFirst(x, rules, c.route, sought) && ByFirst(y, rules, c.route, sought)
      ensures x.factId == y.factId && AnyRule(rules, c.route, sought)
    {
      SameFirst(rules, c.route, sought, x, y);
    }
    forall sought, p, q | IsFirst(rules, c.route, sought, p) && IsFirst(rules, c.route, sought, q)
      ensures p == q && AnyRule(rules, c.route, sought)
    {
      FirstUnique(rules, c.route, sought, p, q);
    }
    VerdictCode(x, y, c, rules, attested);
    if x.code.ControlMissing? {
      AscendingUnique(x.named, y.named);
    }
  }

  lemma VerdictCode(x: Finding, y: Finding, c: Crossing, rules: seq<Rule>, attested: set<Attestation>)
    requires Verdict(x, c, rules, attested) && Verdict(y, c, rules, attested)
    ensures x.code == y.code
  {
    hide Fits, GatewayMet, MissingControl, Ascending;
    forall z: Finding, sought | ByFirst(z, rules, c.route, sought) ensures AnyRule(rules, c.route, sought) {
      SameFirst(rules, c.route, sought, z, z);
    }
  }

  // ---------- the finding about missing controls

  const MAX_MESSAGE: nat := 4096
  const CONTROL_MESSAGE := "trust-boundary crossing is missing required control attestation: "

  /** ", ".join(names) */
  function Joined(names: seq<string>): string
  {
    if |names| == 0 then "" else if |names| == 1 then names[0] else names[0] + ", " + Joined(names[1..])
  }

  /** The finding's message names these controls, and a finding's message is bounded. */
  predicate MessageFits(names: seq<string>)
  {
    |CONTROL_MESSAGE + Joined(names)| <= MAX_MESSAGE
  }

  /** Only controls are missing, and so many that the finding about them cannot be made. */
  ghost predicate Unspeakable(rules: seq<Rule>, route: Route, attested: set<Attestation>)
  {
    && Passed(rules, route, 3)
    && exists missing ::
         && Ascending(missing) && (forall n :: n in missing <==> MissingControl(rules, route, attested, n))
         && missing != [] && !MessageFits(missing)
  }

  /** Exactly these controls are missing, so the message is determined. */
  lemma UnspeakableIff(rules: seq<Rule>, route: Route, attested: set<Attestation>, missing: seq<string>)
    requires Passed(rules, route, 3)
    requires Ascending(missing) && forall n :: n in missing <==> MissingControl(rules, route, attested, n)
    ensures Unspeakable(rules, route, attested) <==> missing != [] && !MessageFits(missing)
  {
    hide MissingControl, Ascending, MessageFits;
    forall other | Ascending(other) && (forall n :: n in other <==> MissingControl(rules, route, attested, n))
      ensures other == missing
    {
      AscendingUnique(other, missing);
    }
  }

  /** Controls are looked at only where the gateway is settled. */
  lemma NeverBoth(rules: seq<Rule>, route: Route, attested: set<Attestation>)
    ensures !(GatewayConflict(rules, route) && Unspeakable(rules, route, attested))
    ensures Unspeakable(rules, route, attested) ==> Passed(rules, route, 3)
  {
    hide DimensionMatch, DataPermitted, MissingControl, Ascending, MessageFits;
  }

  // ---------- the judging loop

  lemma {:induction false} SortedAscends(ids: set<string>)
    ensures Ascending(ArtifactGraphs.SortedKeys(ids))
    decreases |ids|
  {
    hide Json.Less;
    if ids != {} {
      ArtifactGraphs.LeastUnique(ids);
      var keys := ArtifactGraphs.SortedKeys(ids);
      var least := keys[0];
      SortedAscends(ids - {least});
      assert keys[1..] == ArtifactGraphs.SortedKeys(ids - {least});
      forall j | 0 < j < |keys| ensures Json.Less(keys[0], keys[j]) && keys[j] == keys[1..][j - 1] {
        assert keys[1..][j - 1] in keys[1..];
      }
    }
  }

  /** [control for control in controls if not _control_present(...)] */
  function Unattested(controls: seq<string>, route: Route, attested: set<Attestation>): (missing: seq<string>)
    ensures forall n :: n in missing <==> n in controls && !ControlPresent(route, n, attested)
  {
    if |controls| == 0 then []
    else
      assert forall n :: n in controls <==> n == controls[0] || n in controls[1..];
      (if ControlPresent(route, controls[0], attested) then [] else [controls[0]])
        + Unattested(controls[1..], route, attested)
  }

  lemma {:induction false} UnattestedAscends(controls: seq<string>, route: Route, attested: set<Attestation>)
    requires Ascending(controls)
    ensures Ascending(Unattested(controls, route, attested))
  {
    hide Json.Less, ControlPresent;
    if |controls| > 0 {
      UnattestedAscends(controls[1..], route, attested);
      forall n | n in Unattested(controls[1..], route, attested) ensures Json.Less(controls[0], n) {
        var j :| 0 <= j < |controls| - 1 && controls[1..][j] == n;
        assert controls[j + 1] == n;
      }
    }
  }

  /**
   * The body of the loop over crossings: at most one finding, or a refusal of conflicting gateways or
   * of missing controls that do not fit into a message.
   */
  method JudgeCrossing(c: Crossing, rules: seq<Rule>,
                       attested: set<Attestation>) returns (r: Result<Option<Finding>, Failure>)
    ensures r.Err? <==> GatewayConflict(rules, c.route) || Unspeakable(rules, c.route, attested)
    ensures r.Err? ==> r.error == if GatewayConflict(rules, c.route) then Ambiguous else BadArchitecture
    ensures r.Ok? ==> (r.value.None? <==> Mediated(c.route, rules, attested))
    ensures r.Ok? && r.value.Some? ==> Verdict(r.value.value, c, rules, attested)
  {
    hide Fits, Mediated, Json.Less, ControlPresent;
    var route := c.route;
    NeverBoth(rules, route, attested);
    var blank := Finding(BoundaryForbidden, TrustBoundary, route.edge.source, route.edge.target, None, [],
      c.provenance);
    MediatedIff(route, rules, attested);
    var forbidden := First(rules, route, ForbiddenRule);
    if forbidden.Some? {
      FirstUnique(rules, route, ForbiddenRule, forbidden.value, forbidden.value);
      return Ok(Some(blank.(factId := Some(forbidden.value.id))));
    }
    var permissive := First(rules, route, PermissiveRule);
    if permissive.Some? {
      FirstUnique(rules, route, PermissiveRule, permissive.value, permissive.value);
      r := JudgePermitted(c, rules, attested, blank);
      return;
    }
    NoConflict(rules, route);
    var near := First(rules, route, AnyDirection);
    if near.Some? {
      return Ok(Some(blank.(code := DirectionChange, factId := Some(near.value.id))));
    }
    if TouchesExternal(route) {
      return Ok(Some(blank.(code := ExposureChange)));
    }
    return Ok(Some(blank.(code := BoundaryUnapproved)));
  }

  /** The branch where a permissive rule matches: gateway, then data, then controls. */
  method JudgePermitted(c: Crossing, rules: seq<Rule>, attested: set<Attestation>, blank: Finding)
    returns (r: Result<Option<Finding>, Failure>)
    requires Passed(rules, c.route, 1)
    requires blank.kind.TrustBoundary? && blank.source == c.route.edge.source && blank.target == c.route.edge.target
    requires blank.provenance == c.provenance && blank.named == []
    ensures r.Err? <==> GatewayConflict(rules, c.route) || Unspeakable(rules, c.route, attested)
    ensures r.Err? ==> r.error == if GatewayConflict(rules, c.route) then Ambiguous else BadArchitecture
    ensures r.Ok? ==> (r.value.None? <==> Mediated(c.route, rules, attested))
    ensures r.Ok? && r.value.Some? ==> Verdict(r.value.value, c, rules, attested)
  {
    var route := c.route;
    var gateways := set q | q in rules && Fits(q, route, GatewayRule) :: q.gateway.value;
    GatewaySet(rules, route, gateways);
    hide Fits, Mediated, Json.Less, ControlPresent, GatewayConflict, GatewayMet;
    MediatedIff(route, rules, attested);
    NeverBoth(rules, route, attested);
    if |gateways| > 1 {
      return Err(Ambiguous);
    }
    var strict := First(rules, route, GatewayRule);
    if strict.Some? {
      GatewayChosen(rules, route, gateways, strict.value);
      var gateway := strict.value.gateway.value;
      if route.edge.target != gateway {
        return Ok(Some(blank.(code := GatewayBypass, factId := Some(strict.value.id), named := [gateway])));
      }
    } else {
      NoGateways(rules, route);
    }
    if route.sensitive {
      var strictData := First(rules, route, StrictRule);
      if strictData.Some? {
        FirstUnique(rules, route, StrictRule, strictData.value, strictData.value);
        return Ok(Some(blank.(code := SensitiveDataCrossing, factId := Some(strictData.value.id))));
      }
    }
    r := JudgeControls(c, rules, attested, blank);
  }

  /** The required controls that nobody attested, in order. */
  method MissingControls(rules: seq<Rule>, route: Route, attested: set<Attestation>) returns (missing: seq<string>)
    ensures Ascending(missing) && forall n :: n in missing <==> MissingControl(rules, route, attested, n)
  {
    var controls := RequiredControls(rules, route);
    hide Fits, Json.Less, ControlPresent, AnyRule;
    SortedAscends(controls);
    missing := Unattested(ArtifactGraphs.SortedKeys(controls), route, attested);
    UnattestedAscends(ArtifactGraphs.SortedKeys(controls), route, attested);
    forall n ensures n in missing <==> MissingControl(rules, route, attested, n) {}
  }

  method JudgeControls(c: Crossing, rules: seq<Rule>, attested: set<Attestation>, blank: Finding)
    returns (r: Result<Option<Finding>, Failure>)
    requires Passed(rules, c.route, 3)
    requires blank.kind.TrustBoundary? && blank.source == c.route.edge.source && blank.target == c.route.edge.target
    requires blank.provenance == c.provenance && blank.named == []
    ensures r.Err? <==> Unspeakable(rules, c.route, attested)
    ensures r.Err? ==> r.error == BadArchitecture
    ensures r.Ok? ==> (r.value.None? <==> Mediated(c.route, rules, attested))
    ensures r.Ok? && r.value.Some? ==> Verdict(r.value.value, c, rules, attested)
  {
    var route := c.route;
    MediatedIff(route, rules, attested);
    hide Fits, Mediated, Json.Less, ControlPresent, GatewayMet, DataPermitted, Ascending, MessageFits, Unspeakable;
    var missing := MissingControls(rules, route, attested);
    UnspeakableIff(rules, route, attested, missing);
    if |missing| > 0 {
      assert missing[0] in missing;
      if !MessageFits(missing) {
        return Err(BadArchitecture);
      }
      var first := First(rules, route, ControlRule(missing[0]));
      return Ok(Some(blank.(code := ControlMissing, factId := Some(first.value.id), named := missing)));
    }
    return Ok(None);
  }

  function RequiredControls(rules: seq<Rule>, route: Route): (controls: set<string>)
    ensures forall n :: n in controls <==> AnyRule(rules, route, ControlRule(n))
  {
    var controls := set q | q in rules && Fits(q, route, PermissiveRule) && q.control.Some? :: q.control.value;
    assert forall q, n :: Fits(q, route, ControlRule(n)) <==> Fits(q, route, PermissiveRule) && q.control == Some(n);
    controls
  }

  lemma GatewaySet(rules: seq<Rule>, route: Route, gateways: set<string>)
    requires Passed(rules, route, 1)
    requires gateways == set q | q in rules && Fits(q, route, GatewayRule) :: q.gateway.value
    ensures |gateways| > 1 <==> GatewayConflict(rules, route)
  {
    hide DimensionMatch;
    if p, q :|
      && p in rules && q in rules && Fits(p, route, GatewayRule) && Fits(q, route, GatewayRule)
      && p.gateway != q.gateway {
      assert p.gateway.value in gateways && q.gateway.value in gateways;
      OneValueIff(gateways, p.gateway.value);
    }
    if |gateways| > 1 {
      var g :| g in gateways;
      OneValueIff(gateways, g);
      var h :| h in gateways && h != g;
    }
  }

  lemma GatewayChosen(rules: seq<Rule>, route: Route, gateways: set<string>, r: Rule)
    requires IsFirst(rules, route, GatewayRule, r) && |gateways| <= 1
    requires gateways == set q | q in rules && Fits(q, route, GatewayRule) :: q.gateway.value
    ensures r.gateway.Some? && (GatewayMet(rules, route) <==> route.edge.target == r.gateway.value)
  {
    hide DimensionMatch;
    assert r in rules && Fits(r, route, GatewayRule) && r.gateway.value in gateways;
    assert forall q :: q in rules && Fits(q, route, GatewayRule) ==> q.gateway.value in gateways;
    OneValueIff(gateways, r.gateway.value);
  }

  lemma NoConflict(rules: seq<Rule>, route: Route)
    requires !AnyRule(rules, route, PermissiveRule)
    ensures !GatewayConflict(rules, route)
  {
    hide DimensionMatch;
    forall r | r in rules ensures !Fits(r, route, GatewayRule) {
      assert !Fits(r, route, PermissiveRule);
    }
  }

  lemma NoGateways(rules: seq<Rule>, route: Route)
    requires !AnyRule(rules, route, GatewayRule)
    ensures GatewayMet(rules, route)
  {
  }
}
