/** Trust zones, boundary rules and the evaluation of every cross-zone edge (architecture_security_drift.py). */
module TrustBoundary {
  import opened Prelude
  import opened ArtifactGraphs
  import opened Json
  import opened FactAttributes
  import opened ArchitectureDrift

  const DERIVED_OBSERVER := "trust-boundary-security"
  const EXTERNAL_SUBJECT := "external:public"
  const EXTERNAL_ZONE := "zone:external"
  const HTTP_ENDPOINT := "endpoint:http"
  const MAX_TEXT: nat := 256

  // ---------- attributes

  function Get(a: Attributes, name: string): Json
  {
    if name in a then a[name] else Null
  }

  /** _text_attribute succeeds. */
  predicate TextOk(a: Attributes, name: string, required: bool)
  {
    var v := Get(a, name);
    (v.Null? && !required) || (v.Str? && 0 < |v.s| <= MAX_TEXT)
  }

  function TextOf(a: Attributes, name: string): Option<string>
  {
    if Get(a, name).Str? then Some(Get(a, name).s) else None
  }

  /** _bool_attribute succeeds: an explicit null is refused. */
  predicate FlagOk(a: Attributes, name: string)
  {
    name in a ==> a[name].Bool?
  }

  function FlagOf(a: Attributes, name: string): bool
  {
    name in a && a[name] == Bool(true)
  }

  // ---------- the approved topology

  datatype Membership = Membership(zone: string, sensitive: bool, exposure: Option<string>)

  datatype Rule = Rule(id: string, mode: Mode, fromZone: string, toZone: string, evidence: string,
    direction: string, protocol: Option<string>, access: Option<string>, gateway: Option<string>,
    control: Option<string>, allowSensitive: bool)

  datatype Topology = Topology(members: map<string, Membership>, rules: seq<Rule>)

  predicate MembershipFact(f: Fact)
  {
    f.kind.TrustBoundary? && Get(f.attributes, "role") == Str("zone-membership")
  }

  predicate RuleFact(f: Fact)
  {
    f.kind.TrustBoundary? && Get(f.attributes, "role") == Str("boundary-rule")
  }

  predicate MembershipValid(f: Fact)
  {
    && f.attributes.Keys <= {"role", "sensitive", "exposure"}
    && !f.mode.Forbidden?
    && "zone:" <= f.target
    && TextOk(f.attributes, "exposure", false)
    && FlagOk(f.attributes, "sensitive")
  }

  predicate RuleValid(f: Fact, components: set<string>)
  {
    var a := f.attributes;
    && a.Keys <= {"role", "evidenceKind", "direction", "protocol", "access", "gateway", "requiredControl",
       "allowSensitiveData"}
    && "zone:" <= f.source && "zone:" <= f.target
    && TextOk(a, "evidenceKind", true) && TextOk(a, "direction", true)
    && a["evidenceKind"].s in {"communication", "data-access", "deployment"}
    && a["direction"].s in {"inbound", "outbound", "placement"}
    && TextOk(a, "gateway", false) && TextOk(a, "requiredControl", false)
    && (TextOf(a, "gateway").Some? ==> TextOf(a, "gateway").value in components)
    && (f.mode.Forbidden? ==> TextOf(a, "gateway").None? && TextOf(a, "requiredControl").None?)
    && TextOk(a, "protocol", false) && TextOk(a, "access", false) && FlagOk(a, "allowSensitiveData")
  }

  predicate BoundaryFactValid(f: Fact, components: set<string>)
  {
    f.kind.TrustBoundary? ==> (MembershipFact(f) && MembershipValid(f)) || (RuleFact(f) && RuleValid(f, components))
  }

  /** A valid boundary fact has no nested mapping: all the attributes it may have are flags or texts. */
  lemma ValidIsFlat(f: Fact, components: set<string>)
    requires f.kind.TrustBoundary? && BoundaryFactValid(f, components)
    ensures !Nested(f.attributes)
  {
  }

  /** The first invalid boundary fact: a nested mapping in it ends in a TypeError. */
  ghost predicate FaultAt(facts: seq<Fact>, components: set<string>, i: nat, error: Failure)
  {
    && i < |facts| && !BoundaryFactValid(facts[i], components)
    && (forall j :: 0 <= j < i ==> BoundaryFactValid(facts[j], components))
    && error == (if Nested(facts[i].attributes) then Uncaught else BadTopology)
  }

  function MembershipOf(f: Fact): Membership
  {
    Membership(f.target, FlagOf(f.attributes, "sensitive"), TextOf(f.attributes, "exposure"))
  }

  function RuleOf(f: Fact): Rule
  {
    var a := f.attributes;
    var evidence, direction := TextOf(a, "evidenceKind"), TextOf(a, "direction");
    Rule(f.id, f.mode, f.source, f.target,
         if evidence.Some? then evidence.value else "", if direction.Some? then direction.value else "",
         TextOf(a, "protocol"), TextOf(a, "access"), TextOf(a, "gateway"), TextOf(a, "requiredControl"),
         FlagOf(a, "allowSensitiveData"))
  }

  /** The boundary rules of a topology, in fact order. */
  function RulesOf(facts: seq<Fact>): seq<Rule>
  {
    if |facts| == 0 then []
    else
      var before := RulesOf(facts[..|facts| - 1]);
      if RuleFact(facts[|facts| - 1]) then before + [RuleOf(facts[|facts| - 1])] else before
  }

  lemma {:induction false} InRules(facts: seq<Fact>, r: Rule)
    ensures r in RulesOf(facts) <==> exists f :: f in facts && RuleFact(f) && RuleOf(f) == r
  {
    if |facts| > 0 {
      var init, last := facts[..|facts| - 1], facts[|facts| - 1];
      InRules(init, r);
      assert facts == init + [last];
      assert forall f :: f in facts <==> f in init || f == last;
      hide RuleOf, RuleFact;
    }
  }

  ghost predicate HasMembership(facts: seq<Fact>, subject: string)
  {
    exists f :: f in facts && MembershipFact(f) && f.source == subject
  }

  /** No subject is assigned to two zones, or described in two ways. */
  ghost predicate Unambiguous(facts: seq<Fact>)
  {
    forall f, g :: f in facts && g in facts && MembershipFact(f) && MembershipFact(g) && f.source == g.source
                   ==> MembershipOf(f) == MembershipOf(g)
  }

  ghost predicate IsMemberships(members: map<string, Membership>, facts: seq<Fact>)
  {
    && (forall f :: f in facts && MembershipFact(f) ==> f.source in members && members[f.source] == MembershipOf(f))
    && (forall s :: s in members ==> HasMembership(facts, s))
  }

  /** A gateway is a member of the zone its rule leads into. */
  predicate GatewayPlaced(r: Rule, members: map<string, Membership>)
  {
    r.gateway.Some? ==> r.gateway.value in members && members[r.gateway.value].zone == r.toZone
  }

  ghost predicate GatewaysPlaced(facts: seq<Fact>)
  {
    forall r :: r in RulesOf(facts) && r.gateway.Some? ==>
      exists f :: f in facts && MembershipFact(f) && f.source == r.gateway.value && f.target == r.toZone
  }

  /** _parse_security_topology accepts exactly these topologies. */
  ghost predicate TopologySound(facts: seq<Fact>, components: set<string>)
  {
    && (forall f :: f in facts ==> BoundaryFactValid(f, components))
    && Unambiguous(facts)
    && GatewaysPlaced(facts)
  }

  ghost predicate BySubject(groups: map<string, seq<Membership>>, facts: seq<Fact>)
  {
    && (forall s, m :: s in groups && m in groups[s] ==>
          exists f :: f in facts && MembershipFact(f) && f.source == s && MembershipOf(f) == m)
    && (forall f :: f in facts && MembershipFact(f) ==> f.source in groups && MembershipOf(f) in groups[f.source])
    && (forall s :: s in groups ==> |groups[s]| > 0)
  }

  lemma BySubjectStep(groups: map<string, seq<Membership>>, facts: seq<Fact>, f: Fact)
    requires BySubject(groups, facts)
    ensures MembershipFact(f) ==>
              BySubject(groups[f.source := (if f.source in groups then groups[f.source] else []) + [MembershipOf(f)]],
                facts + [f])
    ensures !MembershipFact(f) ==> BySubject(groups, facts + [f])
  {
    hide MembershipFact, MembershipOf;
    forall s, m | s in groups && m in groups[s]
      ensures exists g :: g in facts + [f] && MembershipFact(g) && g.source == s && MembershipOf(g) == m
    {
      var g :| g in facts && MembershipFact(g) && g.source == s && MembershipOf(g) == m;
      assert g in facts + [f];
    }
    assert f in facts + [f];
  }

  /** One fact of the first loop: what is wrong with it, if anything. */
  method CheckBoundaryFact(f: Fact, components: set<string>) returns (fault: Option<Failure>)
    ensures fault.None? <==> BoundaryFactValid(f, components)
    ensures fault.Some? ==> fault.value == if Nested(f.attributes) then Uncaught else BadTopology
  {
    hide MembershipValid, RuleValid, Nested;
    if !f.kind.TrustBoundary? {
      return None;
    }
    if Nested(f.attributes) {
      if BoundaryFactValid(f, components) { ValidIsFlat(f, components); }
      return Some(Uncaught);
    }
    if MembershipFact(f) {
      return if MembershipValid(f) then None else Some(BadTopology);
    }
    if RuleFact(f) {
      return if RuleValid(f, components) then None else Some(BadTopology);
    }
    return Some(BadTopology);
  }

  /** The first loop of _parse_security_topology. */
  method ReadBoundaryFacts(facts: seq<Fact>, components: set<string>)
    returns (r: Result<(map<string, seq<Membership>>, seq<Rule>), Failure>)
    ensures r.Err? <==> exists f :: f in facts && !BoundaryFactValid(f, components)
    ensures r.Err? ==> exists i :: FaultAt(facts, components, i, r.error)
    ensures r.Ok? ==> BySubject(r.value.0, facts) && r.value.1 == RulesOf(facts)
  {
    var groups: map<string, seq<Membership>> := map[];
    var rules: seq<Rule> := [];
    for i := 0 to |facts|
      invariant forall j :: 0 <= j < i ==> BoundaryFactValid(facts[j], components)
      invariant BySubject(groups, facts[..i]) && rules == RulesOf(facts[..i])
    {
      hide MembershipOf, RuleOf, MembershipFact, RuleFact, BoundaryFactValid, BySubject, Nested;
      var f := facts[i];
      assert facts[..i + 1] == facts[..i] + [f] && facts[..i + 1][..i] == facts[..i];
      BySubjectStep(groups, facts[..i], f);
      var fault := CheckBoundaryFact(f, components);
      if fault.Some? {
        assert f in facts && FaultAt(facts, components, i, fault.value);
        return Err(fault.value);
      }
      OneRole(f);
      if MembershipFact(f) {
        groups := groups[f.source := (if f.source in groups then groups[f.source] else []) + [MembershipOf(f)]];
      } else if RuleFact(f) {
        rules := rules + [RuleOf(f)];
      }
    }
    assert facts[..|facts|] == facts;
    return Ok((groups, rules));
  }

  lemma OneRole(f: Fact)
    ensures !(MembershipFact(f) && RuleFact(f))
  {
    var membership, rule := "zone-membership", "boundary-rule";
    assert membership[0] != rule[0];
  }

  lemma OneValueIff<T>(values: set<T>, v: T)
    requires v in values
    ensures |values| == 1 <==> forall w :: w in values ==> w == v
  {
    assert |values - {v}| == |values| - 1;
    if forall w :: w in values ==> w == v {
      assert values - {v} == {};
    }
    if |values| == 1 {
      assert values - {v} == {};
      assert values == {v} + (values - {v});
    }
  }

  /** One subject has one zone and one description. */
  method OneDescription(values: seq<Membership>) returns (ok: bool)
    requires |values| > 0
    ensures ok <==> forall m :: m in values ==> m == values[0]
  {
    var zones := set m <- values :: m.zone;
    var sensitive := set m <- values :: m.sensitive;
    var exposures := set m <- values :: m.exposure;
    var first := values[0];
    assert first in values;
    assert first.zone in zones && first.sensitive in sensitive && first.exposure in exposures;
    OneValueIff(zones, first.zone);
    OneValueIff(sensitive, first.sensitive);
    OneValueIff(exposures, first.exposure);
    ok := |zones| == 1 && |sensitive| == 1 && |exposures| == 1;
    if ok {
      forall m | m in values ensures m == first {
        assert m.zone in zones && m.sensitive in sensitive && m.exposure in exposures;
      }
    }
  }

  /** The second loop: one membership a subject. */
  method SettleMemberships(groups: map<string, seq<Membership>>, ghost facts: seq<Fact>)
    returns (r: Option<map<string, Membership>>)
    requires BySubject(groups, facts)
    ensures r.None? <==> !Unambiguous(facts)
    ensures r.Some? ==> IsMemberships(r.value, facts)
  {
    var subjects := SortedKeys(groups.Keys);
    var members: map<string, Membership> := map[];
    for i := 0 to |subjects|
      invariant forall s :: s in members <==> s in subjects[..i]
      invariant forall s :: s in members ==> s in groups && members[s] == groups[s][0]
      invariant forall s, m :: s in members && m in groups[s] ==> m == members[s]
    {
      hide MembershipOf, MembershipFact;
      var s := subjects[i];
      assert subjects[..i + 1] == subjects[..i] + [s];
      assert s in subjects && s in groups;
      var ok := OneDescription(groups[s]);
      if !ok {
        var m :| m in groups[s] && m != groups[s][0];
        assert groups[s][0] in groups[s];
        return None;
      }
      members := members[s := groups[s][0]];
    }
    assert subjects[..|subjects|] == subjects;
    SettledAgree(groups, members, facts);
    return Some(members);
  }

  lemma SettledAgree(groups: map<string, seq<Membership>>, members: map<string, Membership>, facts: seq<Fact>)
    requires BySubject(groups, facts) && members.Keys == groups.Keys
    requires forall s, m :: s in members && m in groups[s] ==> m == members[s]
    ensures Unambiguous(facts) && IsMemberships(members, facts)
  {
    hide MembershipOf, MembershipFact;
    forall s | s in members ensures HasMembership(facts, s) {
      assert groups[s][0] in groups[s];
    }
  }

  /** _parse_security_topology: zones and rules of a topology, or which of the two refusals. */
  method ParseTopology(facts: seq<Fact>, components: set<string>) returns (r: Result<Topology, Failure>)
    ensures r.Ok? <==> TopologySound(facts, components)
    ensures r.Err? ==>
              if exists f :: f in facts && !BoundaryFactValid(f, components) then
                exists i :: FaultAt(facts, components, i, r.error)
              else r.error == Ambiguous
    ensures r.Ok? ==> IsMemberships(r.value.members, facts) && r.value.rules == RulesOf(facts)
  {
    hide BoundaryFactValid, BySubject, RulesOf, Unambiguous, IsMemberships, FaultAt;
    var read := ReadBoundaryFacts(facts, components);
    if read.Err? {
      return Err(read.error);
    }
    var (groups, rules) := read.value;
    var settled := SettleMemberships(groups, facts);
    if settled.None? {
      return Err(Ambiguous);
    }
    var members := settled.value;
    for i := 0 to |rules|
      invariant forall r :: r in rules[..i] ==> GatewayPlaced(r, members)
    {
      assert rules[..i + 1] == rules[..i] + [rules[i]];
      if !GatewayPlaced(rules[i], members) {
        PlacedIff(facts, members, rules[i]);
        return Err(Ambiguous);
      }
    }
    forall q | q in rules && q.gateway.Some?
      ensures exists f :: f in facts && MembershipFact(f) && f.source == q.gateway.value && f.target == q.toZone
    {
      assert rules[..|rules|] == rules;
      PlacedIff(facts, members, q);
    }
    return Ok(Topology(members, rules));
  }

  lemma PlacedIff(facts: seq<Fact>, members: map<string, Membership>, r: Rule)
    requires IsMemberships(members, facts)
    ensures GatewayPlaced(r, members) <==>
              (r.gateway.Some? ==>
                exists f :: f in facts && MembershipFact(f) && f.source == r.gateway.value && f.target == r.toZone)
  {
    hide MembershipFact;
    if r.gateway.Some? && r.gateway.value in members {
      assert HasMembership(facts, r.gateway.value);
    }
  }
}
