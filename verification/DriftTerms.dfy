/**
 * The comparison of approved and observed architecture, and the limits on observations, spelled out
 * over the fields of facts and places (architecture_drift.py).
 */
module DriftTerms {
  import opened Prelude
  import opened Json
  import opened JsonProofs
  import opened JsonTerms
  import opened AuditContracts
  import opened FactAttributes
  import opened ArchitectureDrift
  import opened ObservationBodies

  // ---------- the comparison

  /** The digests of kind, ends and attributes agree. */
  predicate Same(f: Fact, o: Observed, key: Keys)
  {
    key(f.kind, f.source, f.target, f.attributes) == key(o.kind, o.source, o.target, o.attributes)
  }

  /** Nothing required is unseen, nothing forbidden is seen, and everything seen is declared. */
  lemma ConformsMeans(facts: seq<Fact>, observed: seq<Observed>, key: Keys)
    ensures Conforms(facts, observed, key) <==>
              && (forall f :: f in facts && f.mode == Required ==> exists o :: o in observed && Same(f, o, key))
              && (forall f, o :: f in facts && f.mode == Forbidden && o in observed ==> !Same(f, o, key))
              && (forall o :: o in observed ==> exists f :: f in facts && Same(f, o, key))
  {
    SeenMeans(facts, observed, key);
    hide Seen, Approved, Same, FactKey, ObservedKey;
  }

  lemma SeenMeans(facts: seq<Fact>, observed: seq<Observed>, key: Keys)
    ensures forall f :: Seen(observed, FactKey(f, key), key) <==> exists o :: o in observed && Same(f, o, key)
    ensures forall o :: Approved(facts, ObservedKey(o, key), key) <==> exists f :: f in facts && Same(f, o, key)
  {
    forall f, o ensures ObservedKey(o, key) == FactKey(f, key) <==> Same(f, o, key) {}
    hide Same, FactKey, ObservedKey;
    forall f ensures Seen(observed, FactKey(f, key), key) <==> exists o :: o in observed && Same(f, o, key) {
      if o :| o in observed && Same(f, o, key) { assert ObservedKey(o, key) == FactKey(f, key); }
    }
  }

  /** A place is evidence for a fact. */
  ghost predicate Evidence(p: Place, f: Fact, observed: seq<Observed>, key: Keys)
  {
    exists o :: o in observed && Same(f, o, key) && p in o.provenance
  }

  /** What a finding about an approved fact says. */
  lemma DriftMeans(findings: seq<Finding>, facts: seq<Fact>, observed: seq<Observed>, key: Keys, x: Finding)
    requires Differences(findings, facts, observed, key) && x in findings && x.code != UnexpectedFactPresent
    ensures x.code in {RequiredFactMissing, ForbiddenFactPresent}
    ensures exists f :: f in facts && x.kind == f.kind && x.source == f.source && x.target == f.target
                        && x.factId == Some(f.id) && Blames(x, f, observed, key)
  {
    IsExplained(findings, facts, observed, key, x);
    hide Differences, Seen, ProvenanceOf, Blames, FactKey;
    var f :| f in facts && About(x, f)
             && (if x.code.RequiredFactMissing? then
                   f.mode.Required? && !Seen(observed, FactKey(f, key), key) && x.provenance == []
                 else x.code.ForbiddenFactPresent? && f.mode.Forbidden? && Seen(observed, FactKey(f, key), key)
                      && ProvenanceOf(x.provenance, observed, FactKey(f, key), key));
    DriftingBlames(x, f, facts, observed, key);
  }

  lemma IsExplained(findings: seq<Finding>, facts: seq<Fact>, observed: seq<Observed>, key: Keys, x: Finding)
    requires Differences(findings, facts, observed, key) && x in findings
    ensures Explained(x, facts, observed, key)
  {
    DifferencesCover(findings, facts, observed, key);
    hide Differences, Explained;
  }

  /** What a finding about an undeclared fact says. */
  lemma UnexpectedMeans(findings: seq<Finding>, facts: seq<Fact>, observed: seq<Observed>, key: Keys, x: Finding)
    requires Differences(findings, facts, observed, key) && x in findings && x.code == UnexpectedFactPresent
    ensures x.factId == None
    ensures exists o :: o in observed && x.kind == o.kind && x.source == o.source && x.target == o.target
                        && Surprises(x, o, facts, observed, key)
  {
    IsExplained(findings, facts, observed, key, x);
    hide Differences, Approved, ProvenanceOf, Surprises, ObservedKey;
    var o :| o in observed && Unexpected(x, o) && !Approved(facts, ObservedKey(o, key), key)
             && ProvenanceOf(x.provenance, observed, ObservedKey(o, key), key);
    UnexpectedSurprises(x, o, facts, observed, key);
  }

  lemma UnexpectedSurprises(x: Finding, o: Observed, facts: seq<Fact>, observed: seq<Observed>, key: Keys)
    requires !Approved(facts, ObservedKey(o, key), key)
             && ProvenanceOf(x.provenance, observed, ObservedKey(o, key), key)
    ensures Surprises(x, o, facts, observed, key)
  {
    SeenMeans(facts, observed, key);
    UnexpectedPlaces(x.provenance, o, observed, key);
    hide Approved, Same, SameSeen, ProvenanceOf;
  }

  lemma DriftingBlames(x: Finding, f: Fact, facts: seq<Fact>, observed: seq<Observed>, key: Keys)
    requires if x.code.RequiredFactMissing? then
               f.mode.Required? && !Seen(observed, FactKey(f, key), key) && x.provenance == []
             else x.code.ForbiddenFactPresent? && f.mode.Forbidden? && Seen(observed, FactKey(f, key), key)
                  && ProvenanceOf(x.provenance, observed, FactKey(f, key), key)
    ensures Blames(x, f, observed, key)
  {
    SeenMeans(facts, observed, key);
    if x.code == ForbiddenFactPresent { FactPlaces(x.provenance, f, observed, key); }
    hide Seen, Same, ProvenanceOf, Evidence;
  }

  /** No fact declares it, and the finding has all places where it was seen. */
  ghost predicate Surprises(x: Finding, o: Observed, facts: seq<Fact>, observed: seq<Observed>, key: Keys)
  {
    && (forall f :: f in facts ==> !Same(f, o, key))
    && forall p :: p in x.provenance <==>
         exists other :: other in observed && p in other.provenance && SameSeen(o, other, key)
  }

  /** Missing and required, or present and forbidden and found exactly where the finding says. */
  ghost predicate Blames(x: Finding, f: Fact, observed: seq<Observed>, key: Keys)
  {
    if x.code == RequiredFactMissing then
      f.mode == Required && (forall o :: o in observed ==> !Same(f, o, key)) && x.provenance == []
    else
      && f.mode == Forbidden && (exists o :: o in observed && Same(f, o, key))
      && forall p :: p in x.provenance <==> Evidence(p, f, observed, key)
  }

  predicate SameSeen(o: Observed, other: Observed, key: Keys)
  {
    key(o.kind, o.source, o.target, o.attributes) == key(other.kind, other.source, other.target, other.attributes)
  }

  lemma UnexpectedPlaces(places: seq<Place>, o: Observed, observed: seq<Observed>, key: Keys)
    requires ProvenanceOf(places, observed, ObservedKey(o, key), key)
    ensures forall p :: p in places <==>
                          exists other :: other in observed && p in other.provenance && SameSeen(o, other, key)
  {
    forall other ensures ObservedKey(other, key) == ObservedKey(o, key) <==> SameSeen(o, other, key) {}
    hide SameSeen, ObservedKey;
    forall p ensures PlaceOf(observed, ObservedKey(o, key), key, p) <==>
                       exists other :: other in observed && p in other.provenance && SameSeen(o, other, key)
    {
      if other :| other in observed && p in other.provenance && SameSeen(o, other, key) {
        assert ObservedKey(other, key) == ObservedKey(o, key);
      }
    }
  }

  lemma FactPlaces(places: seq<Place>, f: Fact, observed: seq<Observed>, key: Keys)
    requires ProvenanceOf(places, observed, FactKey(f, key), key)
    ensures forall p :: p in places <==> Evidence(p, f, observed, key)
  {
    forall o ensures ObservedKey(o, key) == FactKey(f, key) <==> Same(f, o, key) {}
    hide Same, ObservedKey, FactKey;
    forall p ensures PlaceOf(observed, FactKey(f, key), key, p) <==> Evidence(p, f, observed, key) {
      if o :| o in observed && Same(f, o, key) && p in o.provenance {
        assert ObservedKey(o, key) == FactKey(f, key);
      }
    }
  }

  // ---------- merged provenance

  /** The digest is less, or it is the same and the detail is less. */
  predicate Before(v: Place, m: Place)
  {
    if v.declaration == m.declaration then Less(v.detail, m.detail) else Less(v.declaration, m.declaration)
  }

  /** Of several records of one line, the one with the least digest is kept, and then that with the least detail. */
  ghost predicate HasLine(places: seq<Place>, source: string, line: nat)
  {
    exists m :: m in places && m.source == source && m.line == line
  }

  ghost predicate KeepsLeast(values: seq<Place>, merged: seq<Place>)
  {
    && (forall m :: m in merged ==> m in values)
    && (forall m, v :: m in merged && v in values && v.source == m.source && v.line == m.line ==> !Before(v, m))
    && (forall v :: v in values ==> HasLine(merged, v.source, v.line))
    && forall i, j :: 0 <= i < j < |merged| ==>
         merged[i].source != merged[j].source || merged[i].line != merged[j].line
  }

  lemma MergedMeans(values: seq<Place>, merged: seq<Place>)
    ensures Merges(values, merged) <==> KeepsLeast(values, merged)
  {
    forall m: Place, v: Place ensures Before(v, m) <==> Precedes(v, m) { RankMeans(v, m); }
    hide Before, Precedes;
    if Merges(values, merged) { MergedKeepsLeast(values, merged); }
    if KeepsLeast(values, merged) { LeastIsMerged(values, merged); }
  }

  lemma MergedKeepsLeast(values: seq<Place>, merged: seq<Place>)
    requires Merges(values, merged) && forall m: Place, v: Place :: Before(v, m) <==> Precedes(v, m)
    ensures KeepsLeast(values, merged)
  {
    hide Before, Precedes;
    forall m, v | m in merged && v in values && v.source == m.source && v.line == m.line ensures !Before(v, m) {
      assert Chosen(values, m) && v.Location() == m.Location();
    }
    forall v | v in values ensures HasLine(merged, v.source, v.line) {
      assert Locates(merged, v.Location());
    }
  }

  lemma LeastIsMerged(values: seq<Place>, merged: seq<Place>)
    requires KeepsLeast(values, merged) && forall m: Place, v: Place :: Before(v, m) <==> Precedes(v, m)
    ensures Merges(values, merged)
  {
    hide Before, Precedes;
    forall v | v in values ensures Locates(merged, v.Location()) {
      assert HasLine(merged, v.source, v.line);
      var m :| m in merged && m.source == v.source && m.line == v.line;
      assert m.Location() == v.Location();
    }
  }

  lemma RankMeans(v: Place, m: Place)
    ensures Before(v, m) <==> Precedes(v, m)
  {
    LessIrreflexive(v.declaration);
    hide Less;
  }

  /** Records are in conflict when one line has two of them. */
  lemma ConflictingMeans(values: seq<Place>)
    ensures Conflicting(values) <==>
              exists v, w :: v in values && w in values && v.source == w.source && v.line == w.line
                             && (v.declaration != w.declaration || v.detail != w.detail)
  {
    if Conflicting(values) {
      var v, w :| v in values && w in values && v.Location() == w.Location() && v != w;
    }
    forall v, w | v in values && w in values && v.source == w.source && v.line == w.line
                  && (v.declaration != w.declaration || v.detail != w.detail)
      ensures v.Location() == w.Location() && v != w
    {
    }
  }

  // ---------- what a body says, and when it can be digested

  lemma PlaceFields(p: Place)
    ensures var v := PlaceJson(p);
            && Field(v, "source") == Some(Str(p.source)) && Field(v, "line") == Some(Int(p.line))
            && Field(v, "declaration_sha256") == (if p.declaration == "" then None else Some(Str(p.declaration)))
            && Field(v, "detail") == (if p.detail == "" then None else Some(Str(p.detail)))
  {
    var first := if p.declaration == "" then [] else [Member("declaration_sha256", Str(p.declaration))];
    var second := if p.detail == "" then [] else [Member("detail", Str(p.detail))];
    var last := [Member("line", Int(p.line)), Member("source", Str(p.source))];
    assert PlaceJson(p).members == first + second + last;
    assert "source"[0] == 's' && "line"[0] == 'l' && "detail"[0] == 'd' && |"declaration_sha256"| == 18;
    FieldOf(first, second, last, "source");
    FieldOf(first, second, last, "line");
    FieldOf(first, second, last, "declaration_sha256");
    FieldOf(first, second, last, "detail");
  }

  lemma FieldOf(first: seq<Member>, second: seq<Member>, last: seq<Member>, name: string)
    requires |first| <= 1 && |second| <= 1 && |last| == 2
    ensures Lookup(first + second + last, name) ==
              if |first| == 1 && first[0].key == name then Some(first[0].value)
              else if |second| == 1 && second[0].key == name then Some(second[0].value)
              else if last[0].key == name then Some(last[0].value)
              else if last[1].key == name then Some(last[1].value)
              else None
  {
    LookupJoin(first + second, last, name);
    LookupJoin(first, second, name);
    assert last[1..][1..] == [] && (first == [] || first[1..] == []) && (second == [] || second[1..] == []);
  }

  lemma PlaceSize(p: Place)
    ensures PlaceNodes(p) == 3 + (if p.declaration == "" then 0 else 1) + (if p.detail == "" then 0 else 1)
  {
    var last := [Member("line", Int(p.line)), Member("source", Str(p.source))];
    var second := (if p.detail == "" then [] else [Member("detail", Str(p.detail))]) + last;
    var ms := PlaceJson(p).members;
    assert last[1..][1..] == [] && (p.detail != "" ==> second[1..] == last);
    assert p.declaration == "" ==> ms == second;
    assert p.declaration != "" ==> ms[1..] == second;
    AtomSizes();
    assert PlaceNodes(p) == 1 + NodesOfMembers(ms);
    hide Nodes, NodesOfMembers, PlaceJson;
    Count(last);
    Count(last[1..]);
    Count(second);
    Count(ms);
  }

  lemma AtomSizes()
    ensures forall i: int :: Nodes(Int(i)) == 1
    ensures forall s: string :: Nodes(Str(s)) == 1
  {
  }

  lemma Count(ms: seq<Member>)
    requires |ms| > 0
    ensures NodesOfMembers(ms) == Nodes(ms[0].value) + NodesOfMembers(ms[1..])
  {
  }

  lemma ObservedFields(o: Observed, key: Keys)
    ensures var v := ObservedJson(o, key);
            && Field(v, "kind") == Some(Str(KindName(o.kind))) && Field(v, "source") == Some(Str(o.source))
            && Field(v, "target") == Some(Str(o.target)) && Field(v, "attributes") == Some(Obj(Members(o.attributes)))
            && Field(v, "semanticSha256") == Some(Str(key(o.kind, o.source, o.target, o.attributes)))
            && Field(v, "provenance") == Some(Arr(PlacesJson(o.provenance)))
  {
    hide KindName, Members, PlacesJson;
    var ms := ObservedJson(o, key).members;
    LookupAt(ms, 0);
    LookupAt(ms, 1);
    LookupAt(ms, 2);
    LookupAt(ms, 3);
    LookupAt(ms, 4);
    LookupAt(ms, 5);
  }

  lemma KindMeans(kind: Kind)
    ensures kind == Dependency ==> KindName(kind) == "dependency"
    ensures kind == Communication ==> KindName(kind) == "communication"
    ensures kind == DataOwnership ==> KindName(kind) == "data-ownership"
    ensures kind == DataAccess ==> KindName(kind) == "data-access"
    ensures kind == TrustBoundary ==> KindName(kind) == "trust-boundary"
    ensures kind == Deployment ==> KindName(kind) == "deployment"
    ensures kind == Contract ==> KindName(kind) == "contract"
  {
  }

  /** No value inside is further away than this, infinite, not text, or under an empty name. */
  ghost predicate Fit(v: Json, room: int)
  {
    NoDeeper(v, room) && OnPaths(v, Writable) && OnPaths(v, NamesGiven)
  }

  lemma FitMeans(v: Json, room: int)
    ensures Modest(v, room) <==> Fit(v, room)
  {
    Checks(v);
    ShallowMeans(v, room);
    EverywhereMeans(v, NotInfinite);
    EverywhereMeans(v, Writable);
    EverywhereMeans(v, NamesGiven);
    if OnPaths(v, Writable) { WritableIsFinite(v); }
    hide OnPaths, NoDeeper;
  }

  lemma WritableIsFinite(v: Json)
    requires OnPaths(v, Writable)
    ensures OnPaths(v, NotInfinite)
  {
    forall path | ValueAt(v, path).Some? ensures NotInfinite(ValueAt(v, path).value) {
      assert Writable(ValueAt(v, path).value);
    }
  }

  /**
   * An observation can be digested exactly when its facts together are small enough, and the
   * attributes of each are fit with three levels to spare.
   */
  lemma HashableMeans(n: Observation, key: Keys)
    ensures Hashable(n, key) <==>
              && 5 + Weight(n.facts, FactNodes) <= 500_000
              && forall o :: o in n.facts ==> Fit(Obj(Members(o.attributes)), 29)
  {
    hide ObservationJson, FactNodes, Members, Modest;
    forall o: Observed ensures Modest(Obj(Members(o.attributes)), 29) <==> Fit(Obj(Members(o.attributes)), 29) {
      FitMeans(Obj(Members(o.attributes)), 29);
    }
    hide Fit;
    if forall o :: o in n.facts ==> Modest(Obj(Members(o.attributes)), 29) {
      ModestHashable(n, key);
    }
    if Hashable(n, key) {
      BodyNodes(n, key);
      HashableIsModest(n, key);
      forall o | o in n.facts ensures Modest(Obj(Members(o.attributes)), 29) { AttributesModest(n, key, o); }
    }
  }

  lemma HashableIsModest(n: Observation, key: Keys)
    requires Hashable(n, key)
    ensures Modest(ObservationJson(n, key), 32)
  {
  }

  lemma AttributesModest(n: Observation, key: Keys, o: Observed)
    requires Modest(ObservationJson(n, key), 32) && o in n.facts
    ensures Modest(Obj(Members(o.attributes)), 29)
  {
    hide Modest, ObservedJson, Members;
    var k :| 0 <= k < |n.facts| && n.facts[k] == o;
    var items := FactsJson(n.facts, key);
    ModestMember(ObservationJson(n, key), 1, 32);
    assert ObservationJson(n, key).members[1].value == Arr(items);
    ModestItem(Arr(items), k, 31);
    FirstMember(o, key);
    ModestMember(ObservedJson(o, key), 0, 30);
  }

  lemma FirstMember(o: Observed, key: Keys)
    ensures ObservedJson(o, key).Obj?
    ensures var ms := ObservedJson(o, key).members; |ms| == 6 && ms[0].value == Obj(Members(o.attributes))
  {
  }

  lemma ModestMember(v: Json, k: nat, room: int)
    requires Modest(v, room) && v.Obj? && k < |v.members|
    ensures Modest(v.members[k].value, room - 1)
  {
    assert v.members[k] in v.members;
  }

  lemma ModestItem(v: Json, k: nat, room: int)
    requires Modest(v, room) && v.Arr? && k < |v.items|
    ensures Modest(v.items[k], room - 1)
  {
    assert v.items[k] in v.items;
  }

  /** Findings cannot take over attributes with a mapping anywhere inside them. */
  lemma NestedMeans(a: Attributes)
    ensures Nested(a) <==>
              exists name, path :: name in a && ValueAt(a[name], path).Some? && ValueAt(a[name], path).value.Obj?
  {
    forall name | name in a { HoldsMappingMeans(a[name]); }
    if Nested(a) {
      var name :| name in a && HoldsMapping(a[name]);
      var path :| ValueAt(a[name], path).Some? && ValueAt(a[name], path).value.Obj?;
      assert name in a && ValueAt(a[name], path).Some? && ValueAt(a[name], path).value.Obj?;
    } else {
      assert forall name :: name in a ==> !HoldsMapping(a[name]);
    }
  }
}
