/**
 * The canonical bodies of observations: which are within the limits, and that their size does not depend
 * on order (architecture_drift.py).
 */
module ObservationBodies {
  import opened Json
  import opened AuditContracts
  import opened FactAttributes
  import opened ArchitectureDrift
  import ArtifactGraphs

  // ---------- weights of lists

  function Weight<T>(xs: seq<T>, w: T -> nat): nat
  {
    if |xs| == 0 then 0 else w(xs[0]) + Weight(xs[1..], w)
  }

  lemma {:induction false} WeightWithout<T>(xs: seq<T>, j: nat, w: T -> nat)
    requires j < |xs|
    ensures Weight(xs, w) == w(xs[j]) + Weight(xs[..j] + xs[j + 1..], w)
  {
    var rest := xs[..j] + xs[j + 1..];
    if j == 0 {
      assert rest == xs[1..];
    } else {
      assert rest[0] == xs[0] && rest[1..] == xs[1..][..j - 1] + xs[1..][j..];
      WeightWithout(xs[1..], j - 1, w);
    }
  }

  predicate NamedApart<T, K(==)>(xs: seq<T>, name: T -> K)
  {
    forall i, j :: 0 <= i < j < |xs| ==> name(xs[i]) != name(xs[j])
  }

  ghost predicate Named<T, K>(xs: seq<T>, name: T -> K, k: K)
  {
    exists x :: x in xs && name(x) == k
  }

  /** Each element of one list has exactly one partner in the other, of the same name and weight. */
  ghost predicate Matched<T, K(!new)>(xs: seq<T>, ys: seq<T>, name: T -> K, w: T -> nat)
  {
    && NamedApart(xs, name) && NamedApart(ys, name)
    && (forall k :: Named(xs, name, k) <==> Named(ys, name, k))
    && (forall x, y :: x in xs && y in ys && name(x) == name(y) ==> w(x) == w(y))
  }

  lemma {:induction false} MatchedWeigh<T, K(!new)>(xs: seq<T>, ys: seq<T>, name: T -> K, w: T -> nat)
    requires Matched(xs, ys, name, w)
    ensures Weight(xs, w) == Weight(ys, w)
  {
    if |xs| == 0 {
      FirstNamed(ys, name);
    } else {
      assert xs[0] in xs;
      assert Named(ys, name, name(xs[0]));
      var j :| 0 <= j < |ys| && name(ys[j]) == name(xs[0]);
      assert ys[j] in ys;
      WeightWithout(ys, j, w);
      OnePairLess(xs, ys, j, name, w);
      hide Matched;
      MatchedWeigh(xs[1..], ys[..j] + ys[j + 1..], name, w);
    }
  }

  lemma FirstNamed<T, K>(ys: seq<T>, name: T -> K)
    ensures ys == [] || Named(ys, name, name(ys[0]))
  {
    if |ys| > 0 { assert ys[0] in ys; }
  }

  lemma Without<T, K>(xs: seq<T>, j: nat, name: T -> K)
    requires j < |xs| && NamedApart(xs, name)
    ensures var rest := xs[..j] + xs[j + 1..];
            NamedApart(rest, name) && forall x :: x in rest <==> x in xs && name(x) != name(xs[j])
  {
    var rest := xs[..j] + xs[j + 1..];
    assert forall i :: 0 <= i < |rest| ==> rest[i] == if i < j then xs[i] else xs[i + 1];
    forall x | x in xs && name(x) != name(xs[j]) ensures x in rest {
      var i :| 0 <= i < |xs| && xs[i] == x;
      assert if i < j then rest[i] == x else rest[i - 1] == x;
    }
  }

  lemma OnePairLess<T, K(!new)>(xs: seq<T>, ys: seq<T>, j: nat, name: T -> K, w: T -> nat)
    requires Matched(xs, ys, name, w) && |xs| > 0 && j < |ys| && name(ys[j]) == name(xs[0])
    ensures Matched(xs[1..], ys[..j] + ys[j + 1..], name, w)
  {
    Without(xs, 0, name);
    Without(ys, j, name);
    assert xs[..0] + xs[1..] == xs[1..];
    var left, right, first := xs[1..], ys[..j] + ys[j + 1..], name(xs[0]);
    hide NamedApart;
    forall k ensures Named(left, name, k) <==> Named(xs, name, k) && k != first {
      NamedWithout(xs, left, name, first, k);
    }
    forall k ensures Named(right, name, k) <==> Named(ys, name, k) && k != first {
      NamedWithout(ys, right, name, first, k);
    }
    hide Named;
  }

  lemma NamedWithout<T, K>(xs: seq<T>, rest: seq<T>, name: T -> K, gone: K, k: K)
    requires forall x :: x in rest <==> x in xs && name(x) != gone
    ensures Named(rest, name, k) <==> Named(xs, name, k) && k != gone
  {
    if Named(xs, name, k) && k != gone {
      var x :| x in xs && name(x) == k;
      assert x in rest;
    }
  }

  lemma {:induction false} ItemsWeigh<T>(xs: seq<T>, w: T -> nat, items: seq<Json>)
    requires |items| == |xs| && forall k :: 0 <= k < |xs| ==> Nodes(items[k]) == w(xs[k])
    ensures NodesOfItems(items) == Weight(xs, w)
  {
    hide Nodes;
    if |xs| > 0 {
      ItemsWeigh(xs[1..], w, items[1..]);
    }
  }

  // ---------- sizes

  function PlaceNodes(p: Place): nat
  {
    Nodes(PlaceJson(p))
  }

  function FactNodes(o: Observed): nat
  {
    5 + Nodes(Obj(Members(o.attributes))) + 1 + Weight(o.provenance, PlaceNodes)
  }

  lemma ObservedNodes(o: Observed, key: Keys)
    ensures Nodes(ObservedJson(o, key)) == FactNodes(o)
  {
    hide PlaceJson, Members, PlacesJson;
    SixMembers(ObservedJson(o, key).members);
    ItemsWeigh(o.provenance, PlaceNodes, PlacesJson(o.provenance));
    hide NodesOfMembers, NodesOfItems, Weight;
  }

  lemma SixMembers(ms: seq<Member>)
    requires |ms| == 6
    ensures NodesOfMembers(ms) == Nodes(ms[0].value) + Nodes(ms[1].value) + Nodes(ms[2].value)
                                  + Nodes(ms[3].value) + Nodes(ms[4].value) + Nodes(ms[5].value)
  {
    hide Nodes;
    FourMembers(ms[2..]);
    assert ms[1..][1..] == ms[2..];
    assert NodesOfMembers(ms) == Nodes(ms[0].value) + NodesOfMembers(ms[1..]);
    assert NodesOfMembers(ms[1..]) == Nodes(ms[1].value) + NodesOfMembers(ms[2..]);
  }

  lemma FourMembers(ms: seq<Member>)
    requires |ms| == 4
    ensures NodesOfMembers(ms) == Nodes(ms[0].value) + Nodes(ms[1].value) + Nodes(ms[2].value) + Nodes(ms[3].value)
  {
    hide Nodes;
    assert ms[1..][1..] == ms[2..] && ms[2..][1..] == ms[3..] && ms[3..][1..] == [];
    assert NodesOfMembers(ms) == Nodes(ms[0].value) + NodesOfMembers(ms[1..]);
    assert NodesOfMembers(ms[1..]) == Nodes(ms[1].value) + NodesOfMembers(ms[2..]);
    assert NodesOfMembers(ms[2..]) == Nodes(ms[2].value) + NodesOfMembers(ms[3..]);
  }

  /** The size of a body is the sum of the sizes of its facts, and five more values. */
  lemma BodyNodes(n: Observation, key: Keys)
    ensures Nodes(ObservationJson(n, key)) == 5 + Weight(n.facts, FactNodes)
  {
    hide ObservedJson, FactNodes, FactsJson;
    forall o ensures Nodes(ObservedJson(o, key)) == FactNodes(o) {
      ObservedNodes(o, key);
    }
    FourMembers(ObservationJson(n, key).members);
    ItemsWeigh(n.facts, FactNodes, FactsJson(n.facts, key));
    hide NodesOfMembers, NodesOfItems, Weight;
  }

  // ---------- flat facts

  /** Every attribute is a flag or a text under a name. */
  predicate FlatAttributes(a: Attributes)
  {
    forall name :: name in a ==> name != "" && (a[name].Str? || a[name].Bool?)
  }

  predicate Modest(v: Json, room: int)
  {
    Shallow(v, room) && Finite(v) && KeysNamed(v) && Encodable(v)
  }

  lemma ModestMembers(ms: seq<Member>, room: int)
    requires room >= 1 && forall k :: 0 <= k < |ms| ==> ms[k].key != "" && Modest(ms[k].value, room - 1)
    ensures Modest(Obj(ms), room)
  {
  }

  lemma ModestItems(items: seq<Json>, room: int)
    requires room >= 1 && forall item :: item in items ==> Modest(item, room - 1)
    ensures Modest(Arr(items), room)
  {
  }

  lemma ModestAtoms(room: int)
    requires room >= 0
    ensures forall s: string :: Modest(Str(s), room)
    ensures forall i: int :: Modest(Int(i), room)
    ensures forall b: bool :: Modest(Bool(b), room)
  {
  }

  lemma ModestPlace(p: Place, room: int)
    requires room >= 1
    ensures Modest(PlaceJson(p), room)
  {
    ModestAtoms(room - 1);
    hide Modest;
    ModestMembers(PlaceJson(p).members, room);
  }

  lemma ModestSix(ms: seq<Member>, room: int)
    requires room >= 1 && |ms| == 6 && forall k :: 0 <= k < 6 ==> ms[k].key != ""
    requires Modest(ms[0].value, room - 1) && ms[1].value.Str? && Modest(ms[2].value, room - 1)
    requires ms[3].value.Str? && ms[4].value.Str? && ms[5].value.Str?
    ensures Modest(Obj(ms), room)
  {
    ModestAtoms(room - 1);
    hide Modest;
    forall k | 0 <= k < 6 ensures Modest(ms[k].value, room - 1) {
      assert k == 0 || k == 2 || ms[k].value == Str(ms[k].value.s);
    }
    ModestMembers(ms, room);
  }

  lemma ModestFact(o: Observed, key: Keys, room: int)
    requires room >= 3 && Modest(Obj(Members(o.attributes)), room - 1)
    ensures Modest(ObservedJson(o, key), room)
  {
    hide Modest, Members, PlacesJson, KindName, ObservedKey;
    var ms := ObservedJson(o, key).members;
    assert ms[0].key == "attributes" && ms[1].key == "kind" && ms[2].key == "provenance";
    assert ms[3].key == "semanticSha256" && ms[4].key == "source" && ms[5].key == "target";
    ModestPlaces(o, room - 1);
    assert ms[0].value == Obj(Members(o.attributes)) && ms[2].value == Arr(PlacesJson(o.provenance));
    hide ObservedJson;
    ModestSix(ms, room);
  }

  lemma ModestAttributes(a: Attributes, room: int)
    requires room >= 1 && FlatAttributes(a)
    ensures Modest(Obj(Members(a)), room)
  {
    ModestAtoms(room - 1);
    hide Modest;
    ModestMembers(Members(a), room);
  }

  lemma ModestPlaces(o: Observed, room: int)
    requires room >= 2
    ensures Modest(Arr(PlacesJson(o.provenance)), room)
  {
    hide Modest, PlaceJson;
    forall p ensures Modest(PlaceJson(p), room - 1) { ModestPlace(p, room - 1); }
    ModestItems(PlacesJson(o.provenance), room);
  }

  lemma ModestBody(n: Observation, key: Keys)
    requires forall o :: o in n.facts ==> Modest(Obj(Members(o.attributes)), MAX_NESTING - 3)
    ensures Modest(ObservationJson(n, key), MAX_NESTING)
  {
    var ms := ObservationJson(n, key).members;
    ModestAtoms(MAX_NESTING - 1);
    hide Modest, ObservedJson, Members;
    ModestFacts(n.facts, key, MAX_NESTING - 1);
    ModestMembers(ms, MAX_NESTING);
  }

  lemma ModestFacts(facts: seq<Observed>, key: Keys, room: int)
    requires room >= 4 && forall o :: o in facts ==> Modest(Obj(Members(o.attributes)), room - 2)
    ensures Modest(Arr(FactsJson(facts, key)), room)
  {
    hide Modest, ObservedJson, Members;
    forall o | o in facts ensures Modest(ObservedJson(o, key), room - 1) {
      ModestFact(o, key, room - 1);
    }
    ModestItems(FactsJson(facts, key), room);
  }

  /** Where no attributes are unfit on their own, only the number of values can be too much. */
  lemma ModestHashable(n: Observation, key: Keys)
    requires forall o :: o in n.facts ==> Modest(Obj(Members(o.attributes)), MAX_NESTING - 3)
    ensures Hashable(n, key) <==> 5 + Weight(n.facts, FactNodes) <= MAX_JSON_ITEMS
  {
    hide ObservationJson, FactNodes, Members;
    ModestBody(n, key);
    BodyNodes(n, key);
  }

  lemma FlatHashable(n: Observation, key: Keys)
    requires forall o :: o in n.facts ==> FlatAttributes(o.attributes)
    ensures Hashable(n, key) <==> 5 + Weight(n.facts, FactNodes) <= MAX_JSON_ITEMS
  {
    hide Modest, Members, FlatAttributes, Hashable, FactNodes;
    forall o | o in n.facts ensures Modest(Obj(Members(o.attributes)), MAX_NESTING - 3) {
      ModestAttributes(o.attributes, MAX_NESTING - 3);
    }
    ModestHashable(n, key);
  }

  /** Flat facts hold no mapping. */
  lemma FlatNotNested(a: Attributes)
    requires FlatAttributes(a)
    ensures !Nested(a)
  {
  }

  // ---------- a fact that can be observed and not reported

  /** A contract whose schema is described by a mapping. */
  function SchemaFact(): Observed
  {
    Observed(Contract, "a", "b", map["schema" := Obj([Member("version", Int(1))])], [Place("c", 1, "", "")])
  }

  lemma OneMember(name: string, v: Json)
    ensures Members(map[name := v]) == [Member(name, v)]
  {
    var keys := ArtifactGraphs.SortedKeys({name});
    assert map[name := v].Keys == {name};
    ArtifactGraphs.LeastUnique({name});
    assert name in keys;
    assert keys[0] in keys;
    assert keys == [keys[0]] + ArtifactGraphs.SortedKeys({name} - {keys[0]});
    assert {name} - {keys[0]} == {};
    assert keys == [name];
  }

  lemma SchemaAttributes()
    ensures var a := Obj(Members(SchemaFact().attributes));
            Nodes(a) == 3 && Modest(a, MAX_NESTING - 3) && ValidJson(a)
  {
    var version := [Member("version", Int(1))];
    OneMember("schema", Obj(version));
    var ms := [Member("schema", Obj(version))];
    assert NodesOfMembers(version) == 1 + NodesOfMembers(version[1..]);
    assert NodesOfMembers(ms) == 2 + NodesOfMembers(ms[1..]);
    forall room | room >= 2 ensures Modest(Obj(ms), room) {
      ModestAtoms(room - 2);
      ModestMembers(version, room - 1);
      ModestMembers(ms, room);
    }
  }

  lemma OneOf<T>(x: T, w: T -> nat)
    ensures Weight([x], w) == w(x)
  {
    assert [x][1..] == [];
  }

  lemma PlaceSize(p: Place)
    requires p.declaration == "" && p.detail == ""
    ensures PlaceNodes(p) == 3
  {
    var ms := PlaceJson(p).members;
    assert ms[1..][1..] == [];
    assert NodesOfMembers(ms) == 1 + NodesOfMembers(ms[1..]);
  }

  /** The fact is accepted and its observation can be digested. */
  lemma SchemaObserved(key: Keys)
    ensures JsonMapping(Loaded(Obj(Members(SchemaFact().attributes)))).Some?
    ensures Hashable(Observation("o", [SchemaFact()]), key)
  {
    hide PlaceJson, Members, Modest, Hashable, ValidJson, JsonMapping, Nodes, Weight;
    var o, n := SchemaFact(), Observation("o", [SchemaFact()]);
    SchemaAttributes();
    FrozenOnce(o.attributes);
    PlaceSize(o.provenance[0]);
    OneOf(o.provenance[0], PlaceNodes);
    OneOf(o, FactNodes);
    assert FactNodes(o) == 12;
    ModestHashable(n, key);
  }

  /**
   * A single contract fact that nothing approves: it is observed, digested and undisputed, and yet
   * the comparison refuses, because the finding about it cannot be made.
   */
  lemma SchemaUnreportable(key: Keys)
    ensures var observations := [Observation("o", [SchemaFact()])];
            && AllHashable(observations, key) && DistinctObservers(observations)
            && (forall k :: !Disputed(AllFacts(observations), k, key))
            && Unreportable([], AllFacts(observations), key)
  {
    hide Hashable;
    SchemaObserved(key);
    var o, observations := SchemaFact(), [Observation("o", [SchemaFact()])];
    AllFactsAppend([], observations[0]);
    assert AllFacts(observations) == [o];
    assert "schema" in o.attributes && HoldsMapping(o.attributes["schema"]);
    var k := ObservedKey(o, key);
    assert WithKey([o], k, key) == [o] by { assert [o][..0] == []; }
    assert UnreportableKey([o], k, key) && !Approved([], k, key);
  }
}
