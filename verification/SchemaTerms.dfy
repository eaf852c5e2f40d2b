/**
 * When layered schemas load, said of the overlays alone, and which error they meet otherwise
 * (artifact_schemas.py).
 */
module SchemaTerms {
  import opened Prelude
  import opened ArtifactGraphs
  import opened ArtifactSchemas

  // ---------- one overlay

  /** Only built-in and organization schemas lock artifacts. */
  predicate MayLock(o: Overlay)
  {
    o.fields.locked == Some(true) ==> o.layer in {Builtin, Org}
  }

  predicate IsKind(kind: string)
  {
    kind in {"markdown", "yaml", "json", "text", "directory", "openapi", "asyncapi", "json-schema", "protobuf",
             "drawio", "plantuml"}
  }

  predicate KnownKind(o: Overlay)
  {
    o.fields.kind == None || IsKind(o.fields.kind.value)
  }

  predicate Once<T(==)>(xs: seq<T>)
  {
    forall i, j :: 0 <= i < j < |xs| ==> xs[i] != xs[j]
  }

  predicate ListsOnce(o: Overlay)
  {
    o.fields.dependsOn == None || Once(o.fields.dependsOn.value)
  }

  predicate NotItself(o: Overlay)
  {
    o.fields.dependsOn == None || o.id !in o.fields.dependsOn.value
  }

  predicate KnownRisks(o: Overlay)
  {
    o.fields.appliesTo == None ||
      (Once(o.fields.appliesTo.value)
       && forall risk :: risk in o.fields.appliesTo.value ==> risk in {"trivial", "standard", "critical", "regulated"})
  }

  /** The field values of an overlay are legal in its layer. */
  predicate Legal(o: Overlay)
  {
    MayLock(o) && KnownKind(o) && ListsOnce(o) && NotItself(o) && KnownRisks(o)
  }

  /** Which error an illegal overlay meets: its first fault in the order of the fields. */
  lemma ParseCheckMeans(o: Overlay)
    ensures ParseCheck(o) ==
              if Legal(o) then None
              else if !MayLock(o) then Some(Authority)
              else if KnownKind(o) && ListsOnce(o) && !NotItself(o) then Some(Cyclic)
              else Some(Malformed)
  {
    OnceMeans(o.fields.dependsOn);
    OnceMeans(o.fields.appliesTo);
    hide NoDuplicates, Once;
    assert forall k :: k in ARTIFACT_TYPES <==> IsKind(k);
    assert forall k :: k in RISKS <==> k in {"trivial", "standard", "critical", "regulated"};
    hide ARTIFACT_TYPES, RISKS, IsKind;
  }

  lemma OnceMeans(xs: Option<seq<string>>)
    ensures xs.Some? ==> (NoDuplicates(xs.value) <==> Once(xs.value))
  {
  }

  // ---------- one overlay after others

  /** The value that the overlays since the last disabling, and this one, give to a field. */
  function Set<T>(before: seq<Overlay>, o: Overlay, field: Fields -> Option<T>): Option<T>
  {
    if field(o.fields).Some? then field(o.fields) else LastSet(Live(before, o.id), field)
  }

  /** Its layer has not spoken about this artifact. */
  predicate FirstInLayer(before: seq<Overlay>, o: Overlay)
  {
    forall p :: p in before ==> p.id != o.id || p.layer != o.layer
  }

  /** The artifact as it stands is not locked. */
  predicate Unlocked(before: seq<Overlay>, o: Overlay)
  {
    LastSet(Live(before, o.id), (f: Fields) => f.locked) != Some(true)
  }

  /** Nothing the organization requires is disabled or made optional, and nothing it names is dropped. */
  ghost predicate KeepsMandate(before: seq<Overlay>, o: Overlay)
  {
    var all := before + [o];
    if o.fields.disabled == Some(true) then !OrgRequires(all, o.id)
    else
      && (OrgRequires(all, o.id) ==> Set(before, o, (f: Fields) => f.required) == Some(true))
      && forall d :: OrgDemands(all, o.id, d) ==>
           var listed := Set(before, o, (f: Fields) => f.dependsOn); listed.Some? && d in listed.value
  }

  /** An artifact that stands, or comes to stand, has a path and a type. */
  predicate Described(before: seq<Overlay>, o: Overlay)
  {
    o.fields.disabled != Some(true) ==>
      Set(before, o, (f: Fields) => f.path).Some? && Set(before, o, (f: Fields) => f.kind).Some?
  }

  /** This overlay can be merged on top of the ones before it. */
  ghost predicate Mergeable(before: seq<Overlay>, o: Overlay)
  {
    Legal(o) && FirstInLayer(before, o) && Unlocked(before, o) && Described(before, o) && KeepsMandate(before, o)
  }

  /** The error of the first overlay that cannot be merged. */
  ghost function MergeError(before: seq<Overlay>, o: Overlay): SchemaError
  {
    if !Legal(o) then
      (if !MayLock(o) then Authority
       else if KnownKind(o) && ListsOnce(o) && !NotItself(o) then Cyclic
       else Malformed)
    else if !FirstInLayer(before, o) then Duplicate
    else if !Unlocked(before, o) then Authority
    else if !Described(before, o) then Malformed
    else Authority
  }

  lemma {:induction false} SeenMeans(overlays: seq<Overlay>, layer: Layer, id: Id)
    requires LoadAll(overlays).Ok?
    ensures (layer, id) in LoadAll(overlays).value.seen <==> exists p :: p in overlays && p.layer == layer && p.id == id
    decreases |overlays|
  {
    hide LoadOverlay;
    if |overlays| > 0 {
      var init, last := overlays[..|overlays| - 1], overlays[|overlays| - 1];
      SeenMeans(init, layer, id);
      SeenOnce(LoadAll(init).value, last);
      assert overlays == init + [last];
      assert forall p :: p in overlays <==> p in init || p == last;
    }
  }

  lemma SameField<T>(live: seq<Overlay>, f: Fields -> Option<T>, g: Fields -> Option<T>)
    requires forall x :: f(x) == g(x)
    ensures LastSet(live, f) == LastSet(live, g)
  {
    if |live| > 0 { SameField(live[..|live| - 1], f, g); }
  }

  /** The fields as they stand before an overlay. */
  lemma FieldsStand(before: seq<Overlay>, o: Overlay)
    ensures var live := Live(before, o.id);
            && LastSet(live, (f: Fields) => f.locked) == LastSet(live, LockedField)
            && Set(before, o, (f: Fields) => f.path) == Set(before, o, PathField)
            && Set(before, o, (f: Fields) => f.kind) == Set(before, o, KindField)
            && Set(before, o, (f: Fields) => f.required) == Set(before, o, RequiredField)
            && Set(before, o, (f: Fields) => f.dependsOn) == Set(before, o, DependsField)
  {
    var live := Live(before, o.id);
    SameField(live, (f: Fields) => f.locked, LockedField);
    SameField(live, (f: Fields) => f.path, PathField);
    SameField(live, (f: Fields) => f.kind, KindField);
    SameField(live, (f: Fields) => f.required, RequiredField);
    SameField(live, (f: Fields) => f.dependsOn, DependsField);
  }

  /** What the organization says, this overlay included. */
  lemma MandateMeans(before: seq<Overlay>, l: Loading, o: Overlay)
    requires LoadAll(before) == Ok(l)
    ensures var mandate := MandateOf(l, o.id).Merge(o);
            && (mandate.required <==> OrgRequires(before + [o], o.id))
            && forall d :: d in mandate.dependencies <==> OrgDemands(before + [o], o.id, d)
  {
    MandatesOfOverlays(before, o.id);
    var all := before + [o];
    assert forall p :: p in all <==> p in before || p == o;
    forall d ensures d in MandateOf(l, o.id).dependencies <==> OrgDemands(before, o.id, d) {
      if OrgDemands(before, o.id, d) {
        var p :| p in before && p.layer == Org && p.id == o.id && p.fields.dependsOn.Some?
                 && d in p.fields.dependsOn.value;
        assert ToSet(p.fields.dependsOn.value) <= MandateOf(l, o.id).dependencies;
      }
    }
    hide MandateOf, MandatesExact;
  }

  /** Merging on top of what stands. */
  lemma MergeMeans(before: seq<Overlay>, l: Loading, o: Overlay)
    requires LoadAll(before) == Ok(l)
    ensures var existing := if o.id in l.effective then Some(l.effective[o.id]) else None;
            var merged := MergeOverlay(existing, o, MandateOf(l, o.id).Merge(o));
            && (merged.Ok? <==> Unlocked(before, o) && Described(before, o) && KeepsMandate(before, o))
            && (merged.Err? ==>
                  merged.error == if Unlocked(before, o) && !Described(before, o) then Malformed else Authority)
  {
    LayersAddUp(before, o.id);
    MandateMeans(before, l, o);
    FieldsStand(before, o);
    var existing := if o.id in l.effective then Some(l.effective[o.id]) else None;
    var mandate, live := MandateOf(l, o.id).Merge(o), Live(before, o.id);
    hide MandateOf, LoadAll, Live, OrgRequires, OrgDemands;
    if existing.None? {
      NothingSet(LockedField);
      NothingSet(PathField);
      NothingSet(KindField);
      NothingSet(RequiredField);
      NothingSet(DependsField);
      IntroduceMeans(o, mandate);
    } else {
      OverrideMeans(existing.value, o, mandate);
    }
    hide LastSet, Introduce, Override;
  }

  /** A new artifact, and what its overlay must say. */
  lemma IntroduceMeans(o: Overlay, mandate: Mandate)
    ensures var f := o.fields;
            Introduce(o, mandate).Ok? <==>
              if f.disabled == Some(true) then !mandate.required
              else
                && f.path.Some? && f.kind.Some? && (mandate.required ==> f.required == Some(true))
                && forall d :: d in mandate.dependencies ==> f.dependsOn.Some? && d in f.dependsOn.value
    ensures Introduce(o, mandate).Err? ==>
              Introduce(o, mandate).error ==
                if o.fields.disabled != Some(true) && (o.fields.path == None || o.fields.kind == None) then Malformed
                else Authority
  {
  }

  /** A standing artifact, and what another overlay may change. */
  lemma OverrideMeans(d: Definition, o: Overlay, mandate: Mandate)
    ensures var f := o.fields;
            Override(d, o, mandate).Ok? <==>
              && !d.locked
              && if f.disabled == Some(true) then !mandate.required
                 else
                   && (mandate.required ==> if f.required.Some? then f.required.value else d.required)
                   && forall b :: b in mandate.dependencies ==>
                        b in (if f.dependsOn.Some? then f.dependsOn.value else d.dependsOn)
    ensures Override(d, o, mandate).Err? ==> Override(d, o, mandate).error == Authority
  {
  }

  lemma StepMeans(before: seq<Overlay>, l: Loading, o: Overlay)
    requires LoadAll(before) == Ok(l)
    ensures LoadOverlay(l, o).Ok? <==> Mergeable(before, o)
    ensures LoadOverlay(l, o).Err? ==> LoadOverlay(l, o).error == MergeError(before, o)
  {
    hide MergeOverlay, ParseCheck, Legal, Unlocked, Described, KeepsMandate;
    ParseCheckMeans(o);
    SeenMeans(before, o.layer, o.id);
    MergeMeans(before, l, o);
  }

  /** Schemas load exactly when every overlay can be merged on top of those before it. */
  lemma {:induction false} LoadsIff(overlays: seq<Overlay>)
    ensures LoadAll(overlays).Ok? <==> forall i :: 0 <= i < |overlays| ==> Mergeable(overlays[..i], overlays[i])
    decreases |overlays|
  {
    hide LoadOverlay, Mergeable;
    if |overlays| > 0 {
      var init, last := overlays[..|overlays| - 1], overlays[|overlays| - 1];
      LoadsIff(init);
      forall i | 0 <= i < |init| ensures init[..i] == overlays[..i] && init[i] == overlays[i] {}
      if LoadAll(init).Ok? {
        StepMeans(init, LoadAll(init).value, last);
      }
    }
  }

  /** Otherwise the error is that of the first overlay that cannot be. */
  lemma LoadErrorMeans(overlays: seq<Overlay>, i: nat)
    requires i < |overlays| && !Mergeable(overlays[..i], overlays[i])
    requires forall j :: 0 <= j < i ==> Mergeable(overlays[..j], overlays[j])
    ensures LoadAll(overlays) == Err(MergeError(overlays[..i], overlays[i]))
  {
    hide LoadOverlay, Mergeable, MergeError;
    var before := overlays[..i];
    forall j | 0 <= j < i ensures before[..j] == overlays[..j] && before[j] == overlays[j] {}
    LoadsIff(before);
    StepMeans(before, LoadAll(before).value, overlays[i]);
    assert overlays[..i + 1][..i] == before;
    LoadStops(overlays, i + 1);
  }

  /** What stands after loading: the last value of each field, and a default where none was ever given. */
  lemma StandsAs(overlays: seq<Overlay>, id: Id)
    requires LoadAll(overlays).Ok? && id in LoadAll(overlays).value.effective
    ensures var d, live := LoadAll(overlays).value.effective[id], Live(overlays, id);
            var risks := LastSet(live, (f: Fields) => f.appliesTo);
            && LastSet(live, (f: Fields) => f.path) == Some(d.path)
            && LastSet(live, (f: Fields) => f.kind) == Some(d.kind)
            && (d.required <==> LastSet(live, (f: Fields) => f.required) == Some(true))
            && (d.locked <==> LastSet(live, (f: Fields) => f.locked) == Some(true))
            && d.dependsOn == (match LastSet(live, (f: Fields) => f.dependsOn) case Some(ids) => ids case None => [])
            && d.appliesTo == (match risks case Some(given) => given case None => ["standard", "critical", "regulated"])
  {
    LayersAddUp(overlays, id);
    var live := Live(overlays, id);
    SameField(live, (f: Fields) => f.locked, LockedField);
    SameField(live, (f: Fields) => f.path, PathField);
    SameField(live, (f: Fields) => f.kind, KindField);
    SameField(live, (f: Fields) => f.required, RequiredField);
    SameField(live, (f: Fields) => f.dependsOn, DependsField);
    SameField(live, (f: Fields) => f.appliesTo, AppliesField);
    hide LastSet, Live, LoadAll;
  }
}
