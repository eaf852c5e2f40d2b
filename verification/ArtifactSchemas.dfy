/** Layered artifact schemas: overlays, locks, and what organization schemas mandate (artifact_schemas.py). */
module ArtifactSchemas {
  import opened Prelude
  import opened ArtifactGraphs

  /** The fields an overlay sets; None where the manifest leaves one out. */
  datatype Fields = Fields(
    path: Option<string>, kind: Option<string>, required: Option<bool>, locked: Option<bool>,
    disabled: Option<bool>, dependsOn: Option<seq<Id>>, appliesTo: Option<seq<string>>)

  datatype Overlay = Overlay(id: Id, layer: Layer, schemaId: string, source: string, fields: Fields)

  /** SDAI-SCHEMA-001, -003, -004, -005 and -006. */
  datatype SchemaError = Malformed | Duplicate | Authority | Unresolved | Cyclic

  const ARTIFACT_TYPES := [
    "markdown", "yaml", "json", "text", "directory", "openapi", "asyncapi", "json-schema",
    "protobuf", "drawio", "plantuml"]
  const RISKS := ["trivial", "standard", "critical", "regulated"]
  const DEFAULT_APPLIES_TO := ["standard", "critical", "regulated"]

  predicate IsTrue(b: Option<bool>)
  {
    b == Some(true)
  }

  /** What parsing a manifest checks of one overlay's field values. */
  function ParseCheck(o: Overlay): Option<SchemaError>
  {
    var f := o.fields;
    if IsTrue(f.locked) && o.layer != Builtin && o.layer != Org then Some(Authority)
    else if f.kind.Some? && f.kind.value !in ARTIFACT_TYPES then Some(Malformed)
    else if f.dependsOn.Some? && !NoDuplicates(f.dependsOn.value) then Some(Malformed)
    else if f.dependsOn.Some? && o.id in f.dependsOn.value then Some(Cyclic)
    else if f.appliesTo.Some? && (!NoDuplicates(f.appliesTo.value)
      || exists risk <- f.appliesTo.value :: risk !in RISKS)
    then Some(Malformed)
    else None
  }

  /** What organization overlays have demanded of one artifact so far. */
  datatype Mandate = Mandate(required: bool, dependencies: set<Id>)
  {
    function Merge(o: Overlay): Mandate
    {
      if o.layer != Org then this
      else
        Mandate(required || IsTrue(o.fields.required),
                if o.fields.dependsOn.Some? then dependencies + ToSet(o.fields.dependsOn.value) else dependencies)
    }
  }

  const NoMandate := Mandate(false, {})

  function ToSet(ids: seq<Id>): set<Id>
  {
    set a <- ids
  }

  /** _merge_overlay on an artifact no earlier overlay has left in the graph. */
  function Introduce(o: Overlay, mandate: Mandate): Result<Option<Definition>, SchemaError>
  {
    var f := o.fields;
    if IsTrue(f.disabled) then (if mandate.required then Err(Authority) else Ok(None))
    else if f.path.None? || f.kind.None? then Err(Malformed)
    else
      var dependsOn := if f.dependsOn.Some? then f.dependsOn.value else [];
      var required := IsTrue(f.required);
      if mandate.required && !required then Err(Authority)
      else if !(mandate.dependencies <= ToSet(dependsOn)) then Err(Authority)
      else
        Ok(Some(Definition(
          o.id, f.path.value, f.kind.value, required, IsTrue(f.locked), dependsOn,
          if f.appliesTo.Some? then f.appliesTo.value else DEFAULT_APPLIES_TO,
          o.layer, o.schemaId, o.source, mandate.required, mandate.dependencies)))
  }

  /** _merge_overlay on an existing definition. */
  function Override(d: Definition, o: Overlay, mandate: Mandate): Result<Option<Definition>, SchemaError>
  {
    var f := o.fields;
    if d.locked then Err(Authority)
    else if IsTrue(f.disabled) then (if mandate.required then Err(Authority) else Ok(None))
    else
      var required := if f.required.Some? then f.required.value else d.required;
      var dependsOn := if f.dependsOn.Some? then f.dependsOn.value else d.dependsOn;
      if mandate.required && !required then Err(Authority)
      else if !(mandate.dependencies <= ToSet(dependsOn)) then Err(Authority)
      else
        Ok(Some(Definition(
          d.id, if f.path.Some? then f.path.value else d.path, if f.kind.Some? then f.kind.value else d.kind,
          required, if f.locked.Some? then f.locked.value else d.locked, dependsOn,
          if f.appliesTo.Some? then f.appliesTo.value else d.appliesTo,
          o.layer, o.schemaId, o.source, mandate.required, mandate.dependencies)))
  }

  function MergeOverlay(existing: Option<Definition>, o: Overlay,
                        mandate: Mandate): Result<Option<Definition>, SchemaError>
  {
    if existing.None? then Introduce(o, mandate) else Override(existing.value, o, mandate)
  }

  /** The dictionaries that load_artifact_schema_graph fills. */
  datatype Loading = Loading(effective: Graph, mandates: map<Id, Mandate>, seen: set<(Layer, Id)>)

  function MandateOf(l: Loading, id: Id): Mandate
  {
    if id in l.mandates then l.mandates[id] else NoMandate
  }

  /** Parse one overlay and merge it. */
  function LoadOverlay(l: Loading, o: Overlay): Result<Loading, SchemaError>
  {
    if ParseCheck(o).Some? then Err(ParseCheck(o).value) else PlaceOverlay(l, o)
  }

  /** One round of the loading loop. */
  function PlaceOverlay(l: Loading, o: Overlay): Result<Loading, SchemaError>
  {
    if (o.layer, o.id) in l.seen then Err(Duplicate)
    else
      var mandate := MandateOf(l, o.id).Merge(o);
      var existing := if o.id in l.effective then Some(l.effective[o.id]) else None;
      var merged := MergeOverlay(existing, o, mandate);
      if merged.Err? then Err(merged.error)
      else
        Ok(Loading(
          if merged.value.Some? then l.effective[o.id := merged.value.value] else l.effective - {o.id},
          if o.layer == Org then l.mandates[o.id := mandate] else l.mandates,
          l.seen + {(o.layer, o.id)}))
  }

  function LoadAll(overlays: seq<Overlay>): Result<Loading, SchemaError>
  {
    if |overlays| == 0 then Ok(Loading(map[], map[], {}))
    else
      var before := LoadAll(overlays[..|overlays| - 1]);
      if before.Err? then before else LoadOverlay(before.value, overlays[|overlays| - 1])
  }

  lemma {:induction false} LoadStops(overlays: seq<Overlay>, n: nat)
    requires n <= |overlays| && LoadAll(overlays[..n]).Err?
    ensures LoadAll(overlays) == LoadAll(overlays[..n])
    decreases |overlays|
  {
    hide LoadOverlay;
    if n == |overlays| {
      assert overlays[..n] == overlays;
    } else {
      assert overlays[..|overlays| - 1][..n] == overlays[..n];
      LoadStops(overlays[..|overlays| - 1], n);
    }
  }

  // ---------- manifest files

  /** One artifact of a manifest file. */
  datatype Entry = Entry(id: Id, fields: Fields)

  datatype Manifest = Manifest(layer: Layer, schemaId: string, source: string, entries: seq<Entry>)

  function OverlayOf(m: Manifest, e: Entry): Overlay
  {
    Overlay(e.id, m.layer, m.schemaId, m.source, e.fields)
  }

  /** The overlays of the first entries of a manifest. */
  function Overlays(m: Manifest, n: nat): (overlays: seq<Overlay>)
    requires n <= |m.entries|
    ensures |overlays| == n
  {
    seq(n, k requires 0 <= k < n => OverlayOf(m, m.entries[k]))
  }

  predicate Repeats(m: Manifest, n: nat)
    requires n < |m.entries|
  {
    exists i :: 0 <= i < n && m.entries[i].id == m.entries[n].id
  }

  /** The first error among the first entries of a file, all of which are parsed before one is merged. */
  function ParseFault(m: Manifest, n: nat): Option<SchemaError>
    requires n <= |m.entries|
  {
    if n == 0 then None
    else if ParseFault(m, n - 1).Some? then ParseFault(m, n - 1)
    else if Repeats(m, n - 1) then Some(Duplicate)
    else ParseCheck(OverlayOf(m, m.entries[n - 1]))
  }

  /** _parse_manifest_overlays */
  method ParseManifest(m: Manifest) returns (fault: Option<SchemaError>)
    ensures fault == ParseFault(m, |m.entries|)
  {
    hide ParseCheck;
    var seen: set<Id> := {};
    for n := 0 to |m.entries|
      invariant ParseFault(m, n).None?
      invariant forall id :: id in seen <==> exists i :: 0 <= i < n && m.entries[i].id == id
    {
      var id := m.entries[n].id;
      fault := if id in seen then Some(Duplicate) else ParseCheck(OverlayOf(m, m.entries[n]));
      assert fault == ParseFault(m, n + 1);
      if fault.Some? {
        FaultStays(m, n + 1, |m.entries|);
        return;
      }
      seen := seen + {id};
    }
    return None;
  }

  lemma {:induction false} FaultStays(m: Manifest, n: nat, k: nat)
    requires n <= k <= |m.entries| && ParseFault(m, n).Some?
    ensures ParseFault(m, k) == ParseFault(m, n)
    decreases k
  {
    if n < k { FaultStays(m, n, k - 1); }
  }

  function PlaceAll(l: Loading, overlays: seq<Overlay>): Result<Loading, SchemaError>
  {
    if |overlays| == 0 then Ok(l)
    else
      var before := PlaceAll(l, overlays[..|overlays| - 1]);
      if before.Err? then before else PlaceOverlay(before.value, overlays[|overlays| - 1])
  }

  function LoadManifest(l: Loading, m: Manifest): Result<Loading, SchemaError>
  {
    var fault := ParseFault(m, |m.entries|);
    if fault.Some? then Err(fault.value) else PlaceAll(l, Overlays(m, |m.entries|))
  }

  function LoadManifests(manifests: seq<Manifest>): Result<Loading, SchemaError>
  {
    if |manifests| == 0 then Ok(Loading(map[], map[], {}))
    else
      var before := LoadManifests(manifests[..|manifests| - 1]);
      if before.Err? then before else LoadManifest(before.value, manifests[|manifests| - 1])
  }

  /** The overlays of all files, in the order they are read. */
  function AllOverlays(manifests: seq<Manifest>): seq<Overlay>
  {
    if |manifests| == 0 then []
    else
      var last := manifests[|manifests| - 1];
      AllOverlays(manifests[..|manifests| - 1]) + Overlays(last, |last.entries|)
  }

  /** Parsing the entries of one file first changes which error is met, and not whether one is. */
  lemma {:induction false} EntriesLoad(before: seq<Overlay>, l: Loading, m: Manifest, n: nat)
    requires LoadAll(before) == Ok(l) && n <= |m.entries|
    ensures var loaded := LoadAll(before + Overlays(m, n));
            && (ParseFault(m, n).Some? ==> loaded.Err?)
            && (ParseFault(m, n).None? ==> loaded == PlaceAll(l, Overlays(m, n)))
            && (loaded.Ok? ==> forall i :: 0 <= i < n ==> (m.layer, m.entries[i].id) in loaded.value.seen)
  {
    hide ParseCheck, LoadOverlay, PlaceOverlay, Repeats;
    if n == 0 {
      assert before + Overlays(m, 0) == before;
    } else {
      EntriesLoad(before, l, m, n - 1);
      var all, o := before + Overlays(m, n), OverlayOf(m, m.entries[n - 1]);
      assert all[..|all| - 1] == before + Overlays(m, n - 1);
      assert Overlays(m, n)[..n - 1] == Overlays(m, n - 1);
      var loaded := LoadAll(before + Overlays(m, n - 1));
      if loaded.Ok? {
        EntryLoads(loaded.value, m, n - 1);
      }
    }
  }

  lemma EntryLoads(l: Loading, m: Manifest, n: nat)
    requires n < |m.entries| && forall i :: 0 <= i < n ==> (m.layer, m.entries[i].id) in l.seen
    ensures var o := OverlayOf(m, m.entries[n]);
            && (Repeats(m, n) || ParseCheck(o).Some? ==> LoadOverlay(l, o).Err?)
            && (ParseCheck(o).None? ==> LoadOverlay(l, o) == PlaceOverlay(l, o))
            && (LoadOverlay(l, o).Ok? ==> LoadOverlay(l, o).value.seen == l.seen + {(m.layer, m.entries[n].id)})
  {
    hide ParseCheck, MergeOverlay;
  }

  /** Loading file by file succeeds exactly when loading overlay by overlay does, with the same result. */
  lemma {:induction false} ManifestsAreOverlays(manifests: seq<Manifest>)
    ensures LoadManifests(manifests).Ok? <==> LoadAll(AllOverlays(manifests)).Ok?
    ensures LoadManifests(manifests).Ok? ==> LoadManifests(manifests) == LoadAll(AllOverlays(manifests))
  {
    if |manifests| > 0 {
      var init, last := manifests[..|manifests| - 1], manifests[|manifests| - 1];
      var before, all := AllOverlays(init), AllOverlays(manifests);
      ManifestsAreOverlays(init);
      if LoadAll(before).Ok? {
        EntriesLoad(before, LoadAll(before).value, last, |last.entries|);
      } else {
        assert all[..|before|] == before;
        LoadStops(all, |before|);
      }
    }
  }

  lemma {:induction false} ManifestsStop(manifests: seq<Manifest>, n: nat)
    requires n <= |manifests| && LoadManifests(manifests[..n]).Err?
    ensures LoadManifests(manifests) == LoadManifests(manifests[..n])
    decreases |manifests|
  {
    hide LoadManifest;
    if n == |manifests| {
      assert manifests[..n] == manifests;
    } else {
      assert manifests[..|manifests| - 1][..n] == manifests[..n];
      ManifestsStop(manifests[..|manifests| - 1], n);
    }
  }

  /** The inner loop over the overlays of one file. */
  method PlaceManifest(l: Loading, m: Manifest) returns (r: Result<Loading, SchemaError>)
    ensures r == PlaceAll(l, Overlays(m, |m.entries|))
  {
    hide PlaceOverlay;
    var loading := l;
    for n := 0 to |m.entries|
      invariant PlaceAll(l, Overlays(m, n)) == Ok(loading)
    {
      assert Overlays(m, n + 1)[..n] == Overlays(m, n);
      r := PlaceOverlay(loading, OverlayOf(m, m.entries[n]));
      if r.Err? {
        PlacingStops(l, m, n + 1, |m.entries|);
        return;
      }
      loading := r.value;
    }
    return Ok(loading);
  }

  lemma {:induction false} PlacingStops(l: Loading, m: Manifest, n: nat, k: nat)
    requires n <= k <= |m.entries| && PlaceAll(l, Overlays(m, n)).Err?
    ensures PlaceAll(l, Overlays(m, k)) == PlaceAll(l, Overlays(m, n))
    decreases k
  {
    hide PlaceOverlay;
    if n < k {
      PlacingStops(l, m, n, k - 1);
      assert Overlays(m, k)[..k - 1] == Overlays(m, k - 1);
    }
  }

  datatype SchemaGraph = SchemaGraph(artifacts: Graph, order: seq<Id>)

  /** load_artifact_schema_graph over the manifest files of all layers, in the order they are read. */
  method LoadGraph(manifests: seq<Manifest>) returns (r: Result<SchemaGraph, SchemaError>)
    ensures var loaded := LoadAll(AllOverlays(manifests));
            && (r.Ok? <==> loaded.Ok? && Resolved(loaded.value.effective) && Acyclic(loaded.value.effective))
            && (r.Ok? ==>
                  r.value.artifacts == loaded.value.effective && IsTopological(r.value.artifacts, r.value.order))
            && (loaded.Err? ==> LoadManifests(manifests).Err? && r == Err(LoadManifests(manifests).error))
            && (loaded.Ok? && r.Err? ==> r.error == if Resolved(loaded.value.effective) then Cyclic else Unresolved)
  {
    hide ParseFault, PlaceAll, LoadAll, AllOverlays, IsTopological, Acyclic;
    ManifestsAreOverlays(manifests);
    var loading := Loading(map[], map[], {});
    for i := 0 to |manifests|
      invariant LoadManifests(manifests[..i]) == Ok(loading)
    {
      assert manifests[..i + 1][..i] == manifests[..i];
      var m := manifests[i];
      var fault := ParseManifest(m);
      if fault.Some? {
        ManifestsStop(manifests, i + 1);
        return Err(fault.value);
      }
      var next := PlaceManifest(loading, m);
      if next.Err? {
        ManifestsStop(manifests, i + 1);
        return Err(next.error);
      }
      loading := next.value;
    }
    assert manifests[..|manifests|] == manifests;
    var order := TopologicalOrder(loading.effective);
    match order
    case Ok(ids) => return Ok(SchemaGraph(loading.effective, ids));
    case Err(MissingDependency(_, _)) => return Err(Unresolved);
    case Err(DependencyCycle(_)) => return Err(Cyclic);
  }

  // ---------- what organization schemas can rely on

  /** Some organization overlay among these requires the artifact. */
  predicate OrgRequires(overlays: seq<Overlay>, id: Id)
  {
    exists o <- overlays :: o.layer == Org && o.id == id && IsTrue(o.fields.required)
  }

  /** Some organization overlay among these makes the artifact depend on `d`. */
  predicate OrgDemands(overlays: seq<Overlay>, id: Id, d: Id)
  {
    exists o <- overlays :: o.layer == Org && o.id == id && o.fields.dependsOn.Some? && d in o.fields.dependsOn.value
  }

  /** The mandates are exactly what the organization overlays say, taken together. */
  predicate MandatesExact(l: Loading, overlays: seq<Overlay>, id: Id)
  {
    && (MandateOf(l, id).required <==> OrgRequires(overlays, id))
    && (forall d <- MandateOf(l, id).dependencies :: OrgDemands(overlays, id, d))
    && (forall o <- overlays :: o.layer == Org && o.id == id && o.fields.dependsOn.Some? ==>
          ToSet(o.fields.dependsOn.value) <= MandateOf(l, id).dependencies)
  }

  /** The definition carries its mandate and keeps its dependencies. */
  predicate Keeps(d: Definition, mandate: Mandate)
  {
    && mandate.dependencies <= ToSet(d.dependsOn)
    && d.organizationRequired == mandate.required && d.organizationDependencies == mandate.dependencies
  }

  /** Every mandate is honoured by the definitions as they stand. */
  predicate Honoured(l: Loading)
  {
    && (forall id <- l.mandates :: l.mandates[id].required ==> id in l.effective && l.effective[id].required)
    && (forall id <- l.effective :: Keeps(l.effective[id], MandateOf(l, id)))
  }

  lemma {:induction false} MandatesOfOverlays(overlays: seq<Overlay>, id: Id)
    requires LoadAll(overlays).Ok?
    ensures MandatesExact(LoadAll(overlays).value, overlays, id)
    decreases |overlays|
  {
    hide LoadOverlay, MandatesExact;
    if |overlays| > 0 {
      var init, o := overlays[..|overlays| - 1], overlays[|overlays| - 1];
      MandatesOfOverlays(init, id);
      MandatesStep(LoadAll(init).value, init, o, id);
      assert overlays == init + [o];
    } else {
      NothingAsked(id);
    }
  }

  lemma NothingAsked(id: Id)
    ensures MandatesExact(Loading(map[], map[], {}), [], id)
  {
  }

  lemma MandatesStep(l: Loading, init: seq<Overlay>, o: Overlay, id: Id)
    requires MandatesExact(l, init, id) && LoadOverlay(l, o).Ok?
    ensures MandatesExact(LoadOverlay(l, o).value, init + [o], id)
  {
    hide MergeOverlay, ParseCheck;
    var asked := MandateOf(LoadOverlay(l, o).value, id);
    assert asked == if o.id == id then MandateOf(l, id).Merge(o) else MandateOf(l, id);
    assert OrgRequires(init + [o], id) <==> OrgRequires(init, id) || OrgRequires([o], id);
    forall d ensures OrgDemands(init + [o], id, d) <==> OrgDemands(init, id, d) || OrgDemands([o], id, d) {}
  }

  lemma MergeHonours(existing: Option<Definition>, o: Overlay, mandate: Mandate)
    ensures var r := MergeOverlay(existing, o, mandate);
            r.Ok? ==>
              && (mandate.required ==> r.value.Some? && r.value.value.required)
              && (r.value.Some? ==> Keeps(r.value.value, mandate))
  {
  }

  lemma HonoursStep(l: Loading, o: Overlay)
    requires Honoured(l) && LoadOverlay(l, o).Ok?
    ensures Honoured(LoadOverlay(l, o).value)
  {
    hide MergeOverlay, ParseCheck, Keeps;
    var existing := if o.id in l.effective then Some(l.effective[o.id]) else None;
    MergeHonours(existing, o, MandateOf(l, o.id).Merge(o));
    var merged := MergeOverlay(existing, o, MandateOf(l, o.id).Merge(o)).value;
    var m := LoadOverlay(l, o).value;
    assert m.effective == if merged.Some? then l.effective[o.id := merged.value] else l.effective - {o.id};
    forall id | id in m.mandates && id != o.id ensures MandateOf(m, id) == MandateOf(l, id) {}
  }

  lemma {:induction false} LoadHonours(overlays: seq<Overlay>)
    requires LoadAll(overlays).Ok?
    ensures Honoured(LoadAll(overlays).value)
    decreases |overlays|
  {
    hide LoadOverlay, Honoured;
    if |overlays| > 0 {
      LoadHonours(overlays[..|overlays| - 1]);
      HonoursStep(LoadAll(overlays[..|overlays| - 1]).value, overlays[|overlays| - 1]);
    } else {
      NothingMandated();
    }
  }

  lemma NothingMandated()
    ensures Honoured(Loading(map[], map[], {}))
  {
  }

  /**
   * Organization authority: in any graph that loads, every artifact an organization schema
   * required is present and required, and every artifact present keeps all dependencies that
   * organization schemas gave it, whatever disabled and re-introduced it; those dependencies are
   * themselves artifacts of the graph.
   */
  lemma OrganizationAuthority(overlays: seq<Overlay>, id: Id, d: Id)
    requires LoadAll(overlays).Ok? && Resolved(LoadAll(overlays).value.effective)
    ensures var g := LoadAll(overlays).value.effective;
            && (OrgRequires(overlays, id) ==> id in g && g[id].required && g[id].organizationRequired)
            && (id in g && OrgDemands(overlays, id, d) ==> d in g[id].dependsOn && d in g)
            && (id in g ==> (g[id].organizationRequired <==> OrgRequires(overlays, id)))
            && (id in g ==> (d in g[id].organizationDependencies <==> OrgDemands(overlays, id, d)))
  {
    hide LoadAll;
    MandatesOfOverlays(overlays, id);
    LoadHonours(overlays);
    if OrgDemands(overlays, id, d) {
      var o :| o in overlays && o.layer == Org && o.id == id && o.fields.dependsOn.Some?
        && d in o.fields.dependsOn.value;
      assert d in ToSet(o.fields.dependsOn.value);
    }
  }

  lemma LoadPrefix(overlays: seq<Overlay>)
    requires |overlays| > 0 && LoadAll(overlays).Ok?
    ensures LoadAll(overlays[..|overlays| - 1]).Ok?
    ensures LoadOverlay(LoadAll(overlays[..|overlays| - 1]).value, overlays[|overlays| - 1]) == LoadAll(overlays)
  {
  }

  lemma LockedStep(l: Loading, o: Overlay, id: Id)
    requires id in l.effective && l.effective[id].locked && LoadOverlay(l, o).Ok?
    ensures o.id != id
    ensures var m := LoadOverlay(l, o).value; id in m.effective && m.effective[id] == l.effective[id]
  {
  }

  /** A locked definition is final: any overlay after it leaves it identical, or loading fails. */
  lemma {:induction false} LockedIsFinal(overlays: seq<Overlay>, n: nat, id: Id)
    requires n <= |overlays| && LoadAll(overlays).Ok?
    ensures LoadAll(overlays[..n]).Ok?
    ensures var early := LoadAll(overlays[..n]).value.effective;
            id in early && early[id].locked ==>
              id in LoadAll(overlays).value.effective && LoadAll(overlays).value.effective[id] == early[id]
    decreases |overlays|
  {
    hide LoadAll, LoadOverlay;
    if n == |overlays| {
      assert overlays[..n] == overlays;
    } else {
      LoadPrefix(overlays);
      var init := overlays[..|overlays| - 1];
      assert init[..n] == overlays[..n];
      LockedIsFinal(init, n, id);
      if id in LoadAll(overlays[..n]).value.effective && LoadAll(overlays[..n]).value.effective[id].locked {
        LockedStep(LoadAll(init).value, overlays[|overlays| - 1], id);
      }
    }
  }

  /** No layer speaks twice about one artifact. */
  lemma {:induction false} OneVoicePerLayer(overlays: seq<Overlay>)
    requires LoadAll(overlays).Ok?
    ensures forall i, j :: 0 <= i < j < |overlays| ==>
              overlays[i].id != overlays[j].id || overlays[i].layer != overlays[j].layer
    ensures forall o <- overlays :: (o.layer, o.id) in LoadAll(overlays).value.seen
    decreases |overlays|
  {
    hide LoadOverlay;
    if |overlays| > 0 {
      var init, last := overlays[..|overlays| - 1], overlays[|overlays| - 1];
      OneVoicePerLayer(init);
      SeenOnce(LoadAll(init).value, last);
      forall i | 0 <= i < |init|
        ensures init[i] == overlays[i] && (overlays[i].layer, overlays[i].id) != (last.layer, last.id)
      {
        assert overlays[i] in init;
      }
      assert overlays == init + [last];
    }
  }

  lemma SeenOnce(l: Loading, o: Overlay)
    requires LoadOverlay(l, o).Ok?
    ensures (o.layer, o.id) !in l.seen && LoadOverlay(l, o).value.seen == l.seen + {(o.layer, o.id)}
  {
    hide MergeOverlay, ParseCheck;
  }

  // ---------- what the layers add up to

  /** The overlays of an artifact since it was last disabled. */
  function Live(overlays: seq<Overlay>, id: Id): seq<Overlay>
  {
    if |overlays| == 0 then []
    else
      var before, o := Live(overlays[..|overlays| - 1], id), overlays[|overlays| - 1];
      if o.id != id then before else if IsTrue(o.fields.disabled) then [] else before + [o]
  }

  /** The value that the last of these overlays gives to a field, if one does. */
  function LastSet<T>(live: seq<Overlay>, field: Fields -> Option<T>): Option<T>
  {
    if |live| == 0 then None
    else
      var own := field(live[|live| - 1].fields);
      if own.Some? then own else LastSet(live[..|live| - 1], field)
  }

  function Or<T>(value: Option<T>, default: T): T
  {
    if value.Some? then value.value else default
  }

  function PathField(f: Fields): Option<string> { f.path }
  function KindField(f: Fields): Option<string> { f.kind }
  function RequiredField(f: Fields): Option<bool> { f.required }
  function LockedField(f: Fields): Option<bool> { f.locked }
  function DependsField(f: Fields): Option<seq<Id>> { f.dependsOn }
  function AppliesField(f: Fields): Option<seq<string>> { f.appliesTo }

  /**
   * A definition holds the last value set for each field, its default where none was, and the last
   * overlay's origin.
   */
  predicate AddsUp(d: Definition, live: seq<Overlay>, id: Id)
  {
    && |live| > 0 && d.id == id
    && LastSet(live, PathField) == Some(d.path) && LastSet(live, KindField) == Some(d.kind)
    && d.required == Or(LastSet(live, RequiredField), false)
    && d.locked == Or(LastSet(live, LockedField), false)
    && d.dependsOn == Or(LastSet(live, DependsField), [])
    && d.appliesTo == Or(LastSet(live, AppliesField), DEFAULT_APPLIES_TO)
    && (d.layer, d.schemaId, d.source) == (live[|live| - 1].layer, live[|live| - 1].schemaId, live[|live| - 1].source)
  }

  lemma LastSetSnoc<T>(live: seq<Overlay>, o: Overlay, field: Fields -> Option<T>)
    ensures LastSet(live + [o], field) == if field(o.fields).Some? then field(o.fields) else LastSet(live, field)
  {
    assert (live + [o])[..|live|] == live;
  }

  lemma MergeAddsUp(existing: Option<Definition>, live: seq<Overlay>, o: Overlay, mandate: Mandate)
    requires if existing.Some? then AddsUp(existing.value, live, o.id) else live == []
    requires MergeOverlay(existing, o, mandate).Ok?
    ensures var merged := MergeOverlay(existing, o, mandate).value;
            if IsTrue(o.fields.disabled) then merged.None? else merged.Some? && AddsUp(merged.value, live + [o], o.id)
  {
    hide LastSet;
    LastSetSnoc(live, o, PathField);
    LastSetSnoc(live, o, KindField);
    LastSetSnoc(live, o, RequiredField);
    LastSetSnoc(live, o, LockedField);
    LastSetSnoc(live, o, DependsField);
    LastSetSnoc(live, o, AppliesField);
    if existing.None? {
      NothingSet(PathField);
      NothingSet(KindField);
      NothingSet(RequiredField);
      NothingSet(LockedField);
      NothingSet(DependsField);
      NothingSet(AppliesField);
    }
  }

  lemma NothingSet<T>(field: Fields -> Option<T>)
    ensures LastSet([], field) == None
  {
  }

  /**
   * What layering means: an artifact is in the graph exactly when some overlay spoke about it
   * since it was last disabled, and then each field has the last value any of those gave it.
   */
  lemma {:induction false} LayersAddUp(overlays: seq<Overlay>, id: Id)
    requires LoadAll(overlays).Ok?
    ensures var g := LoadAll(overlays).value.effective;
            && (id in g <==> Live(overlays, id) != [])
            && (id in g ==> AddsUp(g[id], Live(overlays, id), id))
    decreases |overlays|
  {
    if |overlays| > 0 {
      var init, o := overlays[..|overlays| - 1], overlays[|overlays| - 1];
      LayersAddUp(init, id);
      hide AddsUp, MergeOverlay, ParseCheck;
      if o.id == id {
        var l := LoadAll(init).value;
        var existing := if id in l.effective then Some(l.effective[id]) else None;
        MergeAddsUp(existing, Live(init, id), o, MandateOf(l, id).Merge(o));
      }
    }
  }
}
