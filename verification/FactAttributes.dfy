/**
 * The attributes of architecture facts: how they are frozen, and when a frozen mapping can be
 * written as JSON again (architecture_drift.py).
 */
module FactAttributes {
  import opened Json
  import opened AuditContracts
  import opened Prelude
  import ArtifactGraphs

  const MAX_JSON_ITEMS: nat := 500_000
  const MAX_NESTING := 32

  type Attributes = map<string, Json>

  // ---------- Python values

  /** A JSON value in Python; `Proxy` is the read-only view that freezing puts around a mapping. */
  datatype Value =
    | Atom(json: Json)
    | List(items: seq<Value>)
    | Tuple(items: seq<Value>)
    | Dict(entries: seq<Entry>)
    | Proxy(entries: seq<Entry>)

  datatype Entry = Entry(key: string, value: Value)

  /** What json.loads builds. */
  function Loaded(v: Json): Value
  {
    match v
    case Arr(items) => List(seq(|items|, k requires 0 <= k < |items| => Loaded(items[k])))
    case Obj(members) =>
      Dict(seq(|members|, k requires 0 <= k < |members| => Entry(members[k].key, Loaded(members[k].value))))
    case _ => Atom(v)
  }

  /** The JSON value that a Python value stands for, frozen or not. */
  function Plain(v: Value): Json
  {
    match v
    case Atom(json) => json
    case List(items) => Arr(seq(|items|, k requires 0 <= k < |items| => Plain(items[k])))
    case Tuple(items) => Arr(seq(|items|, k requires 0 <= k < |items| => Plain(items[k])))
    case Dict(entries) =>
      Obj(seq(|entries|, k requires 0 <= k < |entries| => Member(entries[k].key, Plain(entries[k].value))))
    case Proxy(entries) =>
      Obj(seq(|entries|, k requires 0 <= k < |entries| => Member(entries[k].key, Plain(entries[k].value))))
  }

  /** _freeze_json */
  function Freeze(v: Value): Value
  {
    match v
    case Atom(_) => v
    case List(items) => Tuple(seq(|items|, k requires 0 <= k < |items| => Freeze(items[k])))
    case Tuple(items) => Tuple(seq(|items|, k requires 0 <= k < |items| => Freeze(items[k])))
    case Dict(entries) =>
      Proxy(seq(|entries|, k requires 0 <= k < |entries| => Entry(entries[k].key, Freeze(entries[k].value))))
    case Proxy(entries) =>
      Proxy(seq(|entries|, k requires 0 <= k < |entries| => Entry(entries[k].key, Freeze(entries[k].value))))
  }

  /** _thaw_json: a list is left as it is. */
  function Thaw(v: Value): Value
  {
    match v
    case Tuple(items) => List(seq(|items|, k requires 0 <= k < |items| => Thaw(items[k])))
    case Dict(entries) =>
      Dict(seq(|entries|, k requires 0 <= k < |entries| => Entry(entries[k].key, Thaw(entries[k].value))))
    case Proxy(entries) =>
      Dict(seq(|entries|, k requires 0 <= k < |entries| => Entry(entries[k].key, Thaw(entries[k].value))))
    case _ => v
  }

  /** json.dumps knows every type inside; it does not know a mapping view. */
  predicate Dumpable(v: Value)
  {
    match v
    case Atom(_) => true
    case List(items) => forall item <- items :: Dumpable(item)
    case Tuple(items) => forall item <- items :: Dumpable(item)
    case Dict(entries) => forall e <- entries :: Dumpable(e.value)
    case Proxy(_) => false
  }

  predicate KeysNamed(v: Json)
  {
    match v
    case Arr(items) => forall item <- items :: KeysNamed(item)
    case Obj(members) => forall m <- members :: m.key != "" && KeysNamed(m.value)
    case _ => true
  }

  /** _validate_json */
  predicate ValidJson(v: Json)
  {
    Nodes(v) <= MAX_JSON_ITEMS && Shallow(v, MAX_NESTING) && Finite(v) && KeysNamed(v)
  }

  /** dict(value): only the outermost view is replaced. */
  function AsDict(v: Value): Value
  {
    if v.Proxy? then Dict(v.entries) else v
  }

  /** _json_mapping */
  function JsonMapping(v: Value): Option<Value>
    requires v.Dict? || v.Proxy?
  {
    if ValidJson(Plain(v)) && Dumpable(AsDict(v)) then Some(Freeze(Loaded(Plain(v)))) else None
  }

  // ---------- attributes

  function Members(a: Attributes): seq<Member>
  {
    var keys := ArtifactGraphs.SortedKeys(a.Keys);
    seq(|keys|, k requires 0 <= k < |keys| => assert keys[k] in keys; Member(keys[k], a[keys[k]]))
  }

  /** What a fact keeps of the attributes it is built from. */
  function FrozenAttributes(a: Attributes): Value
  {
    Freeze(Loaded(Obj(Members(a))))
  }

  /** A mapping, or a list that holds one. */
  predicate HoldsMapping(v: Json)
  {
    match v
    case Arr(items) => exists item <- items :: HoldsMapping(item)
    case Obj(_) => true
    case _ => false
  }

  /** Some attribute is a mapping or holds one. */
  predicate Nested(a: Attributes)
  {
    exists name :: name in a && HoldsMapping(a[name])
  }

  lemma {:induction false} PlainLoaded(v: Json)
    ensures Plain(Loaded(v)) == v && Plain(Freeze(Loaded(v))) == v && Thaw(Freeze(Loaded(v))) == Loaded(v)
  {
    match v
    case Arr(items) =>
      forall k | 0 <= k < |items|
        ensures Plain(Loaded(items[k])) == items[k] && Plain(Freeze(Loaded(items[k]))) == items[k]
        ensures Thaw(Freeze(Loaded(items[k]))) == Loaded(items[k])
      {
        PlainLoaded(items[k]);
      }
    case Obj(members) =>
      forall k | 0 <= k < |members|
        ensures Plain(Loaded(members[k].value)) == members[k].value
        ensures Plain(Freeze(Loaded(members[k].value))) == members[k].value
        ensures Thaw(Freeze(Loaded(members[k].value))) == Loaded(members[k].value)
      {
        PlainLoaded(members[k].value);
      }
    case _ =>
  }

  lemma {:induction false} LoadedDumpable(v: Json)
    ensures Dumpable(Loaded(v))
  {
    match v
    case Arr(items) =>
      forall k | 0 <= k < |items| ensures Dumpable(Loaded(items[k])) { LoadedDumpable(items[k]); }
    case Obj(members) =>
      forall k | 0 <= k < |members| ensures Dumpable(Loaded(members[k].value)) { LoadedDumpable(members[k].value); }
    case _ =>
  }

  /** A frozen value can be written exactly when no mapping is in it. */
  lemma {:induction false} FrozenDumpable(v: Json)
    ensures Dumpable(Freeze(Loaded(v))) <==> !HoldsMapping(v)
  {
    if v.Arr? {
      forall k | 0 <= k < |v.items| ensures Dumpable(Freeze(Loaded(v.items[k]))) <==> !HoldsMapping(v.items[k]) {
        FrozenDumpable(v.items[k]);
      }
      var frozen := Freeze(Loaded(v)).items;
      assert forall k :: 0 <= k < |v.items| ==> frozen[k] == Freeze(Loaded(v.items[k]));
      if item :| item in v.items && HoldsMapping(item) {
        var k :| 0 <= k < |v.items| && v.items[k] == item;
        assert frozen[k] in frozen;
      }
    }
  }

  /** What is written and read back once: a fact keeps all its attributes, and thawing them gives them back. */
  lemma FrozenOnce(a: Attributes)
    requires ValidJson(Obj(Members(a)))
    ensures JsonMapping(Loaded(Obj(Members(a)))) == Some(FrozenAttributes(a))
    ensures Thaw(FrozenAttributes(a)) == Loaded(Obj(Members(a)))
  {
    PlainLoaded(Obj(Members(a)));
    LoadedDumpable(Obj(Members(a)));
  }

  /** The outermost mapping of a fact's attributes can be written exactly when none is nested in it. */
  lemma AttributesDumpable(a: Attributes)
    ensures Dumpable(AsDict(FrozenAttributes(a))) <==> !Nested(a)
  {
    var ms, entries := Members(a), AsDict(FrozenAttributes(a)).entries;
    forall k | 0 <= k < |ms| ensures Dumpable(entries[k].value) <==> !HoldsMapping(ms[k].value) {
      FrozenDumpable(ms[k].value);
    }
    if name :| name in a && HoldsMapping(a[name]) {
      var keys := ArtifactGraphs.SortedKeys(a.Keys);
      var k :| 0 <= k < |keys| && keys[k] == name;
      assert entries[k] in entries;
    }
    forall k | 0 <= k < |ms| ensures ms[k].key in a && a[ms[k].key] == ms[k].value {
      assert ArtifactGraphs.SortedKeys(a.Keys)[k] in ArtifactGraphs.SortedKeys(a.Keys);
    }
  }

  /** Attributes that were frozen once are accepted a second time exactly when no mapping is nested in them. */
  lemma FrozenTwice(a: Attributes)
    requires ValidJson(Obj(Members(a)))
    ensures JsonMapping(FrozenAttributes(a)) == if Nested(a) then None else Some(FrozenAttributes(a))
  {
    PlainLoaded(Obj(Members(a)));
    AttributesDumpable(a);
  }
}
