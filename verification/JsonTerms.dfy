/** The measures and checks on JSON values spelled out over the values that sit inside a value. */
module JsonTerms {
  import opened Prelude
  import opened Json
  import opened JsonProofs
  import opened AuditContracts
  import opened FactAttributes

  // ---------- fields

  /** The value under a name. */
  function Field(v: Json, name: string): Option<Json>
  {
    if v.Obj? then Lookup(v.members, name) else None
  }

  function Lookup(ms: seq<Member>, name: string): Option<Json>
  {
    if |ms| == 0 then None
    else if ms[0].key == name then Some(ms[0].value)
    else Lookup(ms[1..], name)
  }

  lemma {:induction false} LookupAt(ms: seq<Member>, k: nat)
    requires k < |ms| && forall j :: 0 <= j < k ==> ms[j].key != ms[k].key
    ensures Lookup(ms, ms[k].key) == Some(ms[k].value)
  {
    if k > 0 { LookupAt(ms[1..], k - 1); }
  }

  lemma {:induction false} LookupJoin(a: seq<Member>, b: seq<Member>, name: string)
    ensures Lookup(a + b, name) == if Lookup(a, name).Some? then Lookup(a, name) else Lookup(b, name)
  {
    if |a| == 0 {
      assert a + b == b;
    } else {
      LookupJoin(a[1..], b, name);
      assert (a + b)[1..] == a[1..] + b;
    }
  }

  lemma {:induction false} KeysAscend(ms: seq<Member>, i: nat, j: nat)
    requires Sorted(ms) && i < j < |ms|
    ensures Less(ms[i].key, ms[j].key)
    decreases j
  {
    hide Less;
    if i < j - 1 {
      KeysAscend(ms, i, j - 1);
      LessTransitive(ms[i].key, ms[j - 1].key, ms[j].key);
    }
  }

  /** The members of a record, by position and by name. */
  lemma MemberFound(v: Json, k: nat, name: string)
    requires v.Obj? && Sorted(v.members) && k < |v.members| && v.members[k].key == name
    ensures Field(v, name) == Some(v.members[k].value)
  {
    hide Less;
    forall j | 0 <= j < k ensures v.members[j].key != name {
      KeysAscend(v.members, j, k);
      LessIrreflexive(name);
    }
    LookupAt(v.members, k);
  }

  // ---------- values inside a value

  /** The values directly inside. */
  function Inside(v: Json): seq<Json>
  {
    match v
    case Arr(items) => items
    case Obj(members) => seq(|members|, k requires 0 <= k < |members| => members[k].value)
    case _ => []
  }

  /** The value that a path of positions leads to. */
  function ValueAt(v: Json, path: seq<nat>): Option<Json>
    decreases |path|
  {
    if |path| == 0 then Some(v)
    else if path[0] < |Inside(v)| then ValueAt(Inside(v)[path[0]], path[1..])
    else None
  }

  lemma Under(v: Json, k: nat, path: seq<nat>)
    requires k < |Inside(v)|
    ensures ValueAt(v, [k] + path) == ValueAt(Inside(v)[k], path)
  {
    assert ([k] + path)[1..] == path;
  }

  /** The value and all values inside it have the property. */
  ghost predicate Everywhere(v: Json, property: Json -> bool)
  {
    property(v) &&
    match v
    case Arr(items) => forall item <- items :: Everywhere(item, property)
    case Obj(members) => forall m <- members :: Everywhere(m.value, property)
    case _ => true
  }

  /** Every value that a path leads to has the property. */
  ghost predicate OnPaths(v: Json, property: Json -> bool)
  {
    forall path :: ValueAt(v, path).Some? ==> property(ValueAt(v, path).value)
  }

  /** No path is longer than this. */
  ghost predicate NoDeeper(v: Json, room: int)
  {
    forall path :: ValueAt(v, path).Some? ==> |path| <= room
  }

  lemma {:induction false} EverywhereMeans(v: Json, property: Json -> bool)
    ensures Everywhere(v, property) <==> OnPaths(v, property)
  {
    if Everywhere(v, property) {
      forall path | ValueAt(v, path).Some? ensures property(ValueAt(v, path).value) { OnPath(v, property, path); }
    } else {
      var path := Exception(v, property);
    }
  }

  lemma {:induction false} OnPath(v: Json, property: Json -> bool, path: seq<nat>)
    requires Everywhere(v, property) && ValueAt(v, path).Some?
    ensures property(ValueAt(v, path).value)
    decreases |path|
  {
    if |path| > 0 {
      var inner := Inside(v)[path[0]];
      assert v.Obj? ==> v.members[path[0]] in v.members;
      OnPath(inner, property, path[1..]);
    }
  }

  lemma {:induction false} Exception(v: Json, property: Json -> bool) returns (path: seq<nat>)
    requires !Everywhere(v, property)
    ensures ValueAt(v, path).Some? && !property(ValueAt(v, path).value)
    decreases v
  {
    path := [];
    if property(v) {
      var k: nat, below;
      match v {
        case Arr(items) =>
          k :| k < |items| && !Everywhere(items[k], property);
          below := Exception(items[k], property);
        case Obj(members) =>
          k :| k < |members| && !Everywhere(members[k].value, property);
          below := Exception(members[k].value, property);
      }
      Under(v, k, below);
      path := [k] + below;
    }
  }

  // ---------- checks

  predicate NotInfinite(v: Json) { !v.NonFinite? }

  predicate Writable(v: Json) { !v.NonFinite? && !v.Unencodable? }

  predicate NoMapping(v: Json) { !v.Obj? }

  /** No member of a mapping is without a name. */
  predicate NamesGiven(v: Json)
  {
    v.Obj? ==> forall m <- v.members :: m.key != ""
  }

  /** No member of a mapping is named like a secret. */
  predicate NoSecretName(v: Json, env: Platform)
  {
    v.Obj? ==> forall m <- v.members :: !IsSecretKey(m.key, env)
  }

  lemma {:induction false} Checks(v: Json)
    ensures Finite(v) <==> Everywhere(v, NotInfinite)
    ensures Encodable(v) <==> Everywhere(v, Writable)
    ensures KeysNamed(v) <==> Everywhere(v, NamesGiven)
    decreases v
  {
    match v
    case Arr(items) => forall item | item in items { Checks(item); }
    case Obj(members) => forall m | m in members { Checks(m.value); }
    case _ =>
  }

  /** A mapping is inside exactly when some path leads to one. */
  lemma {:induction false} HoldsMappingMeans(v: Json)
    ensures HoldsMapping(v) <==> exists path :: ValueAt(v, path).Some? && ValueAt(v, path).value.Obj?
  {
    NoMappings(v);
    EverywhereMeans(v, NoMapping);
    if HoldsMapping(v) {
      var path :| ValueAt(v, path).Some? && !NoMapping(ValueAt(v, path).value);
      assert ValueAt(v, path).value.Obj?;
    } else {
      forall path | ValueAt(v, path).Some? ensures !ValueAt(v, path).value.Obj? {
        assert NoMapping(ValueAt(v, path).value);
      }
    }
  }

  lemma {:induction false} NoMappings(v: Json)
    ensures HoldsMapping(v) <==> !Everywhere(v, NoMapping)
  {
    if v.Arr? {
      forall item | item in v.items { NoMappings(item); }
    }
  }

  lemma {:induction false} Secrets(v: Json, env: Platform)
    ensures HasSecretKey(v, env) <==> !Everywhere(v, x => NoSecretName(x, env))
    decreases v
  {
    hide IsSecretKey;
    match v
    case Arr(items) => forall item | item in items { Secrets(item, env); }
    case Obj(members) => forall m | m in members { Secrets(m.value, env); }
    case _ =>
  }

  /** Nesting is the length of the longest path. */
  lemma {:induction false} ShallowMeans(v: Json, room: int)
    ensures Shallow(v, room) <==> NoDeeper(v, room)
  {
    if Shallow(v, room) {
      forall path | ValueAt(v, path).Some? ensures |path| <= room { ShallowBounds(v, room, path); }
    } else {
      var path := TooDeep(v, room);
    }
  }

  lemma {:induction false} ShallowBounds(v: Json, room: int, path: seq<nat>)
    requires Shallow(v, room) && ValueAt(v, path).Some?
    ensures |path| <= room
    decreases |path|
  {
    if |path| > 0 {
      var inner := Inside(v)[path[0]];
      assert v.Arr? ==> inner == v.items[path[0]] && inner in v.items;
      assert v.Obj? ==> v.members[path[0]] in v.members && inner == v.members[path[0]].value;
      ShallowBounds(inner, room - 1, path[1..]);
    }
  }

  lemma {:induction false} TooDeep(v: Json, room: int) returns (path: seq<nat>)
    requires !Shallow(v, room)
    ensures ValueAt(v, path).Some? && |path| > room
    decreases v
  {
    path := [];
    if room >= 0 {
      var k: nat, below;
      match v {
        case Arr(items) =>
          k :| k < |items| && !Shallow(items[k], room - 1);
          below := TooDeep(items[k], room - 1);
        case Obj(members) =>
          k :| k < |members| && !Shallow(members[k].value, room - 1);
          below := TooDeep(members[k].value, room - 1);
      }
      Under(v, k, below);
      path := [k] + below;
    }
  }

  // ---------- size

  predicate Apart<T(==)>(xs: seq<T>)
  {
    forall i, j :: 0 <= i < j < |xs| ==> xs[i] != xs[j]
  }

  /** The size of a value is the number of its paths. */
  lemma {:induction false} NodesMeans(v: Json) returns (paths: seq<seq<nat>>)
    ensures Apart(paths) && |paths| == Nodes(v)
    ensures forall path :: path in paths <==> ValueAt(v, path).Some?
    decreases v, 1
  {
    var below := PathsBelow(v, |Inside(v)|);
    NodesInside(v);
    paths := [[]] + below;
    forall path ensures path in paths <==> ValueAt(v, path).Some? {
      assert path in paths <==> path == [] || path in below;
    }
  }

  lemma {:induction false} NodesInside(v: Json)
    ensures Nodes(v) == 1 + NodesBefore(Inside(v), |Inside(v)|)
  {
    match v
    case Arr(items) => NodesBeforeItems(items, 0);
    case Obj(members) => NodesBeforeMembers(members, 0);
    case _ =>
  }

  function NodesBefore(values: seq<Json>, n: nat): nat
    requires n <= |values|
  {
    if n == 0 then 0 else NodesBefore(values, n - 1) + Nodes(values[n - 1])
  }

  lemma {:induction false} NodesBeforeItems(items: seq<Json>, n: nat)
    requires n <= |items|
    ensures NodesBefore(items, |items|) == NodesBefore(items, n) + NodesOfItems(items[n..])
    decreases |items| - n
  {
    hide Nodes;
    if n < |items| {
      NodesBeforeItems(items, n + 1);
      assert items[n..][1..] == items[n + 1..];
    }
  }

  lemma {:induction false} NodesBeforeMembers(members: seq<Member>, n: nat)
    requires n <= |members|
    ensures var values := Inside(Obj(members));
            NodesBefore(values, |values|) == NodesBefore(values, n) + NodesOfMembers(members[n..])
    decreases |members| - n
  {
    hide Nodes;
    if n < |members| {
      NodesBeforeMembers(members, n + 1);
      assert members[n..][1..] == members[n + 1..];
    }
  }

  /** The paths through value `k` inside. */
  lemma PathsThrough(v: Json, k: nat, found: seq<seq<nat>>) returns (below: seq<seq<nat>>)
    requires k < |Inside(v)| && Apart(found)
    requires forall path :: path in found <==> ValueAt(Inside(v)[k], path).Some?
    ensures Apart(below) && |below| == |found|
    ensures forall path :: path in below <==> |path| > 0 && path[0] == k && ValueAt(v, path).Some?
  {
    below := seq(|found|, i requires 0 <= i < |found| => [k] + found[i]);
    forall i, j | 0 <= i < j < |below| ensures below[i] != below[j] {
      assert below[i][1..] == found[i] && below[j][1..] == found[j];
    }
    forall path ensures path in below <==> |path| > 0 && path[0] == k && ValueAt(v, path).Some? {
      if |path| > 0 && path[0] == k && ValueAt(v, path).Some? {
        assert path[1..] in found;
        var i :| 0 <= i < |found| && found[i] == path[1..];
        assert below[i] == path;
      }
      if path in below {
        var i :| 0 <= i < |below| && below[i] == path;
        assert found[i] in found && path[1..] == found[i];
      }
    }
  }

  /** The paths through the first `n` values inside. */
  lemma {:induction false} PathsBelow(v: Json, n: nat) returns (paths: seq<seq<nat>>)
    requires n <= |Inside(v)|
    ensures Apart(paths) && |paths| == NodesBefore(Inside(v), n)
    ensures forall path :: path in paths <==> |path| > 0 && path[0] < n && ValueAt(v, path).Some?
    decreases v, 0, n
  {
    hide Nodes;
    paths := [];
    if n > 0 {
      var before := PathsBelow(v, n - 1);
      var k := n - 1;
      var inner := Inside(v)[k];
      assert v.Obj? ==> inner == v.members[k].value;
      var found := NodesMeans(inner);
      var below := PathsThrough(v, k, found);
      forall i, j | 0 <= i < |before| && 0 <= j < |below| ensures before[i] != below[j] {
        assert before[i] in before;
      }
      paths := before + below;
    }
  }

  // ---------- together

  /** Attributes and bodies are within the limits exactly when they are this small, this flat, and fully named. */
  lemma ValidJsonMeans(v: Json)
    ensures ValidJson(v) <==>
              Nodes(v) <= 500_000 && NoDeeper(v, 32) && OnPaths(v, NotInfinite) && OnPaths(v, NamesGiven)
  {
    hide Nodes, OnPaths, NoDeeper;
    Checks(v);
    ShallowMeans(v, 32);
    EverywhereMeans(v, NotInfinite);
    EverywhereMeans(v, NamesGiven);
  }

  /** Metadata is accepted exactly when it is this small, this flat, and holds no infinity and no secret's name. */
  lemma FreezableMeans(v: Json, env: Platform)
    ensures Freezable(v, env) <==>
              && Nodes(v) <= 50_000 && NoDeeper(v, 32) && OnPaths(v, NotInfinite)
              && OnPaths(v, x => NoSecretName(x, env))
  {
    hide Nodes, OnPaths, NoDeeper;
    Checks(v);
    Secrets(v, env);
    ShallowMeans(v, 32);
    EverywhereMeans(v, NotInfinite);
    EverywhereMeans(v, x => NoSecretName(x, env));
  }

  /** The words that mark a secret at the end of a name. */
  predicate SecretWord(w: string)
  {
    w in {"password", "passwd", "secret", "token", "apikey", "privatekey", "clientsecret", "accesskey",
          "authorization", "credential", "credentials"}
  }

  /** A name is a secret's when its letters and digits, case folded, end with such a word or are one of four more. */
  lemma SecretKeyMeans(key: string, env: Platform)
    ensures var n := KeepLowerAlnum(env.casefold(key));
            IsSecretKey(key, env) <==>
              || n in {"accesskeyid", "secretaccesskey", "cookie", "setcookie"}
              || exists w, before :: SecretWord(w) && n == before + w
  {
    var n := KeepLowerAlnum(env.casefold(key));
    assert forall w :: w in SECRET_SUFFIXES <==> SecretWord(w);
    assert forall w :: w in SECRET_KEYS ==>
      SecretWord(w) || w in {"accesskeyid", "secretaccesskey", "cookie", "setcookie"};
    assert "accesskeyid" in SECRET_KEYS && "secretaccesskey" in SECRET_KEYS && "cookie" in SECRET_KEYS
           && "setcookie" in SECRET_KEYS;
    assert "" + n == n;
    forall w ensures EndsWith(n, w) <==> exists before :: n == before + w {
      if EndsWith(n, w) { assert n == n[..|n| - |w|] + w; }
    }
    hide SecretWord, EndsWith, KeepLowerAlnum;
  }

  /** Small letters and digits are kept, wherever they stand, and nothing else is. */
  lemma {:induction false} KeptMeans(before: string, c: char, after: string)
    ensures KeepLowerAlnum(before + [c] + after) ==
              KeepLowerAlnum(before) + (if 'a' <= c <= 'z' || '0' <= c <= '9' then [c] else "") + KeepLowerAlnum(after)
    ensures KeepLowerAlnum("") == ""
    decreases |before|
  {
    var s := before + [c] + after;
    if |before| == 0 {
      assert s[1..] == after;
    } else {
      KeptMeans(before[1..], c, after);
      assert s[1..] == before[1..] + [c] + after;
    }
  }
}
