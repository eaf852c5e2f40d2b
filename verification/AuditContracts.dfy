/**
 * Contracts shared by the audit modules: limits, canonical bytes, and the checks on text,
 * identifiers, references, digests and metadata. Library behaviour that the checks only pass
 * through is a parameter, the `Platform`.
 */
module AuditContracts {
  import opened Prelude
  import opened Json
  import opened JsonProofs
  import Utf8

  const MAX_EVENT_BYTES := 1024 * 1024
  const MAX_LEDGER_BYTES := 64 * 1024 * 1024
  const MAX_EVENTS := 100_000
  const MAX_JSON_DEPTH := 32
  const MAX_JSON_NODES := 50_000

  /**
   * The uninterpreted library functions: the SHA-256 hex digest, ISO-8601 parsing with UTC
   * normalization, str.casefold, the repr of a float lexeme, and str() of other JSON values.
   */
  datatype Platform = Platform(
    sha256: Bytes -> string,
    timestamp: string -> Option<string>,
    casefold: string -> string,
    floatRepr: FloatRepr,
    str: Json -> string)

  /** What the round trips need of the library: digests are hexadecimal, normalizers idempotent. */
  ghost predicate Lawful(env: Platform)
  {
    && (forall b: Bytes :: IsHex(env.sha256(b), 64))
    && (forall s: string, t: string :: env.timestamp(s) == Some(t) ==> ValidText(t, 128) && env.timestamp(t) == Some(t))
    && (forall s: string :: IsCommit(s) ==> env.casefold(s) == s)
    && ReprLaw(env.floatRepr)
  }

  function Digest(b: Bytes, env: Platform): string
  {
    "sha256:" + env.sha256(b)
  }

  function ZeroHash(): string
  {
    "sha256:" + seq(64, _ => '0')
  }

  /** Canonical JSON bytes, or None when the value holds something JSON text cannot express. */
  function CanonicalBytes(v: Json): Option<Bytes>
  {
    if Encodable(v) then Some(Utf8.Encode(Dumps(v))) else None
  }

  /** json.loads(content.decode("utf-8")). */
  function LoadBytes(content: Bytes, env: Platform): Option<Json>
  {
    var text := Utf8.Decode(content);
    if text.None? then None else Loads(text.value, env.floatRepr)
  }

  // ---------- text

  /** The characters str.strip removes. */
  predicate IsPySpace(c: char)
  {
    var v := c as int;
    || 0x09 <= v <= 0x0D || 0x1C <= v <= 0x20 || v == 0x85 || v == 0xA0 || v == 0x1680
    || 0x2000 <= v <= 0x200A || v == 0x2028 || v == 0x2029 || v == 0x202F || v == 0x205F || v == 0x3000
  }

  function Strip(s: string): string
  {
    if |s| > 0 && IsPySpace(s[0]) then Strip(s[1..])
    else if |s| > 0 && IsPySpace(s[|s| - 1]) then Strip(s[..|s| - 1])
    else s
  }

  predicate ValidText(s: string, maximum: nat)
  {
    && |s| > 0 && Strip(s) == s && |Utf8.Encode(s)| <= maximum
    && forall c <- s :: (c >= ' ' || c == '\t') && c as int != 0x7F
  }

  predicate OptionalText(s: Option<string>, maximum: nat)
  {
    s.Some? ==> ValidText(s.value, maximum)
  }

  predicate IsLower(c: char) { 'a' <= c <= 'z' }

  predicate IsAlnum(c: char) { IsLower(c) || 'A' <= c <= 'Z' || IsDigit(c) }

  predicate IsHex(s: string, length: nat)
  {
    |s| == length && forall c <- s :: IsDigit(c) || 'a' <= c <= 'f'
  }

  predicate IsSha256(s: string)
  {
    |s| == 71 && s[..7] == "sha256:" && IsHex(s[7..], 64)
  }

  predicate IsCommit(s: string)
  {
    IsHex(s, 40) || IsHex(s, 64)
  }

  predicate SimpleId(s: string)
  {
    && ValidText(s, 256) && |s| <= 256 && IsAlnum(s[0])
    && forall c <- s[1..] :: IsAlnum(c) || c in "._:@+-"
  }

  predicate OptionalId(s: Option<string>)
  {
    s.Some? ==> SimpleId(s.value)
  }

  predicate ActionKind(s: string)
  {
    1 <= |s| <= 128 && IsLower(s[0]) && forall c <- s[1..] :: IsLower(c) || IsDigit(c) || c in "._-"
  }

  predicate FeatureId(s: string)
  {
    1 <= |s| <= 128 && IsAlnum(s[0]) && forall c <- s[1..] :: IsAlnum(c) || c in "._-"
  }

  /** text.split(separator). */
  function Split(s: string, separator: char): (parts: seq<string>)
    ensures |parts| >= 1
  {
    if |s| == 0 then [""]
    else
      var rest := Split(s[1..], separator);
      if s[0] == separator then [""] + rest else [[s[0]] + rest[0]] + rest[1..]
  }

  predicate Reference(s: string)
  {
    && ValidText(s, 512) && '\\' !in s && 0 as char !in s && s[0] != '/'
    && !(|s| > 1 && s[1] == ':' && IsAlnum(s[0]) && !IsDigit(s[0]))
    && forall part <- Split(s, '/') :: part !in ["", ".", ".."]
  }

  function Timestamp(s: string, env: Platform): Option<string>
  {
    if ValidText(s, 128) then env.timestamp(s) else None
  }

  /** A Git commit is lower-cased before it is checked. */
  function GitCommit(s: string, env: Platform): Option<string>
  {
    if ValidText(s, 64) && IsCommit(env.casefold(s)) then Some(env.casefold(s)) else None
  }

  lemma FeatureIdIsStripped(s: string)
    requires FeatureId(s)
    ensures Strip(s) == s
  {
    if |s| > 1 {
      assert s[|s| - 1] == s[1..][|s| - 2];
      assert s[|s| - 1] in s[1..];
    }
  }

  lemma {:induction false} AsciiEncodesShort(s: string)
    requires forall c <- s :: c as int < 0x80
    ensures |Utf8.Encode(s)| == |s|
  {
    if |s| > 0 {
      assert s[0] in s && forall c <- s[1..] :: c in s;
      AsciiEncodesShort(s[1..]);
    }
  }

  /** A normalized commit is a fixed point of the normalizer. */
  lemma GitCommitIdempotent(s: string, env: Platform)
    requires Lawful(env) && GitCommit(s, env).Some?
    ensures var t := GitCommit(s, env).value; GitCommit(t, env) == Some(t)
  {
    var t := env.casefold(s);
    AsciiEncodesShort(t);
    assert t[0] in t && t[|t| - 1] in t;
  }

  // ---------- metadata

  const SECRET_SUFFIXES := [
    "password", "passwd", "secret", "token", "apikey", "privatekey", "clientsecret",
    "accesskey", "authorization", "credential", "credentials"]

  const SECRET_KEYS := [
    "password", "passwd", "secret", "token", "apikey", "privatekey", "clientsecret", "accesskey",
    "accesskeyid", "secretaccesskey", "authorization", "credential", "credentials", "cookie", "setcookie"]

  function KeepLowerAlnum(s: string): string
  {
    if |s| == 0 then ""
    else (if IsLower(s[0]) || IsDigit(s[0]) then [s[0]] else "") + KeepLowerAlnum(s[1..])
  }

  predicate EndsWith(s: string, suffix: string)
  {
    |suffix| <= |s| && s[|s| - |suffix|..] == suffix
  }

  predicate IsSecretKey(key: string, env: Platform)
  {
    var normalized := KeepLowerAlnum(env.casefold(key));
    normalized in SECRET_KEYS || exists suffix <- SECRET_SUFFIXES :: EndsWith(normalized, suffix)
  }

  /** The number of values in `v`, itself included. */
  function Nodes(v: Json): (n: nat)
    ensures n >= 1
    decreases v, 1
  {
    match v
    case Arr(items) => 1 + NodesOfItems(items)
    case Obj(members) => 1 + NodesOfMembers(members)
    case _ => 1
  }

  function NodesOfItems(items: seq<Json>): nat
    decreases items, 0
  {
    if |items| == 0 then 0 else Nodes(items[0]) + NodesOfItems(items[1..])
  }

  function NodesOfMembers(ms: seq<Member>): nat
    decreases ms, 0
  {
    if |ms| == 0 then 0 else Nodes(ms[0].value) + NodesOfMembers(ms[1..])
  }

  /** Nothing in `v` sits deeper than `room` levels below it. */
  predicate Shallow(v: Json, room: int)
  {
    room >= 0 &&
    match v
    case Arr(items) => forall item <- items :: Shallow(item, room - 1)
    case Obj(members) => forall m <- members :: Shallow(m.value, room - 1)
    case _ => true
  }

  predicate HasSecretKey(v: Json, env: Platform)
  {
    match v
    case Arr(items) => exists item <- items :: HasSecretKey(item, env)
    case Obj(members) => exists m <- members :: IsSecretKey(m.key, env) || HasSecretKey(m.value, env)
    case _ => false
  }

  predicate Finite(v: Json)
  {
    match v
    case NonFinite => false
    case Arr(items) => forall item <- items :: Finite(item)
    case Obj(members) => forall m <- members :: Finite(m.value)
    case _ => true
  }

  /** What metadata may hold wherever it is found, the shared node budget aside. */
  predicate Clean(v: Json, depth: nat, env: Platform)
  {
    Shallow(v, MAX_JSON_DEPTH - depth) && !HasSecretKey(v, env) && Finite(v)
  }

  predicate Freezable(v: Json, env: Platform)
  {
    Clean(v, 0, env) && Nodes(v) <= MAX_JSON_NODES
  }

  /** The budget one freeze shares between all its recursive calls. */
  class NodeCounter {
    var count: nat

    constructor ()
      ensures count == 0
    {
      count := 0;
    }
  }

  /**
   * Freezing succeeds exactly on clean values that fit the remaining budget, and returns them
   * unchanged; what the order of the checks is does not show.
   */
  method FreezeJson(v: Json, depth: nat, counter: NodeCounter, env: Platform) returns (frozen: Option<Json>)
    modifies counter
    ensures frozen.Some? <==> Clean(v, depth, env) && old(counter.count) + Nodes(v) <= MAX_JSON_NODES
    ensures frozen.Some? ==> frozen.value == v && counter.count == old(counter.count) + Nodes(v)
    decreases v, 1
  {
    counter.count := counter.count + 1;
    if counter.count > MAX_JSON_NODES {
      return None;
    }
    if depth > MAX_JSON_DEPTH {
      return None;
    }
    match v
    case NonFinite => return None;
    case Arr(items) =>
      var parts := FreezeItems(items, depth + 1, counter, env);
      return if parts.Some? then Some(Arr(parts.value)) else None;
    case Obj(members) =>
      var parts := FreezeMembers(members, depth + 1, counter, env);
      return if parts.Some? then Some(Obj(parts.value)) else None;
    case _ => return Some(v);
  }

  method FreezeItems(items: seq<Json>, depth: nat, counter: NodeCounter, env: Platform)
    returns (frozen: Option<seq<Json>>)
    modifies counter
    ensures frozen.Some? <==>
              (forall item <- items :: Clean(item, depth, env)) &&
              (|items| > 0 ==> old(counter.count) + NodesOfItems(items) <= MAX_JSON_NODES)
    ensures frozen.Some? ==> frozen.value == items && counter.count == old(counter.count) + NodesOfItems(items)
    decreases items, 0
  {
    if |items| == 0 {
      return Some([]);
    }
    var first := FreezeJson(items[0], depth, counter, env);
    if first.None? {
      return None;
    }
    var rest := FreezeItems(items[1..], depth, counter, env);
    assert items == [items[0]] + items[1..];
    return if rest.Some? then Some([first.value] + rest.value) else None;
  }

  method FreezeMembers(ms: seq<Member>, depth: nat, counter: NodeCounter, env: Platform)
    returns (frozen: Option<seq<Member>>)
    modifies counter
    ensures frozen.Some? <==>
              (forall m <- ms :: !IsSecretKey(m.key, env) && Clean(m.value, depth, env)) &&
              (|ms| > 0 ==> old(counter.count) + NodesOfMembers(ms) <= MAX_JSON_NODES)
    ensures frozen.Some? ==> frozen.value == ms && counter.count == old(counter.count) + NodesOfMembers(ms)
    decreases ms, 0
  {
    if |ms| == 0 {
      return Some([]);
    }
    if IsSecretKey(ms[0].key, env) {
      return None;
    }
    var first := FreezeJson(ms[0].value, depth, counter, env);
    if first.None? {
      return None;
    }
    var rest := FreezeMembers(ms[1..], depth, counter, env);
    assert ms == [ms[0]] + ms[1..];
    return if rest.Some? then Some([Member(ms[0].key, first.value)] + rest.value) else None;
  }

  // ---------- canonical bytes of a value

  lemma WellFormedEncodable(v: Json, fr: FloatRepr)
    requires WellFormed(v, fr)
    ensures Encodable(v)
  {
  }

  /** Reading canonical bytes gives the value back. */
  lemma LoadCanonical(v: Json, env: Platform)
    requires WellFormed(v, env.floatRepr)
    ensures CanonicalBytes(v).Some? && LoadBytes(CanonicalBytes(v).value, env) == Some(v)
  {
    WellFormedEncodable(v, env.floatRepr);
    Utf8.DecodeEncode(Dumps(v));
    LoadsDumps(v, env.floatRepr);
  }

  /** Canonical bytes hold no LF. */
  lemma CanonicalHasNoLF(v: Json, env: Platform)
    requires WellFormed(v, env.floatRepr)
    ensures CanonicalBytes(v).Some? && LF !in CanonicalBytes(v).value && |CanonicalBytes(v).value| > 0
  {
    WellFormedEncodable(v, env.floatRepr);
    DumpsHasNoNewline(v, env.floatRepr);
    Utf8.EncodeHasNoLF(Dumps(v));
    DumpsStart(v, env.floatRepr);
    Utf8.EncodeLength(Dumps(v));
  }

  /** A torn canonical object is not valid JSON, at whichever byte it was torn. */
  lemma TornCanonical(v: Json, k: nat, env: Platform)
    requires v.Obj? && WellFormed(v, env.floatRepr)
    requires CanonicalBytes(v).Some? && k < |CanonicalBytes(v).value|
    ensures LoadBytes(CanonicalBytes(v).value[..k], env).None?
  {
    Utf8.DecodeTorn(Dumps(v), k);
    var text := Utf8.Decode(CanonicalBytes(v).value[..k]);
    if text.Some? {
      TornObject(v, text.value, env.floatRepr);
    }
  }
}
