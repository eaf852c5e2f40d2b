/**
 * JSON as the audit modules use it: Python's json.loads on one side and canonical
 * json.dumps (sorted keys, no whitespace, no ASCII escaping, no NaN) on the other.
 * Parsers work on an index into the text, as Python's scanner does.
 */
module Json {
  import opened Prelude

  /**
   * A Python value that json.loads returns. An object lists its members by increasing key,
   * so equal dictionaries are equal values. A finite float is its repr. `NonFinite` stands for
   * NaN and the infinities, `Unencodable` for a string holding a lone surrogate (or an object
   * with such a key): json.loads accepts both, canonical encoding refuses both.
   */
  datatype Json =
    | Null
    | Bool(b: bool)
    | Int(i: int)
    | Float(repr: string)
    | NonFinite
    | Str(s: string)
    | Unencodable
    | Arr(items: seq<Json>)
    | Obj(members: seq<Member>)

  datatype Member = Member(key: string, value: Json)

  /** repr(float(lexeme)), or None when the float is infinite; left uninterpreted. */
  type FloatRepr = string -> Option<string>

  // ---------- key order

  /** Code point order on strings, as sort_keys uses it. */
  predicate Less(a: string, b: string)
  {
    |b| > 0 && (|a| == 0 || a[0] < b[0] || (a[0] == b[0] && Less(a[1..], b[1..])))
  }

  /** Adjacent keys strictly increase. */
  predicate Sorted(ms: seq<Member>)
  {
    forall j :: 0 < j < |ms| ==> Less(ms[j - 1].key, ms[j].key)
  }

  predicate HasKey(ms: seq<Member>, key: string)
  {
    exists m <- ms :: m.key == key
  }

  /** A member parsed before `rest`: a later duplicate of its key wins. */
  function AddEarlier(m: Member, rest: seq<Member>): seq<Member>
  {
    if HasKey(rest, m.key) then rest
    else if |rest| == 0 || Less(m.key, rest[0].key) then [m] + rest
    else [rest[0]] + AddEarlier(m, rest[1..])
  }

  // ---------- decimal integers

  predicate IsDigit(c: char)
  {
    '0' <= c <= '9'
  }

  function DigitValue(c: char): nat
    requires IsDigit(c)
  {
    c as int - '0' as int
  }

  function Decimal(n: nat): (s: string)
    ensures |s| > 0
    ensures forall c <- s :: IsDigit(c)
  {
    var last := ['0' + (n % 10) as char];
    if n < 10 then last else Decimal(n / 10) + last
  }

  function DecimalInt(i: int): string
  {
    if i < 0 then "-" + Decimal(-i) else Decimal(i)
  }

  function DigitsValue(s: string): nat
    requires forall c <- s :: IsDigit(c)
  {
    if |s| == 0 then 0 else 10 * DigitsValue(s[..|s| - 1]) + DigitValue(s[|s| - 1])
  }

  // ---------- canonical text

  function HexDigit(n: nat): char
    requires n < 16
  {
    if n < 10 then '0' + n as char else 'a' + (n - 10) as char
  }

  function EscapeChar(c: char): (s: string)
    ensures |s| > 0
  {
    if c == '"' then "\\\""
    else if c == '\\' then "\\\\"
    else if c == '\n' then "\\n"
    else if c == '\r' then "\\r"
    else if c == '\t' then "\\t"
    else if c as int == 8 then "\\b"
    else if c as int == 12 then "\\f"
    else if c < ' ' then "\\u00" + [HexDigit(c as int / 16), HexDigit(c as int % 16)]
    else [c]
  }

  function Escape(text: string): string
  {
    if |text| == 0 then "" else EscapeChar(text[0]) + Escape(text[1..])
  }

  function Quote(text: string): string
  {
    "\"" + Escape(text) + "\""
  }

  /** json.dumps(v, sort_keys=True, separators=(",", ":"), ensure_ascii=False). */
  function Dumps(v: Json): string
    decreases v, 1
  {
    match v
    case Null => "null"
    case Bool(b) => if b then "true" else "false"
    case Int(i) => DecimalInt(i)
    case Float(repr) => repr
    case NonFinite => ""
    case Str(s) => Quote(s)
    case Unencodable => ""
    case Arr(items) => "[" + DumpItems(items) + "]"
    case Obj(members) => "{" + DumpMembers(members) + "}"
  }

  function DumpItems(items: seq<Json>): string
    decreases items, 0
  {
    if |items| == 0 then ""
    else if |items| == 1 then Dumps(items[0])
    else Dumps(items[0]) + "," + DumpItems(items[1..])
  }

  function DumpMember(m: Member): string
    decreases m, 2
  {
    Quote(m.key) + ":" + Dumps(m.value)
  }

  function DumpMembers(ms: seq<Member>): string
    decreases ms, 0
  {
    if |ms| == 0 then ""
    else if |ms| == 1 then DumpMember(ms[0])
    else DumpMember(ms[0]) + "," + DumpMembers(ms[1..])
  }

  /** What canonical encoding accepts: no NonFinite and no Unencodable inside. */
  predicate Encodable(v: Json)
  {
    match v
    case NonFinite => false
    case Unencodable => false
    case Arr(items) => forall item <- items :: Encodable(item)
    case Obj(members) => forall m <- members :: Encodable(m.value)
    case _ => true
  }

  /** Values Python can hold: sorted unique keys, and every float written as its own repr. */
  predicate WellFormed(v: Json, fr: FloatRepr)
  {
    match v
    case Float(repr) => IsFloatRepr(repr, fr)
    case NonFinite => false
    case Unencodable => false
    case Arr(items) => forall item <- items :: WellFormed(item, fr)
    case Obj(members) => Sorted(members) && forall m <- members :: WellFormed(m.value, fr)
    case _ => true
  }

  predicate IsFloatRepr(repr: string, fr: FloatRepr)
  {
    var span := NumberSpan(repr, 0);
    span.Some? && span.value.intEnd < span.value.end == |repr| && fr(repr) == Some(repr)
  }

  // ---------- json.loads

  /** A scanner result: the value and the index after it. */
  datatype Parsed<+T> = Fail | Done(value: T, end: nat)

  predicate IsSpace(c: char)
  {
    c == ' ' || c == '\t' || c == '\n' || c == '\r'
  }

  function SkipSpace(s: string, i: nat): (j: nat)
    requires i <= |s|
    ensures i <= j <= |s|
    ensures j < |s| ==> !IsSpace(s[j])
    decreases |s| - i
  {
    if i < |s| && IsSpace(s[i]) then SkipSpace(s, i + 1) else i
  }

  function DigitsEnd(s: string, i: nat): (j: nat)
    requires i <= |s|
    ensures i <= j <= |s|
    ensures forall k :: i <= k < j ==> IsDigit(s[k])
    ensures j < |s| ==> !IsDigit(s[j])
    decreases |s| - i
  {
    if i < |s| && IsDigit(s[i]) then DigitsEnd(s, i + 1) else i
  }

  /** Where an exponent that starts at `i` ends, or `i` when there is none. */
  function ExponentEnd(s: string, i: nat): (j: nat)
    requires i <= |s|
    ensures i <= j <= |s|
  {
    if i < |s| && (s[i] == 'e' || s[i] == 'E') then
      var d := if i + 1 < |s| && (s[i + 1] == '+' || s[i + 1] == '-') then i + 2 else i + 1;
      if d < |s| && IsDigit(s[d]) then DigitsEnd(s, d) else i
    else i
  }

  /** The extent of a number: its integer part and the whole of it. */
  datatype Span = Span(intEnd: nat, end: nat)

  /** Where the integer part of a number at `i` ends. */
  function IntEnd(s: string, i: nat): (r: Option<nat>)
    requires i <= |s|
    ensures r.Some? ==> i < r.value <= |s|
  {
    var d := if i < |s| && s[i] == '-' then i + 1 else i;
    if d >= |s| || !IsDigit(s[d]) then None
    else Some(if s[d] == '0' then d + 1 else DigitsEnd(s, d))
  }

  /** Where a fraction that starts at `i` ends, or `i` when there is none. */
  function FractionEnd(s: string, i: nat): (j: nat)
    requires i <= |s|
    ensures i <= j <= |s|
  {
    if i + 1 < |s| && s[i] == '.' && IsDigit(s[i + 1]) then DigitsEnd(s, i + 1) else i
  }

  function NumberSpan(s: string, i: nat): (r: Option<Span>)
    requires i <= |s|
    ensures r.Some? ==> i < r.value.intEnd <= r.value.end <= |s|
  {
    var intEnd := IntEnd(s, i);
    if intEnd.None? then None
    else Some(Span(intEnd.value, ExponentEnd(s, FractionEnd(s, intEnd.value))))
  }

  function IntValue(s: string): int
    requires |s| > 0 && forall c <- s[(if s[0] == '-' then 1 else 0)..] :: IsDigit(c)
  {
    if s[0] == '-' then 0 - DigitsValue(s[1..]) else assert s[0..] == s; DigitsValue(s)
  }

  function ParseNumber(s: string, i: nat, fr: FloatRepr): (r: Parsed<Json>)
    requires i <= |s|
    ensures r.Done? ==> i < r.end <= |s|
  {
    var span := NumberSpan(s, i);
    if span.None? then Fail
    else
      var Span(intEnd, end) := span.value;
      if end == intEnd then
        var lexeme := s[i..intEnd];
        assert forall c <- lexeme[(if lexeme[0] == '-' then 1 else 0)..] :: IsDigit(c);
        Done(Int(IntValue(lexeme)), end)
      else
        var repr := fr(s[i..end]);
        Done(if repr.Some? then Float(repr.value) else NonFinite, end)
  }

  /** A Python string: text, or a string in which some surrogate has no partner. */
  datatype PyStr = Text(text: string) | LoneSurrogate

  function Prepend(c: char, r: Parsed<PyStr>): Parsed<PyStr>
  {
    if r.Done? && r.value.Text? then Done(Text([c] + r.value.text), r.end) else r
  }

  function MarkLone(r: Parsed<PyStr>): Parsed<PyStr>
  {
    if r.Done? then Done(LoneSurrogate, r.end) else r
  }

  function HexValue(c: char): Option<nat>
  {
    if '0' <= c <= '9' then Some(c as int - '0' as int)
    else if 'a' <= c <= 'f' then Some(c as int - 'a' as int + 10)
    else if 'A' <= c <= 'F' then Some(c as int - 'A' as int + 10)
    else None
  }

  /** The code unit of four hexadecimal digits at `i`. */
  function Hex4(s: string, i: nat): (r: Option<nat>)
    ensures r.Some? ==> r.value < 0x10000 && i + 4 <= |s|
  {
    if i + 4 > |s| then None
    else
      var a, b, c, d := HexValue(s[i]), HexValue(s[i + 1]), HexValue(s[i + 2]), HexValue(s[i + 3]);
      if a.Some? && b.Some? && c.Some? && d.Some?
      then Some(((a.value * 16 + b.value) * 16 + c.value) * 16 + d.value) else None
  }

  function SimpleEscape(c: char): Option<char>
  {
    if c == '"' || c == '\\' || c == '/' then Some(c)
    else if c == 'n' then Some('\n')
    else if c == 'r' then Some('\r')
    else if c == 't' then Some('\t')
    else if c == 'b' then Some(8 as char)
    else if c == 'f' then Some(12 as char)
    else None
  }

  /** The string whose characters start at `i`, up to and including the closing quote. */
  function ParseChars(s: string, i: nat): (r: Parsed<PyStr>)
    requires i <= |s|
    ensures r.Done? ==> i < r.end <= |s|
    decreases |s| - i
  {
    if i >= |s| then Fail
    else if s[i] == '"' then Done(Text(""), i + 1)
    else if s[i] == '\\' then
      if i + 1 >= |s| then Fail
      else if SimpleEscape(s[i + 1]).Some? then Prepend(SimpleEscape(s[i + 1]).value, ParseChars(s, i + 2))
      else if s[i + 1] == 'u' && Hex4(s, i + 2).Some? then ParseUnicodeEscape(s, i, Hex4(s, i + 2).value)
      else Fail
    else if s[i] < ' ' then Fail
    else Prepend(s[i], ParseChars(s, i + 1))
  }

  /** A \uXXXX escape at `i` with code unit `u`; two escapes may form one character. */
  function ParseUnicodeEscape(s: string, i: nat, u: nat): (r: Parsed<PyStr>)
    requires i + 6 <= |s| && u < 0x10000
    ensures r.Done? ==> i < r.end <= |s|
    decreases |s| - i, 0
  {
    if 0xD800 <= u < 0xDC00 && i + 7 < |s| && s[i + 6] == '\\' && s[i + 7] == 'u' then
      var low := Hex4(s, i + 8);
      if low.None? then Fail
      else if 0xDC00 <= low.value < 0xE000 then
        Prepend((0x10000 + (u - 0xD800) * 1024 + (low.value - 0xDC00)) as char, ParseChars(s, i + 12))
      else MarkLone(ParseChars(s, i + 6))
    else if 0xD800 <= u < 0xE000 then MarkLone(ParseChars(s, i + 6))
    else Prepend(u as char, ParseChars(s, i + 6))
  }

  predicate LooksAt(s: string, i: nat, word: string)
  {
    i + |word| <= |s| && s[i..i + |word|] == word
  }

  function ParseValue(s: string, i: nat, fr: FloatRepr): (r: Parsed<Json>)
    requires i <= |s|
    ensures r.Done? ==> i < r.end <= |s|
    decreases |s| - i, 1
  {
    if i >= |s| then Fail
    else if s[i] == '"' then ParseString(s, i)
    else if s[i] == '{' then ParseObject(s, i, fr)
    else if s[i] == '[' then ParseArray(s, i, fr)
    else ParseScalar(s, i, fr)
  }

  function ParseString(s: string, i: nat): (r: Parsed<Json>)
    requires i < |s|
    ensures r.Done? ==> i < r.end <= |s|
  {
    var chars := ParseChars(s, i + 1);
    if chars.Fail? then Fail
    else Done(if chars.value.Text? then Str(chars.value.text) else Unencodable, chars.end)
  }

  function ParseScalar(s: string, i: nat, fr: FloatRepr): (r: Parsed<Json>)
    requires i <= |s|
    ensures r.Done? ==> i < r.end <= |s|
  {
    if LooksAt(s, i, "null") then Done(Null, i + 4)
    else if LooksAt(s, i, "true") then Done(Bool(true), i + 4)
    else if LooksAt(s, i, "false") then Done(Bool(false), i + 5)
    else if LooksAt(s, i, "NaN") then Done(NonFinite, i + 3)
    else if LooksAt(s, i, "Infinity") then Done(NonFinite, i + 8)
    else if LooksAt(s, i, "-Infinity") then Done(NonFinite, i + 9)
    else ParseNumber(s, i, fr)
  }

  function ParseArray(s: string, i: nat, fr: FloatRepr): (r: Parsed<Json>)
    requires i < |s|
    ensures r.Done? ==> i < r.end <= |s|
    decreases |s| - i, 0
  {
    var j := SkipSpace(s, i + 1);
    if j < |s| && s[j] == ']' then Done(Arr([]), j + 1)
    else
      var items := ParseItems(s, j, fr);
      if items.Fail? then Fail else Done(Arr(items.value), items.end)
  }

  /** An object; one whose key has a lone surrogate has no text to be encoded as. */
  function ParseObject(s: string, i: nat, fr: FloatRepr): (r: Parsed<Json>)
    requires i < |s|
    ensures r.Done? ==> i < r.end <= |s|
    decreases |s| - i, 0
  {
    var j := SkipSpace(s, i + 1);
    if j < |s| && s[j] == '}' then Done(Obj([]), j + 1)
    else
      var ms := ParseMembers(s, j, fr);
      if ms.Fail? then Fail
      else Done(if ms.value.Some? then Obj(ms.value.value) else Unencodable, ms.end)
  }

  /** One or more array items and the closing bracket. */
  function ParseItems(s: string, i: nat, fr: FloatRepr): (r: Parsed<seq<Json>>)
    requires i <= |s|
    ensures r.Done? ==> i < r.end <= |s|
    decreases |s| - i, 3
  {
    var first := ParseValue(s, i, fr);
    if first.Fail? then Fail
    else
      var j := SkipSpace(s, first.end);
      if j >= |s| then Fail
      else if s[j] == ']' then Done([first.value], j + 1)
      else if s[j] != ',' then Fail
      else
        var rest := ParseItems(s, SkipSpace(s, j + 1), fr);
        if rest.Fail? then Fail else Done([first.value] + rest.value, rest.end)
  }

  /** One or more object members and the closing brace; None when some key has a lone surrogate. */
  function ParseMembers(s: string, i: nat, fr: FloatRepr): (r: Parsed<Option<seq<Member>>>)
    requires i <= |s|
    ensures r.Done? ==> i < r.end <= |s|
    decreases |s| - i, 3
  {
    var first := ParseMember(s, i, fr);
    if first.Fail? then Fail
    else
      var j := SkipSpace(s, first.end);
      if j >= |s| then Fail
      else if s[j] == '}' then Done(WithMember(first.value, Some([])), j + 1)
      else if s[j] != ',' then Fail
      else
        var rest := ParseMembers(s, SkipSpace(s, j + 1), fr);
        if rest.Fail? then Fail else Done(WithMember(first.value, rest.value), rest.end)
  }

  /** A key, a colon and a value; None when the key has a lone surrogate. */
  function ParseMember(s: string, i: nat, fr: FloatRepr): (r: Parsed<Option<Member>>)
    requires i <= |s|
    ensures r.Done? ==> i < r.end <= |s|
    decreases |s| - i, 2
  {
    if i >= |s| || s[i] != '"' then Fail
    else
      var key := ParseChars(s, i + 1);
      if key.Fail? then Fail
      else
        var colon := SkipSpace(s, key.end);
        if colon >= |s| || s[colon] != ':' then Fail
        else
          var value := ParseValue(s, SkipSpace(s, colon + 1), fr);
          if value.Fail? then Fail
          else Done(if key.value.Text? then Some(Member(key.value.text, value.value)) else None, value.end)
  }

  function WithMember(m: Option<Member>, rest: Option<seq<Member>>): Option<seq<Member>>
  {
    if m.Some? && rest.Some? then Some(AddEarlier(m.value, rest.value)) else None
  }

  /** json.loads on text: one value with only whitespace around it. */
  function Loads(s: string, fr: FloatRepr): Option<Json>
  {
    var r := ParseValue(s, SkipSpace(s, 0), fr);
    if r.Done? && SkipSpace(s, r.end) == |s| then Some(r.value) else None
  }
}
