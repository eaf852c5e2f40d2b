/** Strict UTF-8 (RFC 3629): the codec between the text of a record and its bytes on disk. */
module Utf8 {
  import opened Prelude

  function EncodeChar(c: char): (b: Bytes)
    ensures 1 <= |b| <= 4
  {
    var v := c as int;
    if v < 0x80 then [v]
    else if v < 0x800 then [0xC0 + v / 64, 0x80 + v % 64]
    else if v < 0x10000 then [0xE0 + v / 4096, 0x80 + v / 64 % 64, 0x80 + v % 64]
    else [0xF0 + v / 262144, 0x80 + v / 4096 % 64, 0x80 + v / 64 % 64, 0x80 + v % 64]
  }

  function Encode(text: string): Bytes
  {
    if |text| == 0 then [] else EncodeChar(text[0]) + Encode(text[1..])
  }

  predicate Continuation(b: Bytes, i: nat)
  {
    i < |b| && 0x80 <= b[i] < 0xC0
  }

  datatype Scalar = Scalar(c: char, width: nat)

  /** The six payload bits of a continuation byte. */
  function Payload(b: Bytes, i: nat): int
    requires i < |b|
  {
    var byte: int := b[i];
    byte - 0x80
  }

  /** The first scalar value of `b`; overlong forms, surrogates and short sequences are errors. */
  function FirstScalar(b: Bytes): (r: Option<Scalar>)
    ensures r.Some? ==> 1 <= r.value.width <= |b|
  {
    if |b| == 0 then None
    else
      var lead: int := b[0];
      if lead < 0x80 then Some(Scalar(lead as char, 1))
      else if 0xC2 <= lead < 0xE0 && Continuation(b, 1) then
        Some(Scalar(((lead - 0xC0) * 64 + Payload(b, 1)) as char, 2))
      else if 0xE0 <= lead < 0xF0 && Continuation(b, 1) && Continuation(b, 2) then
        var v := (lead - 0xE0) * 4096 + Payload(b, 1) * 64 + Payload(b, 2);
        if v < 0x800 || 0xD800 <= v < 0xE000 then None else Some(Scalar(v as char, 3))
      else if 0xF0 <= lead < 0xF5 && Continuation(b, 1) && Continuation(b, 2) && Continuation(b, 3) then
        var v := (lead - 0xF0) * 262144 + Payload(b, 1) * 4096 + Payload(b, 2) * 64 + Payload(b, 3);
        if v < 0x10000 || 0x110000 <= v then None else Some(Scalar(v as char, 4))
      else None
  }

  function Decode(b: Bytes): Option<string>
  {
    if |b| == 0 then Some("")
    else
      var first := FirstScalar(b);
      if first.None? then None
      else
        var rest := Decode(b[first.value.width..]);
        if rest.None? then None else Some([first.value.c] + rest.value)
  }

  lemma SixBitDigits(v: nat)
    ensures v == v / 64 * 64 + v % 64
    ensures v / 64 == v / 4096 * 64 + v / 64 % 64
    ensures v / 4096 == v / 262144 * 64 + v / 4096 % 64
  {
  }

  lemma FirstScalarOfEncoded(c: char, rest: Bytes)
    ensures FirstScalar(EncodeChar(c) + rest) == Some(Scalar(c, |EncodeChar(c)|))
  {
    var v := c as int;
    var b := EncodeChar(c) + rest;
    forall i: nat | i < |EncodeChar(c)| ensures b[i] == EncodeChar(c)[i] {}
    SixBitDigits(v);
    if v < 0x80 {
      assert b[0] == v;
    } else if v < 0x800 {
      assert b[0] == 0xC0 + v / 64 && b[1] == 0x80 + v % 64;
    } else if v < 0x10000 {
      assert b[0] == 0xE0 + v / 4096 && b[1] == 0x80 + v / 64 % 64 && b[2] == 0x80 + v % 64;
      assert v == v / 4096 * 4096 + v / 64 % 64 * 64 + v % 64;
    } else {
      assert b[0] == 0xF0 + v / 262144 && b[1] == 0x80 + v / 4096 % 64;
      assert b[2] == 0x80 + v / 64 % 64 && b[3] == 0x80 + v % 64;
      assert v == v / 262144 * 262144 + v / 4096 % 64 * 4096 + v / 64 % 64 * 64 + v % 64;
    }
  }

  /** Decoding undoes encoding. */
  lemma {:induction false} DecodeEncode(text: string)
    ensures Decode(Encode(text)) == Some(text)
  {
    if |text| > 0 {
      DecodeEncode(text[1..]);
      FirstScalarOfEncoded(text[0], Encode(text[1..]));
      assert Encode(text)[|EncodeChar(text[0])|..] == Encode(text[1..]);
      assert [text[0]] + text[1..] == text;
    }
  }

  /** Bytes that decode keep their text when more bytes follow. */
  lemma {:induction false} DecodeConcat(p: Bytes, q: Bytes)
    requires Decode(p).Some?
    ensures Decode(q).None? ==> Decode(p + q).None?
    ensures Decode(q).Some? ==> Decode(p + q) == Some(Decode(p).value + Decode(q).value)
  {
    if |p| == 0 {
      assert p + q == q;
      assert Decode(q).Some? ==> "" + Decode(q).value == Decode(q).value;
    } else {
      var first := FirstScalar(p).value;
      assert FirstScalar(p + q) == Some(first);
      assert (p + q)[first.width..] == p[first.width..] + q;
      DecodeConcat(p[first.width..], q);
      var rest := Decode(p[first.width..]).value;
      assert Decode(q).Some? ==> [first.c] + (rest + Decode(q).value) == ([first.c] + rest) + Decode(q).value;
    }
  }

  /** A torn encoding either does not decode or decodes to a proper prefix of the text. */
  lemma DecodeTorn(text: string, k: nat)
    requires k < |Encode(text)|
    ensures var torn := Decode(Encode(text)[..k]);
            torn.Some? ==> torn.value <= text && |torn.value| < |text|
  {
    var p, q := Encode(text)[..k], Encode(text)[k..];
    if Decode(p).Some? {
      DecodeEncode(text);
      assert p + q == Encode(text);
      DecodeConcat(p, q);
      assert Decode(q).Some? ==> |Decode(q).value| > 0;
    }
  }

  lemma {:induction false} EncodeConcat(s: string, t: string)
    ensures Encode(s + t) == Encode(s) + Encode(t)
  {
    hide EncodeChar;
    if |s| == 0 {
      assert s + t == t;
    } else {
      EncodeConcat(s[1..], t);
      assert (s + t)[1..] == s[1..] + t;
      var first := EncodeChar(s[0]);
      assert first + (Encode(s[1..]) + Encode(t)) == (first + Encode(s[1..])) + Encode(t);
    }
  }

  /** Only a newline encodes to an LF byte. */
  lemma {:induction false} EncodeHasNoLF(text: string)
    requires '\n' !in text
    ensures LF !in Encode(text)
  {
    if |text| > 0 {
      assert text[0] in text && text[0] as int != 10;
      assert LF !in EncodeChar(text[0]);
      EncodeHasNoLF(text[1..]);
    }
  }

  lemma {:induction false} EncodeLength(text: string)
    ensures |Encode(text)| >= |text|
  {
    if |text| > 0 {
      EncodeLength(text[1..]);
    }
  }

  /** Different texts have different encodings. */
  lemma EncodeInjective(s: string, t: string)
    requires Encode(s) == Encode(t)
    ensures s == t
  {
    DecodeEncode(s);
    DecodeEncode(t);
  }
}
