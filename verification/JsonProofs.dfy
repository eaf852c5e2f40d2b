/**
 * The JSON laws the ledger rests on: json.loads undoes canonical json.dumps, canonical text
 * holds no newline, and a torn canonical object is never valid JSON.
 */
module JsonProofs {
  import opened Prelude
  import opened Json

  // ---------- a word at a position

  /** The characters of `w` stand in `s` from position `i`. */
  predicate At(s: string, i: nat, w: string)
  {
    i + |w| <= |s| && forall k :: 0 <= k < |w| ==> s[i + k] == w[k]
  }

  lemma AtSplit(s: string, i: nat, a: string, b: string)
    requires At(s, i, a + b)
    ensures At(s, i, a) && At(s, i + |a|, b)
  {
    forall k | 0 <= k < |a| ensures s[i + k] == a[k] { assert (a + b)[k] == a[k]; }
    forall k | 0 <= k < |b| ensures s[i + |a| + k] == b[k] { assert (a + b)[|a| + k] == b[k]; }
  }

  lemma AtSlice(s: string, i: nat, w: string)
    requires At(s, i, w)
    ensures s[i..i + |w|] == w
  {
  }

  /** Characters that can continue a number. */
  predicate NumberChar(c: char)
  {
    IsDigit(c) || c == '.' || c == 'e' || c == 'E' || c == '+' || c == '-'
  }

  predicate Delimited(s: string, i: nat)
  {
    i >= |s| || !NumberChar(s[i])
  }

  // ---------- numbers

  /** Two texts hold the same `m` characters at `i` and `j`, and both are delimited after them. */
  predicate SameWindow(s: string, i: nat, t: string, j: nat, m: nat)
  {
    && i + m <= |s| && j + m <= |t|
    && (forall k :: i <= k < i + m ==> s[k] == t[k - i + j])
    && Delimited(s, i + m) && Delimited(t, j + m)
  }

  lemma {:induction false} DigitsEndLocal(s: string, i: nat, t: string, j: nat, m: nat)
    requires SameWindow(s, i, t, j, m)
    ensures DigitsEnd(s, i) - i == DigitsEnd(t, j) - j <= m
    decreases m
  {
    if m > 0 && IsDigit(s[i]) {
      DigitsEndLocal(s, i + 1, t, j + 1, m - 1);
    }
  }

  lemma ExponentEndLocal(s: string, i: nat, t: string, j: nat, m: nat)
    requires SameWindow(s, i, t, j, m)
    ensures ExponentEnd(s, i) - i == ExponentEnd(t, j) - j <= m
  {
    if m > 0 && (s[i] == 'e' || s[i] == 'E') {
      var d := if i + 1 < |s| && (s[i + 1] == '+' || s[i + 1] == '-') then 2 else 1;
      if d <= m {
        DigitsEndLocal(s, i + d, t, j + d, m - d);
      }
    }
  }

  lemma IntEndLocal(s: string, i: nat, t: string, j: nat, m: nat)
    requires SameWindow(s, i, t, j, m)
    ensures IntEnd(s, i).Some? <==> IntEnd(t, j).Some?
    ensures IntEnd(s, i).Some? ==> IntEnd(s, i).value - i == IntEnd(t, j).value - j <= m
  {
    var sign := if i < |s| && s[i] == '-' then 1 else 0;
    assert m > 0 ==> s[i] == t[j];
    if sign <= m {
      assert SameWindow(s, i + sign, t, j + sign, m - sign);
      DigitsEndLocal(s, i + sign, t, j + sign, m - sign);
    }
  }

  lemma FractionEndLocal(s: string, i: nat, t: string, j: nat, m: nat)
    requires SameWindow(s, i, t, j, m)
    ensures FractionEnd(s, i) - i == FractionEnd(t, j) - j <= m
  {
    if m > 1 && s[i] == '.' {
      DigitsEndLocal(s, i + 1, t, j + 1, m - 1);
    }
  }

  /** How a number is read depends only on its own characters. */
  lemma NumberSpanLocal(s: string, i: nat, t: string, j: nat, m: nat)
    requires SameWindow(s, i, t, j, m)
    ensures NumberSpan(s, i).Some? <==> NumberSpan(t, j).Some?
    ensures NumberSpan(s, i).Some? ==>
              var a, b := NumberSpan(s, i).value, NumberSpan(t, j).value;
              a.intEnd - i == b.intEnd - j && a.end - i == b.end - j && a.end - i <= m
  {
    hide IntEnd, FractionEnd, ExponentEnd;
    IntEndLocal(s, i, t, j, m);
    if IntEnd(s, i).Some? {
      var a := IntEnd(s, i).value - i;
      FractionEndLocal(s, i + a, t, j + a, m - a);
      var b := FractionEnd(s, i + a) - i;
      ExponentEndLocal(s, i + b, t, j + b, m - b);
    }
  }

  lemma {:induction false} DecimalValue(n: nat)
    ensures DigitsValue(Decimal(n)) == n
    ensures n > 0 ==> Decimal(n)[0] != '0'
    ensures n == 0 ==> Decimal(n) == "0"
  {
    var last := ['0' + (n % 10) as char];
    if n < 10 {
      assert Decimal(n) == last;
      assert last[..0] == "";
    } else {
      DecimalValue(n / 10);
      assert Decimal(n)[..|Decimal(n)| - 1] == Decimal(n / 10);
    }
  }

  lemma {:induction false} DigitsEndOfDigits(s: string, i: nat)
    requires i <= |s| && forall k :: i <= k < |s| ==> IsDigit(s[k])
    ensures DigitsEnd(s, i) == |s|
    decreases |s| - i
  {
    if i < |s| {
      DigitsEndOfDigits(s, i + 1);
    }
  }

  lemma DecimalSpan(i: int)
    ensures var s := DecimalInt(i);
            NumberSpan(s, 0) == Some(Span(|s|, |s|)) && IntValueOk(s) && IntValue(s) == i
  {
    var s := DecimalInt(i);
    if i < 0 {
      DecimalValue(-i);
      assert s[1..] == Decimal(-i);
      assert s[1] == Decimal(-i)[0];
      DigitsEndOfDigits(s, 1);
    } else {
      DecimalValue(i);
      DigitsEndOfDigits(s, 0);
      assert s[0..] == s;
    }
  }

  predicate IntValueOk(s: string)
  {
    |s| > 0 && forall c <- s[(if s[0] == '-' then 1 else 0)..] :: IsDigit(c)
  }

  lemma IntRoundTrip(s: string, p: nat, i: int, fr: FloatRepr)
    requires At(s, p, DecimalInt(i)) && Delimited(s, p + |DecimalInt(i)|)
    ensures s[p] == '-' || IsDigit(s[p])
    ensures ParseScalar(s, p, fr) == Done(Int(i), p + |DecimalInt(i)|)
  {
    hide ParseScalar;
    var w := DecimalInt(i);
    DecimalSpan(i);
    AtSlice(s, p, w);
    NumberSpanLocal(s, p, w, 0, |w|);
    NumberIsScalar(s, p, fr);
  }

  lemma FloatRoundTrip(s: string, p: nat, repr: string, fr: FloatRepr)
    requires IsFloatRepr(repr, fr) && At(s, p, repr) && Delimited(s, p + |repr|)
    ensures s[p] == '-' || IsDigit(s[p])
    ensures ParseScalar(s, p, fr) == Done(Float(repr), p + |repr|)
  {
    hide ParseScalar;
    AtSlice(s, p, repr);
    NumberSpanLocal(s, p, repr, 0, |repr|);
    NumberIsScalar(s, p, fr);
  }

  // ---------- strings

  lemma EscapedControl(s: string, i: nat, c: char)
    requires c < ' ' && At(s, i, "\\u00" + [HexDigit(c as int / 16), HexDigit(c as int % 16)])
    ensures s[i] == '\\' && s[i + 1] == 'u' && Hex4(s, i + 2) == Some(c as int)
  {
    var w := "\\u00" + [HexDigit(c as int / 16), HexDigit(c as int % 16)];
    assert s[i] == w[0] && s[i + 1] == w[1] && s[i + 2] == w[2] && s[i + 3] == w[3];
    assert s[i + 4] == w[4] && s[i + 5] == w[5];
  }

  lemma EscapeCharRoundTrip(s: string, i: nat, c: char)
    requires At(s, i, EscapeChar(c))
    ensures ParseChars(s, i) == Prepend(c, ParseChars(s, i + |EscapeChar(c)|))
  {
    var w := EscapeChar(c);
    assert s[i] == w[0];
    if |w| == 2 {
      assert s[i + 1] == w[1];
    } else if |w| > 2 {
      EscapedControl(s, i, c);
    }
  }

  lemma {:induction false} EscapeRoundTrip(s: string, i: nat, text: string)
    requires At(s, i, Escape(text) + "\"")
    ensures ParseChars(s, i) == Done(Text(text), i + |Escape(text)| + 1)
    decreases |text|
  {
    hide EscapeChar;
    AtSplit(s, i, Escape(text), "\"");
    if |text| == 0 {
      assert s[i] == "\""[0];
    } else {
      var w := EscapeChar(text[0]);
      assert Escape(text) + "\"" == w + (Escape(text[1..]) + "\"");
      AtSplit(s, i, w, Escape(text[1..]) + "\"");
      EscapeCharRoundTrip(s, i, text[0]);
      EscapeRoundTrip(s, i + |w|, text[1..]);
      assert text == [text[0]] + text[1..];
    }
  }

  lemma QuoteRoundTrip(s: string, i: nat, text: string)
    requires At(s, i, Quote(text))
    ensures s[i] == '"' && ParseChars(s, i + 1) == Done(Text(text), i + |Quote(text)|)
  {
    assert Quote(text) == "\"" + (Escape(text) + "\"");
    AtSplit(s, i, "\"", Escape(text) + "\"");
    assert s[i] == "\""[0];
    EscapeRoundTrip(s, i + 1, text);
  }

  // ---------- values

  /** Canonical text of a value starts with none of the characters the scanners skip or close on. */
  lemma DumpsStart(v: Json, fr: FloatRepr)
    requires WellFormed(v, fr)
    ensures var w := Dumps(v);
            |w| > 0 && !IsSpace(w[0]) && w[0] != ']' && w[0] != '}'
  {
    if v.Int? {
      DecimalSpan(v.i);
    }
  }

  lemma SkipNothing(s: string, i: nat)
    requires i <= |s| && (i == |s| || !IsSpace(s[i]))
    ensures SkipSpace(s, i) == i
  {
  }

  lemma SortedTail(ms: seq<Member>)
    requires |ms| > 0 && Sorted(ms)
    ensures Sorted(ms[1..])
  {
    forall j | 0 < j < |ms| - 1 ensures Less(ms[1..][j - 1].key, ms[1..][j].key) {
      assert Less(ms[j].key, ms[j + 1].key);
    }
  }

  lemma {:induction false} LessIrreflexive(a: string)
    ensures !Less(a, a)
  {
    if |a| > 0 {
      LessIrreflexive(a[1..]);
    }
  }

  lemma {:induction false} LessTransitive(a: string, b: string, c: string)
    requires Less(a, b) && Less(b, c)
    ensures Less(a, c)
  {
    if |a| > 0 && a[0] == b[0] == c[0] {
      LessTransitive(a[1..], b[1..], c[1..]);
    }
  }

  lemma {:induction false} LessTotal(a: string, b: string)
    ensures a == b || Less(a, b) || Less(b, a)
  {
    if |a| > 0 && |b| > 0 && a[0] == b[0] {
      LessTotal(a[1..], b[1..]);
      assert a == [a[0]] + a[1..] && b == [b[0]] + b[1..];
    }
  }

  /** Sorted members: the first key is below every later one. */
  lemma {:induction false} FirstKeyLeast(ms: seq<Member>, j: nat)
    requires Sorted(ms) && 0 < j < |ms|
    ensures Less(ms[0].key, ms[j].key)
    decreases j
  {
    if j > 1 {
      FirstKeyLeast(ms, j - 1);
      assert Less(ms[j - 1].key, ms[j].key);
      LessTransitive(ms[0].key, ms[j - 1].key, ms[j].key);
    }
  }

  lemma AddEarlierToSorted(ms: seq<Member>)
    requires |ms| > 0 && Sorted(ms)
    ensures AddEarlier(ms[0], ms[1..]) == ms
  {
    if HasKey(ms[1..], ms[0].key) {
      var m :| m in ms[1..] && m.key == ms[0].key;
      var j :| 0 <= j < |ms| - 1 && ms[1..][j] == m;
      FirstKeyLeast(ms, j + 1);
      LessIrreflexive(m.key);
    }
    if |ms| > 1 {
      assert Less(ms[0].key, ms[1].key);
    }
  }

  lemma WordStart(s: string, i: nat, word: string)
    requires |word| > 1 && LooksAt(s, i, word)
    ensures s[i] == word[0] && s[i + 1] == word[1]
  {
    assert s[i..i + |word|][0] == word[0] && s[i..i + |word|][1] == word[1];
  }

  /** Which literal word can stand at `i` is told by its first character. */
  lemma WordStarts(s: string, i: nat)
    requires i < |s|
    ensures LooksAt(s, i, "null") ==> s[i] == 'n'
    ensures LooksAt(s, i, "true") ==> s[i] == 't'
    ensures LooksAt(s, i, "false") ==> s[i] == 'f'
    ensures LooksAt(s, i, "NaN") ==> s[i] == 'N'
    ensures LooksAt(s, i, "Infinity") ==> s[i] == 'I'
    ensures LooksAt(s, i, "-Infinity") ==> s[i] == '-' && i + 1 < |s| && s[i + 1] == 'I'
  {
    hide LooksAt;
    if LooksAt(s, i, "null") { WordStart(s, i, "null"); }
    if LooksAt(s, i, "true") { WordStart(s, i, "true"); }
    if LooksAt(s, i, "false") { WordStart(s, i, "false"); }
    if LooksAt(s, i, "NaN") { WordStart(s, i, "NaN"); }
    if LooksAt(s, i, "Infinity") { WordStart(s, i, "Infinity"); }
    if LooksAt(s, i, "-Infinity") { WordStart(s, i, "-Infinity"); LooksAtFits(s, i, "-Infinity"); }
  }

  lemma LooksAtFits(s: string, i: nat, word: string)
    requires LooksAt(s, i, word)
    ensures i + |word| <= |s|
  {
  }

  /** A number is none of the literal words. */
  lemma NumberIsScalar(s: string, i: nat, fr: FloatRepr)
    requires i < |s| && NumberSpan(s, i).Some?
    ensures s[i] == '-' || IsDigit(s[i])
    ensures ParseScalar(s, i, fr) == ParseNumber(s, i, fr)
  {
    hide ParseNumber, LooksAt;
    WordStarts(s, i);
  }

  /** json.loads reads canonical text back, wherever the text stands. */
  lemma {:induction false} ValueRoundTrip(s: string, i: nat, v: Json, fr: FloatRepr)
    requires WellFormed(v, fr) && At(s, i, Dumps(v)) && Delimited(s, i + |Dumps(v)|)
    ensures ParseValue(s, i, fr) == Done(v, i + |Dumps(v)|)
    decreases v, 1
  {
    hide ParseChars, ParseArray, ParseObject;
    var w := Dumps(v);
    DumpsStart(v, fr);
    assert s[i] == w[0];
    match v
    case Null => AtSlice(s, i, w);
    case Bool(b) => AtSlice(s, i, w);
    case Int(n) => IntRoundTrip(s, i, n, fr);
    case Float(repr) => FloatRoundTrip(s, i, repr, fr);
    case Str(text) => QuoteRoundTrip(s, i, text);
    case Arr(items) => ArrayRoundTrip(s, i, items, fr);
    case Obj(members) => ObjectRoundTrip(s, i, members, fr);
  }

  lemma {:induction false} ArrayRoundTrip(s: string, i: nat, items: seq<Json>, fr: FloatRepr)
    requires forall item <- items :: WellFormed(item, fr)
    requires At(s, i, "[" + DumpItems(items) + "]")
    ensures ParseArray(s, i, fr) == Done(Arr(items), i + |DumpItems(items)| + 2)
    decreases items, 1
  {
    hide ParseItems, WellFormed;
    var body := DumpItems(items) + "]";
    assert "[" + DumpItems(items) + "]" == "[" + body;
    AtSplit(s, i, "[", body);
    assert s[i + 1] == body[0];
    if |items| > 0 {
      ItemsRoundTrip(s, i + 1, items, fr);
    }
  }

  lemma {:induction false} ObjectRoundTrip(s: string, i: nat, ms: seq<Member>, fr: FloatRepr)
    requires Sorted(ms) && forall m <- ms :: WellFormed(m.value, fr)
    requires At(s, i, "{" + DumpMembers(ms) + "}")
    ensures ParseObject(s, i, fr) == Done(Obj(ms), i + |DumpMembers(ms)| + 2)
    decreases ms, 3
  {
    hide ParseMembers, WellFormed;
    var body := DumpMembers(ms) + "}";
    assert "{" + DumpMembers(ms) + "}" == "{" + body;
    AtSplit(s, i, "{", body);
    assert s[i + 1] == body[0];
    if |ms| > 0 {
      MembersRoundTrip(s, i + 1, ms, fr);
    }
  }

  lemma {:induction false} ItemsRoundTrip(s: string, i: nat, items: seq<Json>, fr: FloatRepr)
    requires |items| > 0 && (forall item <- items :: WellFormed(item, fr))
    requires At(s, i, DumpItems(items) + "]")
    ensures !IsSpace(s[i]) && s[i] != ']'
    ensures ParseItems(s, i, fr) == Done(items, i + |DumpItems(items)| + 1)
    decreases items, 0
  {
    hide ParseValue, Dumps, WellFormed, SkipSpace;
    var first := Dumps(items[0]);
    DumpsStart(items[0], fr);
    var e := i + |first|;
    var tail := if |items| == 1 then "]" else "," + (DumpItems(items[1..]) + "]");
    assert DumpItems(items) + "]" == first + tail;
    AtSplit(s, i, first, tail);
    assert s[i] == first[0];
    assert s[e] == tail[0];
    ValueRoundTrip(s, i, items[0], fr);
    SkipNothing(s, e);
    if |items| == 1 {
      assert items == [items[0]];
    } else {
      assert items == [items[0]] + items[1..];
      AtSplit(s, e, ",", DumpItems(items[1..]) + "]");
      ItemsRoundTrip(s, e + 1, items[1..], fr);
      SkipNothing(s, e + 1);
    }
  }

  lemma {:induction false} MemberRoundTrip(s: string, i: nat, m: Member, fr: FloatRepr)
    requires WellFormed(m.value, fr)
    requires At(s, i, DumpMember(m)) && Delimited(s, i + |DumpMember(m)|)
    ensures s[i] == '"'
    ensures ParseMember(s, i, fr) == Done(Some(m), i + |DumpMember(m)|)
    decreases m, 2
  {
    hide ParseValue, ParseChars, Dumps, WellFormed, Quote;
    var key, value := Quote(m.key), Dumps(m.value);
    DumpsStart(m.value, fr);
    assert DumpMember(m) == key + (":" + value);
    AtSplit(s, i, key, ":" + value);
    AtSplit(s, i + |key|, ":", value);
    QuoteRoundTrip(s, i, m.key);
    assert s[i + |key|] == ":"[0];
    assert s[i + |key| + 1] == value[0];
    ValueRoundTrip(s, i + |key| + 1, m.value, fr);
  }

  lemma {:induction false} MembersRoundTrip(s: string, i: nat, ms: seq<Member>, fr: FloatRepr)
    requires |ms| > 0 && Sorted(ms) && (forall m <- ms :: WellFormed(m.value, fr))
    requires At(s, i, DumpMembers(ms) + "}")
    ensures s[i] == '"'
    ensures ParseMembers(s, i, fr) == Done(Some(ms), i + |DumpMembers(ms)| + 1)
    decreases ms, 2
  {
    hide ParseMember, DumpMember, WellFormed, AddEarlier, Sorted;
    var first := DumpMember(ms[0]);
    var e := i + |first|;
    var tail := if |ms| == 1 then "}" else "," + (DumpMembers(ms[1..]) + "}");
    assert DumpMembers(ms) + "}" == first + tail;
    AtSplit(s, i, first, tail);
    assert s[e] == tail[0];
    MemberRoundTrip(s, i, ms[0], fr);
    AddEarlierToSorted(ms);
    assert ms == [ms[0]] + ms[1..];
    if |ms| > 1 {
      SortedTail(ms);
      AtSplit(s, e, ",", DumpMembers(ms[1..]) + "}");
      MembersRoundTrip(s, e + 1, ms[1..], fr);
    }
  }

  /** json.loads undoes canonical json.dumps. */
  lemma LoadsDumps(v: Json, fr: FloatRepr)
    requires WellFormed(v, fr)
    ensures Loads(Dumps(v), fr) == Some(v)
  {
    DumpsStart(v, fr);
    ValueRoundTrip(Dumps(v), 0, v, fr);
  }

  // ---------- reading a longer text

  lemma {:induction false} SkipSpaceExtends(p: string, s: string, i: nat)
    requires p <= s && i <= |p| && SkipSpace(p, i) < |p|
    ensures SkipSpace(s, i) == SkipSpace(p, i)
    decreases |p| - i
  {
    if IsSpace(p[i]) {
      SkipSpaceExtends(p, s, i + 1);
    }
  }

  lemma {:induction false} CharsExtend(p: string, s: string, i: nat)
    requires p <= s && i <= |p| && ParseChars(p, i).Done?
    ensures ParseChars(s, i) == ParseChars(p, i)
    decreases |p| - i
  {
    if p[i] == '"' {
    } else if p[i] == '\\' {
      if SimpleEscape(p[i + 1]).Some? {
        CharsExtend(p, s, i + 2);
      } else {
        var u := Hex4(p, i + 2).value;
        assert Hex4(s, i + 2) == Some(u);
        if 0xD800 <= u < 0xDC00 && i + 7 < |p| && p[i + 6] == '\\' && p[i + 7] == 'u' {
          assert Hex4(s, i + 8) == Hex4(p, i + 8);
          if 0xDC00 <= Hex4(p, i + 8).value < 0xE000 {
            CharsExtend(p, s, i + 12);
          } else {
            CharsExtend(p, s, i + 6);
          }
        } else {
          CharsExtend(p, s, i + 6);
        }
      }
    } else {
      CharsExtend(p, s, i + 1);
    }
  }

  /** The end of a value is marked by its own syntax or by the next character. */
  predicate Marked(p: string, i: nat, r: Parsed<Json>)
  {
    r.Done? && i < |p| && (p[i] == '{' || (r.end < |p| && !NumberChar(p[r.end])))
  }

  lemma NumberExtends(p: string, s: string, i: nat, fr: FloatRepr)
    requires p <= s && i < |p| && NumberSpan(p, i).Some?
    requires var e := NumberSpan(p, i).value.end; e < |p| && !NumberChar(p[e])
    ensures NumberSpan(s, i).Some? && ParseNumber(s, i, fr) == ParseNumber(p, i, fr)
  {
    var e, intEnd := NumberSpan(p, i).value.end, NumberSpan(p, i).value.intEnd;
    NumberSpanLocal(p, i, s, i, e - i);
    assert s[i..e] == p[i..e] && s[i..intEnd] == p[i..intEnd];
  }

  lemma WordExtends(p: string, s: string, i: nat, word: string)
    requires p <= s && LooksAt(p, i, word)
    ensures LooksAt(s, i, word)
  {
    assert s[i..i + |word|] == p[i..i + |word|];
  }

  lemma ScalarExtends(p: string, s: string, i: nat, fr: FloatRepr)
    requires p <= s && i < |p| && ParseScalar(p, i, fr).Done?
    requires var e := ParseScalar(p, i, fr).end; e < |p| && !NumberChar(p[e])
    ensures ParseScalar(s, i, fr) == ParseScalar(p, i, fr)
  {
    hide LooksAt;
    if NumberSpan(p, i).Some? {
      NumberIsScalar(p, i, fr);
      NumberExtends(p, s, i, fr);
      NumberIsScalar(s, i, fr);
    } else {
      WordStarts(s, i);
      var word := if LooksAt(p, i, "null") then "null" else if LooksAt(p, i, "true") then "true"
                  else if LooksAt(p, i, "false") then "false" else if LooksAt(p, i, "NaN") then "NaN"
                  else if LooksAt(p, i, "Infinity") then "Infinity" else "-Infinity";
      WordExtends(p, s, i, word);
    }
  }

  /** A value whose end is marked is read the same when more text follows. */
  lemma {:induction false} ValueExtends(p: string, s: string, i: nat, fr: FloatRepr)
    requires p <= s && i <= |p| && Marked(p, i, ParseValue(p, i, fr))
    ensures ParseValue(s, i, fr) == ParseValue(p, i, fr)
    decreases |p| - i, 1
  {
    hide ParseChars, ParseScalar, ParseMembers, ParseItems;
    assert p[i] == s[i];
    if p[i] == '"' {
      CharsExtend(p, s, i + 1);
    } else if p[i] == '{' {
      SkipSpaceExtends(p, s, i + 1);
      var j := SkipSpace(p, i + 1);
      if p[j] != '}' {
        MembersExtend(p, s, j, fr);
      }
    } else if p[i] == '[' {
      SkipSpaceExtends(p, s, i + 1);
      var j := SkipSpace(p, i + 1);
      if p[j] != ']' {
        ItemsExtend(p, s, j, fr);
      }
    } else {
      ScalarExtends(p, s, i, fr);
    }
  }

  lemma {:induction false} ItemsExtend(p: string, s: string, i: nat, fr: FloatRepr)
    requires p <= s && i <= |p| && ParseItems(p, i, fr).Done?
    ensures ParseItems(s, i, fr) == ParseItems(p, i, fr)
    decreases |p| - i, 2
  {
    hide ParseValue;
    var first := ParseValue(p, i, fr);
    SkipSpaceExtends(p, s, first.end);
    SpaceMarks(p, first.end);
    ValueExtends(p, s, i, fr);
    var j := SkipSpace(p, first.end);
    if p[j] == ',' {
      SkipSpaceExtends(p, s, j + 1);
      ItemsExtend(p, s, SkipSpace(p, j + 1), fr);
    }
  }

  /** Space or a closing mark after `i` is no continuation of a number. */
  lemma SpaceMarks(p: string, i: nat)
    requires i <= |p|
    ensures var j := SkipSpace(p, i);
            j < |p| && p[j] in [',', ']', '}', ':'] ==> !NumberChar(p[i])
  {
  }

  lemma {:induction false} MemberExtends(p: string, s: string, i: nat, fr: FloatRepr)
    requires p <= s && i <= |p| && ParseMember(p, i, fr).Done?
    requires var e := ParseMember(p, i, fr).end; e < |p| && !NumberChar(p[e])
    ensures ParseMember(s, i, fr) == ParseMember(p, i, fr)
    decreases |p| - i, 2
  {
    hide ParseValue, ParseChars;
    CharsExtend(p, s, i + 1);
    var key := ParseChars(p, i + 1);
    SkipSpaceExtends(p, s, key.end);
    var colon := SkipSpace(p, key.end);
    var v := SkipSpace(p, colon + 1);
    SkipSpaceExtends(p, s, colon + 1);
    ValueExtends(p, s, v, fr);
  }

  lemma {:induction false} MembersExtend(p: string, s: string, i: nat, fr: FloatRepr)
    requires p <= s && i <= |p| && ParseMembers(p, i, fr).Done?
    ensures ParseMembers(s, i, fr) == ParseMembers(p, i, fr)
    decreases |p| - i, 3
  {
    hide ParseMember, IsSpace, NumberChar, WithMember;
    var first := ParseMember(p, i, fr);
    SkipSpaceExtends(p, s, first.end);
    SpaceMarks(p, first.end);
    MemberExtends(p, s, i, fr);
    var j := SkipSpace(p, first.end);
    if p[j] == ',' {
      SkipSpaceExtends(p, s, j + 1);
      MembersExtend(p, s, SkipSpace(p, j + 1), fr);
    }
  }

  /** No proper prefix of a canonical object is valid JSON. */
  lemma TornObject(v: Json, p: string, fr: FloatRepr)
    requires v.Obj? && WellFormed(v, fr) && p <= Dumps(v) && |p| < |Dumps(v)|
    ensures Loads(p, fr).None?
  {
    hide ParseObject, WellFormed;
    var s := Dumps(v);
    ValueRoundTrip(s, 0, v, fr);
    if Loads(p, fr).Some? {
      assert s[0] == '{';
      assert p[0] == s[0];
      ValueExtends(p, s, 0, fr);
    }
  }

  // ---------- what json.loads can return

  /** Like WellFormed, but admitting the two leaves that canonical encoding refuses. */
  predicate Readable(v: Json, fr: FloatRepr)
  {
    match v
    case Float(repr) => IsFloatRepr(repr, fr)
    case Arr(items) => forall item <- items :: Readable(item, fr)
    case Obj(members) => Sorted(members) && forall m <- members :: Readable(m.value, fr)
    case _ => true
  }

  /** The repr of a float is a float literal whose repr it is. */
  ghost predicate ReprLaw(fr: FloatRepr)
  {
    forall s: string :: fr(s).Some? ==> IsFloatRepr(fr(s).value, fr)
  }

  lemma {:induction false} AddEarlierSorts(m: Member, rest: seq<Member>)
    requires Sorted(rest)
    ensures Sorted(AddEarlier(m, rest))
    ensures forall x <- AddEarlier(m, rest) :: x == m || x in rest
    ensures |rest| > 0 ==> AddEarlier(m, rest)[0] in [m, rest[0]]
  {
    hide Less;
    if HasKey(rest, m.key) {
    } else if |rest| == 0 || Less(m.key, rest[0].key) {
    } else {
      var tail := rest[1..];
      assert rest[0].key != m.key by { assert rest[0] in rest; }
      LessTotal(m.key, rest[0].key);
      SortedTail(rest);
      assert !HasKey(tail, m.key);
      AddEarlierSorts(m, tail);
      var added := AddEarlier(m, tail);
      assert |added| > 0 && Less(rest[0].key, added[0].key) by {
        assert |tail| > 0 ==> Less(rest[0].key, rest[1].key);
        assert |tail| == 0 ==> added == [m];
      }
      ConsSorted(rest[0], added);
    }
  }

  lemma ConsSorted(m: Member, ms: seq<Member>)
    requires Sorted(ms) && (|ms| > 0 ==> Less(m.key, ms[0].key))
    ensures Sorted([m] + ms)
  {
    hide Less;
    var all := [m] + ms;
    forall j | 0 < j < |all| ensures Less(all[j - 1].key, all[j].key) {
      assert j > 1 ==> Less(ms[j - 2].key, ms[j - 1].key);
    }
  }

  lemma NumberReadable(s: string, i: nat, fr: FloatRepr)
    requires i <= |s| && ReprLaw(fr) && ParseNumber(s, i, fr).Done?
    ensures Readable(ParseNumber(s, i, fr).value, fr)
  {
    hide IsFloatRepr, IntValue;
  }

  /** Whatever json.loads reads has sorted unique keys and canonical floats. */
  lemma {:induction false} ValueReadable(s: string, i: nat, fr: FloatRepr)
    requires i <= |s| && ReprLaw(fr) && ParseValue(s, i, fr).Done?
    ensures Readable(ParseValue(s, i, fr).value, fr)
    decreases |s| - i, 1
  {
    hide ParseChars, ParseNumber, ParseItems, ParseMembers, LooksAt, ReprLaw;
    if s[i] == '{' {
      var j := SkipSpace(s, i + 1);
      if ParseMembers(s, j, fr).Done? {
        MembersReadable(s, j, fr);
      }
    } else if s[i] == '[' {
      var j := SkipSpace(s, i + 1);
      if ParseItems(s, j, fr).Done? {
        ItemsReadable(s, j, fr);
      }
    } else if s[i] != '"' && ParseNumber(s, i, fr).Done? {
      NumberReadable(s, i, fr);
    }
  }

  lemma {:induction false} ItemsReadable(s: string, i: nat, fr: FloatRepr)
    requires i <= |s| && ReprLaw(fr) && ParseItems(s, i, fr).Done?
    ensures forall item <- ParseItems(s, i, fr).value :: Readable(item, fr)
    decreases |s| - i, 2
  {
    hide ParseValue, ReprLaw, Readable;
    ValueReadable(s, i, fr);
    var j := SkipSpace(s, ParseValue(s, i, fr).end);
    if s[j] == ',' {
      ItemsReadable(s, SkipSpace(s, j + 1), fr);
    }
  }

  predicate MembersOk(ms: seq<Member>, fr: FloatRepr)
  {
    Sorted(ms) && forall m <- ms :: Readable(m.value, fr)
  }

  lemma {:induction false} MemberReadable(s: string, i: nat, fr: FloatRepr)
    requires i <= |s| && ReprLaw(fr) && ParseMember(s, i, fr).Done?
    ensures var m := ParseMember(s, i, fr).value; m.Some? ==> Readable(m.value.value, fr)
    decreases |s| - i, 2
  {
    hide ParseValue, ParseChars, ReprLaw, Readable;
    var colon := SkipSpace(s, ParseChars(s, i + 1).end);
    ValueReadable(s, SkipSpace(s, colon + 1), fr);
  }

  lemma {:induction false} MembersReadable(s: string, i: nat, fr: FloatRepr)
    requires i <= |s| && ReprLaw(fr) && ParseMembers(s, i, fr).Done?
    ensures var ms := ParseMembers(s, i, fr).value; ms.Some? ==> MembersOk(ms.value, fr)
    decreases |s| - i, 3
  {
    hide ParseMember, ReprLaw, Readable, Sorted, AddEarlier;
    var first := ParseMember(s, i, fr);
    MemberReadable(s, i, fr);
    EmptySorted();
    var j := SkipSpace(s, first.end);
    var rest := if s[j] == ',' then ParseMembers(s, SkipSpace(s, j + 1), fr).value else Some([]);
    if s[j] == ',' {
      MembersReadable(s, SkipSpace(s, j + 1), fr);
    }
    if first.value.Some? && rest.Some? {
      AddEarlierSorts(first.value.value, rest.value);
    }
  }

  lemma EmptySorted()
    ensures Sorted([])
  {
  }

  lemma {:induction false} ReadableIsWellFormed(v: Json, fr: FloatRepr)
    requires Readable(v, fr) && Encodable(v)
    ensures WellFormed(v, fr)
    decreases v
  {
    match v
    case Arr(items) =>
      forall item | item in items ensures WellFormed(item, fr) { ReadableIsWellFormed(item, fr); }
    case Obj(members) =>
      forall m | m in members ensures WellFormed(m.value, fr) { ReadableIsWellFormed(m.value, fr); }
    case _ =>
  }

  lemma LoadsReadable(s: string, fr: FloatRepr)
    requires ReprLaw(fr) && Loads(s, fr).Some?
    ensures Readable(Loads(s, fr).value, fr)
  {
    hide ParseValue, ReprLaw, Readable;
    ValueReadable(s, SkipSpace(s, 0), fr);
  }

  /** A canonical text with a newline after it, as manifests are written, reads back too. */
  lemma LoadsDumpsLine(v: Json, fr: FloatRepr)
    requires WellFormed(v, fr)
    ensures Loads(Dumps(v) + "\n", fr) == Some(v)
  {
    hide WellFormed, Dumps, ParseValue;
    DumpsStart(v, fr);
    var s := Dumps(v) + "\n";
    assert s[|s| - 1] == '\n';
    assert SkipSpace(s, |s| - 1) == |s|;
    ValueRoundTrip(s, 0, v, fr);
  }

  // ---------- no newline in canonical text

  lemma {:induction false} EscapeHasNoNewline(text: string)
    ensures '\n' !in Escape(text)
  {
    if |text| > 0 {
      EscapeHasNoNewline(text[1..]);
    }
  }

  lemma NumberHasNoNewline(s: string)
    requires NumberSpan(s, 0).Some? && NumberSpan(s, 0).value.end == |s|
    ensures '\n' !in s
  {
  }

  lemma {:induction false} DumpsHasNoNewline(v: Json, fr: FloatRepr)
    requires WellFormed(v, fr)
    ensures '\n' !in Dumps(v)
    decreases v, 1
  {
    match v
    case Int(i) => DecimalSpan(i); NumberHasNoNewline(DecimalInt(i));
    case Float(repr) => NumberHasNoNewline(repr);
    case Str(s) => EscapeHasNoNewline(s);
    case Arr(items) => ItemsHaveNoNewline(items, fr);
    case Obj(members) => MembersHaveNoNewline(members, fr);
    case _ =>
  }

  lemma {:induction false} ItemsHaveNoNewline(items: seq<Json>, fr: FloatRepr)
    requires forall item <- items :: WellFormed(item, fr)
    ensures '\n' !in DumpItems(items)
    decreases items, 0
  {
    if |items| > 0 {
      DumpsHasNoNewline(items[0], fr);
      ItemsHaveNoNewline(items[1..], fr);
    }
  }

  lemma {:induction false} MembersHaveNoNewline(ms: seq<Member>, fr: FloatRepr)
    requires forall m <- ms :: WellFormed(m.value, fr)
    ensures '\n' !in DumpMembers(ms)
    decreases ms, 0
  {
    if |ms| > 0 {
      EscapeHasNoNewline(ms[0].key);
      DumpsHasNoNewline(ms[0].value, fr);
      MembersHaveNoNewline(ms[1..], fr);
    }
  }
}
