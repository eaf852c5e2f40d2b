/**
 * What comment stripping and brace matching do to each construct of C-family languages and of HCL
 * (architecture_dependency_observer.py, architecture_deployment_observer.py).
 */
module CommentTerms {
  import opened Prelude
  import opened Masking
  import opened LexerTerms
  import C = CommentScanners
  import opened AuditContracts
  import opened HclResources

  // ---------- strings

  /** One step inside a string: a plain character, or a backslash with the character after it. */
  predicate StringPiece(p: string, quote: char)
  {
    (|p| == 1 && p[0] != quote && p[0] != '\\') || (|p| == 2 && p[0] == '\\')
  }

  predicate StringBody(pieces: seq<string>, quote: char)
  {
    forall p <- pieces :: StringPiece(p, quote)
  }

  function Flat(pieces: seq<string>): string
  {
    if |pieces| == 0 then "" else pieces[0] + Flat(pieces[1..])
  }

  // ---------- C family

  /** What stripping C-family comments makes of a text. */
  ghost function StrippedC(text: string): string
  {
    C.CScans();
    Scan(C.ReadC, C.Code, text)
  }

  lemma PieceKept(p: string, quote: char, rest: string)
    requires StringPiece(p, quote)
    ensures Scans(C.ReadC)
    ensures Scan(C.ReadC, C.Quoted(quote), p + rest) == p + Scan(C.ReadC, C.Quoted(quote), rest)
  {
    C.CScans();
    assert (p + rest)[0] == p[0];
    OneToken(C.ReadC, C.Quoted(quote), p, rest, true, C.Quoted(quote));
  }

  lemma {:induction false} BodyKept(pieces: seq<string>, quote: char, rest: string)
    requires StringBody(pieces, quote)
    ensures Scans(C.ReadC)
    ensures Scan(C.ReadC, C.Quoted(quote), Flat(pieces) + rest) == Flat(pieces) + Scan(C.ReadC, C.Quoted(quote), rest)
  {
    C.CScans();
    if |pieces| == 0 {
      assert Flat(pieces) + rest == rest;
    } else {
      var head, tail := pieces[0], Flat(pieces[1..]);
      assert Flat(pieces) == head + tail;
      hide Flat, Scan, C.ReadC;
      BodyKept(pieces[1..], quote, rest);
      PieceKept(head, quote, tail + rest);
      Regroup(head, tail, rest);
      Regroup(head, tail, Scan(C.ReadC, C.Quoted(quote), rest));
    }
  }

  lemma QuoteOpens(quote: char, rest: string)
    requires quote in {'\'', '"', '`'}
    ensures Scans(C.ReadC)
    ensures StrippedC([quote] + rest) == [quote] + Scan(C.ReadC, C.Quoted(quote), rest)
  {
    C.CScans();
    var s := [quote] + rest;
    assert s[0] == quote;
    OneToken(C.ReadC, C.Code, [quote], rest, true, C.Quoted(quote));
  }

  lemma QuoteCloses(quote: char, rest: string)
    requires quote in {'\'', '"', '`'}
    ensures Scans(C.ReadC)
    ensures Scan(C.ReadC, C.Quoted(quote), [quote] + rest) == [quote] + StrippedC(rest)
  {
    C.CScans();
    assert ([quote] + rest)[0] == quote;
    OneToken(C.ReadC, C.Quoted(quote), [quote], rest, true, C.Code);
  }

  /** A string is kept as it is, comment marks in it included, to its closing quote or the end of the text. */
  lemma CString(quote: char, pieces: seq<string>, rest: string)
    requires quote in {'\'', '"', '`'} && StringBody(pieces, quote)
    ensures StrippedC([quote] + (Flat(pieces) + ([quote] + rest)))
            == [quote] + (Flat(pieces) + ([quote] + StrippedC(rest)))
    ensures StrippedC([quote] + Flat(pieces)) == [quote] + Flat(pieces)
  {
    C.CScans();
    assert Scan(C.ReadC, C.Quoted(quote), "") == "";
    assert Flat(pieces) + "" == Flat(pieces);
    hide Flat, Scan, C.ReadC, StringBody;
    QuoteOpens(quote, Flat(pieces) + ([quote] + rest));
    QuoteOpens(quote, Flat(pieces) + "");
    BodyKept(pieces, quote, [quote] + rest);
    BodyKept(pieces, quote, "");
    QuoteCloses(quote, rest);
  }

  /** Any other character of code is kept. */
  lemma CKeeps(c: char, rest: string)
    requires c !in {'\'', '"', '`'} && !("//" <= [c] + rest) && !("/*" <= [c] + rest)
    ensures StrippedC([c] + rest) == [c] + StrippedC(rest)
  {
    C.CScans();
    assert ([c] + rest)[0] == c;
    OneToken(C.ReadC, C.Code, [c], rest, true, C.Code);
  }

  lemma CEnds()
    ensures Scans(C.ReadC) && BlankAll("*/") == Spaces(2)
    ensures BlanksUntil(C.ReadC, C.LineComment, "\n", C.Code) && BlanksUntil(C.ReadC, C.BlockComment, "*/", C.Code)
  {
    C.CScans();
    forall s: string | |s| > 0 ensures "\n" <= s <==> s[0] == '\n' {}
  }

  lemma COpening(opening: string, rest: string, state: C.CState)
    requires (opening == "//" && state == C.LineComment) || (opening == "/*" && state == C.BlockComment)
    ensures Scans(C.ReadC)
    ensures StrippedC(opening + rest) == Spaces(2) + Scan(C.ReadC, state, rest)
  {
    C.CScans();
    assert opening <= opening + rest && BlankAll(opening) == Spaces(2);
    assert opening == "/*" ==> (opening + rest)[1] == '*';
    OneToken(C.ReadC, C.Code, opening, rest, false, state);
  }

  /** A line comment is blanked up to its newline, which stays, or to the end of the text. */
  lemma CLineComment(body: string, rest: string)
    requires '\n' !in body
    ensures StrippedC("//" + (body + ("\n" + rest))) == Spaces(2 + |body|) + ("\n" + StrippedC(rest))
    ensures StrippedC("//" + body) == Spaces(2 + |body|)
  {
    hide Scan, BlankAll, Spaces;
    CEnds();
    NoNewline(body);
    StretchBlanked(C.ReadC, C.LineComment, body, "\n", C.Code, rest);
    StretchUnended(C.ReadC, C.LineComment, body, "\n", C.Code);
    COpening("//", body + ("\n" + rest), C.LineComment);
    COpening("//", body, C.LineComment);
    BlankedLine(body);
    Regroup(Spaces(2), Spaces(|body|), "\n" + StrippedC(rest));
  }

  /** A block comment is blanked up to its first end, or to the end of the text; its newlines stay. */
  lemma CBlockComment(body: string, rest: string)
    ensures EndsFirstWith(body, "*/") ==>
              StrippedC("/*" + (body + ("*/" + rest))) == Spaces(2) + (BlankAll(body) + (Spaces(2) + StrippedC(rest)))
    ensures Lacks(body, "*/") ==> StrippedC("/*" + body) == Spaces(2) + BlankAll(body)
  {
    hide Scan, BlankAll, Spaces, EndsFirstWith, Lacks;
    CEnds();
    if EndsFirstWith(body, "*/") {
      StretchBlanked(C.ReadC, C.BlockComment, body, "*/", C.Code, rest);
      COpening("/*", body + ("*/" + rest), C.BlockComment);
    }
    if Lacks(body, "*/") {
      StretchUnended(C.ReadC, C.BlockComment, body, "*/", C.Code);
      COpening("/*", body, C.BlockComment);
    }
  }

  // ---------- HCL

  /** What stripping HCL comments makes of a text. */
  ghost function StrippedHcl(text: string): string
  {
    C.HclScans();
    Scan(C.ReadHcl, C.Plain, text)
  }

  lemma HclPieceKept(p: string, rest: string)
    requires StringPiece(p, '"')
    ensures Scans(C.ReadHcl)
    ensures Scan(C.ReadHcl, C.Text(false), p + rest) == p + Scan(C.ReadHcl, C.Text(false), rest)
  {
    C.HclScans();
    assert (p + rest)[0] == p[0];
    if |p| == 1 {
      OneToken(C.ReadHcl, C.Text(false), p, rest, true, C.Text(false));
    } else {
      var head, next := [p[0]], [p[1]];
      assert p + rest == head + (next + rest) && p == head + next;
      assert (next + rest)[0] == p[1];
      OneToken(C.ReadHcl, C.Text(false), head, next + rest, true, C.Text(true));
      OneToken(C.ReadHcl, C.Text(true), next, rest, true, C.Text(false));
      Regroup(head, next, Scan(C.ReadHcl, C.Text(false), rest));
    }
  }

  lemma {:induction false} HclBodyKept(pieces: seq<string>, rest: string)
    requires StringBody(pieces, '"')
    ensures Scans(C.ReadHcl)
    ensures Scan(C.ReadHcl, C.Text(false), Flat(pieces) + rest) == Flat(pieces) + Scan(C.ReadHcl, C.Text(false), rest)
  {
    C.HclScans();
    if |pieces| == 0 {
      assert Flat(pieces) + rest == rest;
    } else {
      var head, tail := pieces[0], Flat(pieces[1..]);
      assert Flat(pieces) == head + tail;
      hide Flat, Scan, C.ReadHcl;
      HclBodyKept(pieces[1..], rest);
      HclPieceKept(head, tail + rest);
      Regroup(head, tail, rest);
      Regroup(head, tail, Scan(C.ReadHcl, C.Text(false), rest));
    }
  }

  lemma HclQuote(rest: string)
    ensures Scans(C.ReadHcl)
    ensures StrippedHcl("\"" + rest) == "\"" + Scan(C.ReadHcl, C.Text(false), rest)
    ensures Scan(C.ReadHcl, C.Text(false), "\"" + rest) == "\"" + StrippedHcl(rest)
  {
    C.HclScans();
    assert ("\"" + rest)[0] == '"';
    OneToken(C.ReadHcl, C.Plain, "\"", rest, true, C.Text(false));
    OneToken(C.ReadHcl, C.Text(false), "\"", rest, true, C.Plain);
  }

  /** A string is kept as it is to its closing quote or the end of the text. */
  lemma HclString(pieces: seq<string>, rest: string)
    requires StringBody(pieces, '"')
    ensures StrippedHcl("\"" + (Flat(pieces) + ("\"" + rest))) == "\"" + (Flat(pieces) + ("\"" + StrippedHcl(rest)))
    ensures StrippedHcl("\"" + Flat(pieces)) == "\"" + Flat(pieces)
  {
    C.HclScans();
    assert Scan(C.ReadHcl, C.Text(false), "") == "";
    assert Flat(pieces) + "" == Flat(pieces);
    hide Flat, Scan, C.ReadHcl, StringBody;
    HclQuote(Flat(pieces) + ("\"" + rest));
    HclQuote(Flat(pieces) + "");
    HclBodyKept(pieces, "\"" + rest);
    HclBodyKept(pieces, "");
    HclQuote(rest);
  }

  /** Any other character is kept. */
  lemma HclKeeps(c: char, rest: string)
    requires c !in {'"', '#'} && !("//" <= [c] + rest) && !("/*" <= [c] + rest)
    ensures StrippedHcl([c] + rest) == [c] + StrippedHcl(rest)
  {
    C.HclScans();
    assert ([c] + rest)[0] == c;
    OneToken(C.ReadHcl, C.Plain, [c], rest, true, C.Plain);
  }

  lemma HclEnds()
    ensures Scans(C.ReadHcl) && BlankAll("*/") == Spaces(2)
    ensures BlanksUntil(C.ReadHcl, C.Line, "\n", C.Plain) && BlanksUntil(C.ReadHcl, C.Block, "*/", C.Plain)
  {
    C.HclScans();
    forall s: string | |s| > 0 ensures "\n" <= s <==> s[0] == '\n' {}
  }

  lemma HclOpening(opening: string, rest: string, state: C.HclState)
    requires (opening in {"//", "#"} && state == C.Line) || (opening == "/*" && state == C.Block)
    ensures Scans(C.ReadHcl)
    ensures StrippedHcl(opening + rest) == Spaces(|opening|) + Scan(C.ReadHcl, state, rest)
  {
    C.HclScans();
    var s := opening + rest;
    assert opening <= s && BlankAll(opening) == Spaces(|opening|) && s[0] == opening[0];
    assert opening == "/*" ==> s[1] == '*';
    OneToken(C.ReadHcl, C.Plain, opening, rest, false, state);
  }

  /** A line comment, with either mark, is blanked up to its newline, which stays, or to the end of the text. */
  lemma HclLineComment(mark: string, body: string, rest: string)
    requires mark in {"//", "#"} && '\n' !in body
    ensures StrippedHcl(mark + (body + ("\n" + rest))) == Spaces(|mark|) + (Spaces(|body|) + ("\n" + StrippedHcl(rest)))
    ensures StrippedHcl(mark + body) == Spaces(|mark|) + Spaces(|body|)
  {
    hide Scan, BlankAll, Spaces;
    HclEnds();
    NoNewline(body);
    StretchBlanked(C.ReadHcl, C.Line, body, "\n", C.Plain, rest);
    StretchUnended(C.ReadHcl, C.Line, body, "\n", C.Plain);
    HclOpening(mark, body + ("\n" + rest), C.Line);
    HclOpening(mark, body, C.Line);
    BlankedLine(body);
  }

  /** A block comment is blanked up to its first end, or to the end of the text; its newlines stay. */
  lemma HclBlockComment(body: string, rest: string)
    ensures EndsFirstWith(body, "*/") ==>
              StrippedHcl("/*" + (body + ("*/" + rest)))
              == Spaces(2) + (BlankAll(body) + (Spaces(2) + StrippedHcl(rest)))
    ensures Lacks(body, "*/") ==> StrippedHcl("/*" + body) == Spaces(2) + BlankAll(body)
  {
    hide Scan, BlankAll, Spaces, EndsFirstWith, Lacks;
    HclEnds();
    if EndsFirstWith(body, "*/") {
      StretchBlanked(C.ReadHcl, C.Block, body, "*/", C.Plain, rest);
      HclOpening("/*", body + ("*/" + rest), C.Block);
    }
    if Lacks(body, "*/") {
      StretchUnended(C.ReadHcl, C.Block, body, "*/", C.Plain);
      HclOpening("/*", body, C.Block);
    }
  }

  // ---------- braces outside strings

  /** Outside strings a brace opens or closes a level, and any other character but a quote changes nothing. */
  lemma BraceCounts(before: string, c: char)
    requires !ReadText(OUTSIDE, before).quoted && c != '"'
    ensures ReadText(OUTSIDE, before + [c]).level ==
              ReadText(OUTSIDE, before).level + (if c == '{' then 1 else if c == '}' then -1 else 0)
    ensures !ReadText(OUTSIDE, before + [c]).quoted
  {
    assert (before + [c])[..|before|] == before;
  }

  lemma PieceRead(d: Depth, p: string)
    requires d.quoted && !d.escaped && StringPiece(p, '"')
    ensures ReadText(d, p) == d
  {
    if |p| == 1 {
      assert p[..0] == "";
    } else {
      assert p[..1][..0] == "" && p[..1][0] == p[0];
      assert ReadText(d, p[..1]) == d.(escaped := true);
    }
  }

  lemma {:induction false} BodyRead(d: Depth, pieces: seq<string>)
    requires d.quoted && !d.escaped && StringBody(pieces, '"')
    ensures ReadText(d, Flat(pieces)) == d
  {
    if |pieces| > 0 {
      PieceRead(d, pieces[0]);
      BodyRead(d, pieces[1..]);
      ReadOn(d, pieces[0], Flat(pieces[1..]));
    }
  }

  /** A whole string, braces in it included, leaves the reader where it was. */
  lemma StringDoesNotCount(before: string, pieces: seq<string>)
    requires StringBody(pieces, '"') && !ReadText(OUTSIDE, before).quoted && !ReadText(OUTSIDE, before).escaped
    ensures ReadText(OUTSIDE, before + ("\"" + (Flat(pieces) + "\""))) == ReadText(OUTSIDE, before)
  {
    var d := ReadText(OUTSIDE, before);
    var inside := d.(quoted := true);
    ReadOn(OUTSIDE, before, "\"" + (Flat(pieces) + "\""));
    ReadOn(d, "\"", Flat(pieces) + "\"");
    assert ReadText(d, "\"") == inside by { assert "\""[..0] == ""; }
    ReadOn(inside, Flat(pieces), "\"");
    BodyRead(inside, pieces);
    assert ReadText(inside, "\"") == d by { assert "\""[..0] == ""; }
  }

  // ---------- resource headers

  /** From one index to another there is white space only. */
  predicate SpaceRun(s: string, i: nat, e: nat)
  {
    i <= e <= |s| && forall k :: i <= k < e ==> IsPySpace(s[k])
  }

  /** A name of letters, digits, underscores and dashes, in double quotes. */
  predicate QuotedRun(s: string, i: nat, e: nat)
  {
    && i + 1 < e < |s| && s[i] == '"' && s[e] == '"'
    && forall k :: i < k < e ==>
         'A' <= s[k] <= 'Z' || 'a' <= s[k] <= 'z' || '0' <= s[k] <= '9' || s[k] == '_' || s[k] == '-'
  }

  /** The keyword, space, a quoted type, space, a quoted name, and an opening brace, at these positions. */
  predicate HeaderForm(s: string, i: nat, type0: nat, type1: nat, name0: nat, name1: nat, brace: nat)
  {
    && i + 8 < type0 && SpaceRun(s, i + 8, type0) && s[i..i + 8] == "resource"
    && QuotedRun(s, type0, type1) && type1 + 1 < name0 && SpaceRun(s, type1 + 1, name0)
    && QuotedRun(s, name0, name1) && SpaceRun(s, name1 + 1, brace) && brace < |s| && s[brace] == '{'
  }

  lemma {:induction false} SpaceEnds(s: string, i: nat, e: nat)
    requires SpaceRun(s, i, e) && (e < |s| ==> !IsPySpace(s[e]))
    ensures AfterSpace(s, i) == e
    decreases e - i
  {
    if i < e { SpaceEnds(s, i + 1, e); }
  }

  lemma {:induction false} SpaceStops(s: string, i: nat)
    requires i <= |s|
    ensures var e := AfterSpace(s, i); SpaceRun(s, i, e) && (e < |s| ==> !IsPySpace(s[e]))
    decreases |s| - i
  {
    if i < |s| && IsPySpace(s[i]) { SpaceStops(s, i + 1); }
  }

  lemma {:induction false} NameEnds(s: string, i: nat, e: nat)
    requires i <= e <= |s| && (forall k :: i <= k < e ==> NameChar(s[k])) && (e < |s| ==> !NameChar(s[e]))
    ensures AfterName(s, i) == e
    decreases e - i
  {
    if i < e { NameEnds(s, i + 1, e); }
  }

  lemma QuotedMeans(s: string, i: nat)
    requires i <= |s|
    ensures AfterQuoted(s, i).Some? ==> QuotedRun(s, i, AfterQuoted(s, i).value - 1)
    ensures forall e :: QuotedRun(s, i, e) ==> AfterQuoted(s, i) == Some(e + 1)
  {
    forall e | QuotedRun(s, i, e) ensures AfterQuoted(s, i) == Some(e + 1) {
      NameEnds(s, i + 1, e);
    }
  }

  /** A header stands exactly where that form does, not in the middle of a word, and gives its type and its name. */
  lemma HeaderMeans(s: string, i: nat, word: char -> bool, h: Header)
    requires i <= |s|
    ensures HeaderAt(s, i, word) == Some(h) <==>
              && !(i > 0 && word(s[i - 1]))
              && exists type0: nat, type1: nat, name0: nat, name1: nat ::
                   && HeaderForm(s, i, type0, type1, name0, name1, h.opening)
                   && h.kind == s[type0 + 1..type1] && h.name == s[name0 + 1..name1]
  {
    forall type0: nat, type1: nat, name0: nat, name1: nat | HeaderForm(s, i, type0, type1, name0, name1, h.opening)
      ensures !(i > 0 && word(s[i - 1])) ==>
                HeaderAt(s, i, word) == Some(Header(s[type0 + 1..type1], s[name0 + 1..name1], h.opening))
    {
      if !(i > 0 && word(s[i - 1])) {
        FormFound(s, i, word, type0, type1, name0, name1, h.opening);
      }
    }
    if HeaderAt(s, i, word) == Some(h) {
      FoundForm(s, i, word);
    }
    hide HeaderAt, HeaderForm;
  }

  lemma FormParts(s: string, i: nat, type0: nat, type1: nat, name0: nat, name1: nat, brace: nat)
    requires HeaderForm(s, i, type0, type1, name0, name1, brace)
    ensures i + 8 < type0 <= type1 < name0 <= name1 < brace < |s| && s[i..i + 8] == "resource" && s[brace] == '{'
    ensures type1 + 1 < name0 && AfterSpace(s, i + 8) == type0 && AfterQuoted(s, type0) == Some(type1 + 1)
    ensures AfterSpace(s, type1 + 1) == name0 && AfterQuoted(s, name0) == Some(name1 + 1)
    ensures AfterSpace(s, name1 + 1) == brace
  {
    assert !IsPySpace('"') && !IsPySpace('{');
    hide AfterSpace, AfterQuoted, IsPySpace;
    SpaceEnds(s, i + 8, type0);
    QuotedMeans(s, type0);
    SpaceEnds(s, type1 + 1, name0);
    QuotedMeans(s, name0);
    SpaceEnds(s, name1 + 1, brace);
  }

  lemma FormFound(s: string, i: nat, word: char -> bool, type0: nat, type1: nat, name0: nat, name1: nat, brace: nat)
    requires HeaderForm(s, i, type0, type1, name0, name1, brace) && !(i > 0 && word(s[i - 1]))
    ensures HeaderAt(s, i, word) == Some(Header(s[type0 + 1..type1], s[name0 + 1..name1], brace))
  {
    hide AfterSpace, AfterQuoted, HeaderForm;
    FormParts(s, i, type0, type1, name0, name1, brace);
    assert RESOURCE == "resource";
    assert AfterQuoted(s, AfterSpace(s, i + 8)) == Some(type1 + 1);
  }

  lemma FoundForm(s: string, i: nat, word: char -> bool)
    requires i <= |s| && HeaderAt(s, i, word).Some?
    ensures var h := HeaderAt(s, i, word).value;
            && !(i > 0 && word(s[i - 1]))
            && exists type0: nat, type1: nat, name0: nat, name1: nat ::
                 && HeaderForm(s, i, type0, type1, name0, name1, h.opening)
                 && h.kind == s[type0 + 1..type1] && h.name == s[name0 + 1..name1]
  {
    hide HeaderForm;
    var h := HeaderAt(s, i, word).value;
    var type0 := AfterSpace(s, i + 8);
    var type1 := AfterQuoted(s, type0).value - 1;
    var name0 := AfterSpace(s, type1 + 1);
    var name1 := AfterQuoted(s, name0).value - 1;
    assert h == Header(s[type0 + 1..type1], s[name0 + 1..name1], AfterSpace(s, name1 + 1));
    FormStands(s, i, type0, type1, name0, name1, h.opening);
  }

  lemma FormStands(s: string, i: nat, type0: nat, type1: nat, name0: nat, name1: nat, brace: nat)
    requires i + 8 <= |s| && s[i..i + 8] == "resource" && type0 == AfterSpace(s, i + 8) && type0 != i + 8
    requires AfterQuoted(s, type0) == Some(type1 + 1) && name0 == AfterSpace(s, type1 + 1) && name0 != type1 + 1
    requires AfterQuoted(s, name0) == Some(name1 + 1) && brace == AfterSpace(s, name1 + 1)
    requires brace < |s| && s[brace] == '{'
    ensures HeaderForm(s, i, type0, type1, name0, name1, brace)
  {
    hide AfterSpace, AfterQuoted, IsPySpace, SpaceRun, QuotedRun;
    SpaceStops(s, i + 8);
    QuotedMeans(s, type0);
    SpaceStops(s, type1 + 1);
    QuotedMeans(s, name0);
    SpaceStops(s, name1 + 1);
  }
}
