/**
 * What the scanners do to each construct of their languages, on the text itself
 * (architecture_data_observer.py, architecture_dependency_observer.py, architecture_deployment_observer.py).
 */
module LexerTerms {
  import opened Masking
  import SqlScanner

  // ---------- stretches up to an end mark

  /** The mark does not occur in the text followed by the mark before the end of the text. */
  predicate EndsFirstWith(body: string, mark: string)
  {
    forall k :: 0 <= k < |body| ==> !(mark <= (body + mark)[k..])
  }

  predicate Lacks(body: string, mark: string)
  {
    forall k :: 0 <= k < |body| ==> !(mark <= body[k..])
  }

  /** In this state everything is blanked until the mark, which is blanked as well. */
  ghost predicate BlanksUntil<S(!new)>(read: Reader<S>, state: S, mark: string, after: S)
  {
    && |mark| > 0
    && forall s: string :: |s| > 0 ==>
         read(state, s) == if mark <= s then Token(|mark|, false, after) else Token(1, false, state)
  }

  lemma BlankAllJoins(a: string, b: string)
    ensures BlankAll(a + b) == BlankAll(a) + BlankAll(b)
  {
  }

  /** The mark is not at the front while there is still text before it. */
  lemma NotYet(body: string, mark: string, rest: string)
    requires EndsFirstWith(body, mark) && |body| > 0
    ensures !(mark <= body + (mark + rest)) && EndsFirstWith(body[1..], mark)
  {
    var tail := body[1..];
    assert (body + mark)[0..] == body + mark;
    assert (body + (mark + rest))[..|mark|] == (body + mark)[..|mark|];
    forall k | 0 <= k < |tail| ensures !(mark <= (tail + mark)[k..]) {
      assert (tail + mark)[k..] == (body + mark)[k + 1..];
    }
  }

  lemma LacksTail(body: string, mark: string)
    requires Lacks(body, mark) && |body| > 0
    ensures !(mark <= body) && Lacks(body[1..], mark)
  {
    var tail := body[1..];
    assert body[0..] == body;
    forall k | 0 <= k < |tail| ensures !(mark <= tail[k..]) {
      assert tail[k..] == body[k + 1..];
    }
  }

  /** Reading one token. */
  lemma OneToken<S(!new)>(read: Reader<S>, state: S, head: string, rest: string, kept: bool, after: S)
    requires Scans(read) && |head| > 0 && read(state, head + rest) == Token(|head|, kept, after)
    ensures Scan(read, state, head + rest) == (if kept then head else BlankAll(head)) + Scan(read, after, rest)
  {
    assert (head + rest)[..|head|] == head && (head + rest)[|head|..] == rest;
  }

  lemma FirstOf(body: string, rest: string)
    requires |body| > 0
    ensures body + rest == [body[0]] + (body[1..] + rest) && BlankAll(body) == BlankAll([body[0]]) + BlankAll(body[1..])
  {
    assert body == [body[0]] + body[1..];
  }

  lemma {:induction false} StretchBlanked<S(!new)>(
    read: Reader<S>, state: S, body: string, mark: string, after: S, rest: string)
    requires Scans(read) && BlanksUntil(read, state, mark, after) && EndsFirstWith(body, mark)
    ensures Scan(read, state, body + (mark + rest)) == BlankAll(body) + (BlankAll(mark) + Scan(read, after, rest))
    decreases |body|
  {
    hide Scan, Scans, EndsFirstWith, BlankAll;
    if |body| == 0 {
      assert body + (mark + rest) == mark + rest && mark <= mark + rest;
      OneToken(read, state, mark, rest, false, after);
      NothingBlank(body);
    } else {
      var tail := body[1..];
      NotYet(body, mark, rest);
      FirstOf(body, mark + rest);
      OneToken(read, state, [body[0]], tail + (mark + rest), false, state);
      StretchBlanked(read, state, tail, mark, after, rest);
      Regroup(BlankAll([body[0]]), BlankAll(tail), BlankAll(mark) + Scan(read, after, rest));
    }
  }

  lemma NothingBlank(body: string)
    requires |body| == 0
    ensures forall s: string :: BlankAll(body) + s == s
  {
  }

  lemma {:induction false} StretchUnended<S(!new)>(read: Reader<S>, state: S, body: string, mark: string, after: S)
    requires Scans(read) && BlanksUntil(read, state, mark, after) && Lacks(body, mark)
    ensures Scan(read, state, body) == BlankAll(body)
    decreases |body|
  {
    if |body| > 0 {
      hide Scan, Scans, Lacks, BlankAll;
      LacksTail(body, mark);
      FirstOf(body, "");
      assert [body[0]] + (body[1..] + "") == [body[0]] + body[1..] && body + "" == body;
      OneToken(read, state, [body[0]], body[1..], false, state);
      StretchUnended(read, state, body[1..], mark, after);
    }
  }

  // ---------- SQL

  /** What masking makes of a text. */
  ghost function MaskedSql(text: string): string
  {
    SqlScanner.SqlScans();
    Scan(SqlScanner.ReadSql, SqlScanner.Code, text)
  }

  /** The name between the dollar signs of a quote: empty, or an identifier. */
  predicate QuoteName(name: string)
  {
    && (forall c <- name :: 'a' <= c <= 'z' || 'A' <= c <= 'Z' || '0' <= c <= '9' || c == '_')
    && (|name| > 0 ==> !('0' <= name[0] <= '9'))
  }

  /** A construct that is blanked starts here. */
  ghost predicate SqlOpens(s: string)
  {
    "--" <= s || "/*" <= s || "'" <= s || exists name :: QuoteName(name) && "$" + name + "$" <= s
  }

  lemma {:induction false} TagEndsAt(s: string, i: nat, e: nat)
    requires i <= e < |s| && (forall k :: i <= k < e ==> SqlScanner.TagChar(s[k])) && !SqlScanner.TagChar(s[e])
    ensures SqlScanner.TagEnd(s, i) == e
    decreases e - i
  {
    if i < e { TagEndsAt(s, i + 1, e); }
  }

  /** A dollar quote opens with its tag. */
  lemma TagOpens(name: string, rest: string)
    requires QuoteName(name)
    ensures SqlScanner.TagLength("$" + name + "$" + rest) == |name| + 2
  {
    var s := "$" + name + "$" + rest;
    assert s[0] == '$' && s[|name| + 1] == '$' && forall k :: 0 <= k < |name| ==> s[k + 1] == name[k];
    forall k | 0 <= k < |name| ensures SqlScanner.TagChar(name[k]) { assert name[k] in name; }
    if |name| > 0 {
      assert s[1] == name[0] && name[0] in name && SqlScanner.TagStart(s[1]);
      TagEndsAt(s, 2, |name| + 1);
    }
  }

  /** Where no tag opens, none is read. */
  lemma TagRead(s: string)
    ensures SqlScanner.TagLength(s) > 0 <==> exists name :: QuoteName(name) && "$" + name + "$" <= s
  {
    var n := SqlScanner.TagLength(s);
    if n > 0 {
      var name := s[1..n - 1];
      assert QuoteName(name) by {
        forall c | c in name ensures SqlScanner.TagChar(c) {
          var k :| 0 <= k < |name| && name[k] == c;
          assert s[k + 1] == c;
          TagInside(s, k + 1);
        }
        if |name| > 0 { assert name[0] == s[1]; }
      }
      TagEnds(s);
      assert "$" + name + "$" == s[..n];
    }
    if name :| QuoteName(name) && "$" + name + "$" <= s {
      var tag := "$" + name + "$";
      assert s == tag + s[|tag|..];
      TagOpens(name, s[|tag|..]);
    }
  }

  lemma TagInside(s: string, k: nat)
    requires 1 <= k < SqlScanner.TagLength(s) - 1
    ensures SqlScanner.TagChar(s[k])
  {
  }

  lemma TagEnds(s: string)
    requires SqlScanner.TagLength(s) > 0
    ensures var n := SqlScanner.TagLength(s); s[0] == '$' && s[n - 1] == '$' && n >= 2
  {
  }

  /** Any other character of code is kept. */
  lemma SqlKeeps(c: char, rest: string)
    requires !SqlOpens([c] + rest)
    ensures MaskedSql([c] + rest) == [c] + MaskedSql(rest)
  {
    SqlScanner.SqlScans();
    TagRead([c] + rest);
    assert [c] <= [c] + rest;
    hide SqlScanner.TagLength;
    OneToken(SqlScanner.ReadSql, SqlScanner.Code, [c], rest, true, SqlScanner.Code);
  }

  /** A line comment is blanked up to its newline, which stays, or to the end of the text. */
  lemma SqlLineComment(body: string, rest: string)
    requires '\n' !in body
    ensures MaskedSql("--" + (body + ("\n" + rest))) == Spaces(2 + |body|) + ("\n" + MaskedSql(rest))
    ensures MaskedSql("--" + body) == Spaces(2 + |body|)
  {
    hide Scan, BlankAll, Spaces;
    LineCommentEnds();
    NoNewline(body);
    StretchBlanked(SqlScanner.ReadSql, SqlScanner.LineComment, body, "\n", SqlScanner.Code, rest);
    StretchUnended(SqlScanner.ReadSql, SqlScanner.LineComment, body, "\n", SqlScanner.Code);
    SqlOpening("--", body + ("\n" + rest), SqlScanner.LineComment);
    SqlOpening("--", body, SqlScanner.LineComment);
    BlankedLine(body);
    Regroup(Spaces(2), Spaces(|body|), "\n" + MaskedSql(rest));
  }

  lemma LineCommentEnds()
    ensures Scans(SqlScanner.ReadSql)
    ensures BlanksUntil(SqlScanner.ReadSql, SqlScanner.LineComment, "\n", SqlScanner.Code)
  {
    SqlScanner.SqlScans();
    forall s: string | |s| > 0 ensures "\n" <= s <==> s[0] == '\n' {}
  }

  lemma NoNewline(body: string)
    requires '\n' !in body
    ensures EndsFirstWith(body, "\n") && Lacks(body, "\n")
  {
    forall k | 0 <= k < |body| ensures !("\n" <= (body + "\n")[k..]) && !("\n" <= body[k..]) {
      assert (body + "\n")[k..][0] == body[k] && body[k..][0] == body[k] && body[k] in body;
    }
  }

  lemma BlankedLine(body: string)
    requires '\n' !in body
    ensures BlankAll(body) == Spaces(|body|) && BlankAll("\n") == "\n"
    ensures Spaces(2) + Spaces(|body|) == Spaces(2 + |body|)
  {
  }

  /** The two-character openings of comments. */
  lemma SqlOpening(opening: string, rest: string, state: SqlScanner.SqlState)
    requires || (opening == "--" && state == SqlScanner.LineComment)
             || (opening == "/*" && state == SqlScanner.BlockComment)
    ensures Scans(SqlScanner.ReadSql)
    ensures MaskedSql(opening + rest) == Spaces(2) + Scan(SqlScanner.ReadSql, state, rest)
  {
    SqlScanner.SqlScans();
    var s := opening + rest;
    assert opening <= s && s[0] == opening[0] && s[1] == opening[1];
    hide SqlScanner.TagLength;
    assert SqlScanner.ReadSql(SqlScanner.Code, s) == Token(2, false, state);
    assert BlankAll(opening) == Spaces(2);
    OneToken(SqlScanner.ReadSql, SqlScanner.Code, opening, rest, false, state);
  }

  /** A block comment is blanked up to its first end, or to the end of the text; its newlines stay. */
  lemma SqlBlockComment(body: string, rest: string)
    ensures EndsFirstWith(body, "*/") ==>
              MaskedSql("/*" + (body + ("*/" + rest))) == Spaces(2) + (BlankAll(body) + (Spaces(2) + MaskedSql(rest)))
    ensures Lacks(body, "*/") ==> MaskedSql("/*" + body) == Spaces(2) + BlankAll(body)
  {
    hide Scan, BlankAll, Spaces, EndsFirstWith, Lacks;
    BlockCommentEnds();
    if EndsFirstWith(body, "*/") {
      StretchBlanked(SqlScanner.ReadSql, SqlScanner.BlockComment, body, "*/", SqlScanner.Code, rest);
      SqlOpening("/*", body + ("*/" + rest), SqlScanner.BlockComment);
    }
    if Lacks(body, "*/") {
      StretchUnended(SqlScanner.ReadSql, SqlScanner.BlockComment, body, "*/", SqlScanner.Code);
      SqlOpening("/*", body, SqlScanner.BlockComment);
    }
  }

  lemma BlockCommentEnds()
    ensures Scans(SqlScanner.ReadSql) && BlankAll("*/") == Spaces(2)
    ensures BlanksUntil(SqlScanner.ReadSql, SqlScanner.BlockComment, "*/", SqlScanner.Code)
  {
    SqlScanner.SqlScans();
  }

  /** A dollar quote is blanked from its tag to the next same tag, or to the end of the text. */
  lemma SqlDollarQuote(name: string, body: string, rest: string)
    requires QuoteName(name)
    ensures var tag := "$" + name + "$";
            && (EndsFirstWith(body, tag) ==>
                  MaskedSql(tag + (body + (tag + rest)))
                  == Spaces(|tag|) + (BlankAll(body) + (Spaces(|tag|) + MaskedSql(rest))))
            && (Lacks(body, tag) ==> MaskedSql(tag + body) == Spaces(|tag|) + BlankAll(body))
  {
    var tag := "$" + name + "$";
    DollarEnds(tag);
    BlankedTag(name);
    hide Scan, BlankAll, Spaces, EndsFirstWith, Lacks, QuoteName;
    if EndsFirstWith(body, tag) {
      StretchBlanked(SqlScanner.ReadSql, SqlScanner.Dollar(tag), body, tag, SqlScanner.Code, rest);
      TagIsRead(name, body + (tag + rest));
    }
    if Lacks(body, tag) {
      StretchUnended(SqlScanner.ReadSql, SqlScanner.Dollar(tag), body, tag, SqlScanner.Code);
      TagIsRead(name, body);
    }
  }

  lemma DollarEnds(tag: string)
    requires |tag| > 0
    ensures Scans(SqlScanner.ReadSql)
    ensures BlanksUntil(SqlScanner.ReadSql, SqlScanner.Dollar(tag), tag, SqlScanner.Code)
  {
    SqlScanner.SqlScans();
  }

  lemma BlankedTag(name: string)
    requires QuoteName(name)
    ensures var tag := "$" + name + "$"; BlankAll(tag) == Spaces(|tag|)
  {
    var tag := "$" + name + "$";
    forall k | 0 <= k < |tag| ensures tag[k] != '\n' {
      if 0 < k < |tag| - 1 { assert tag[k] == name[k - 1] && name[k - 1] in name; }
    }
  }

  lemma TagIsRead(name: string, rest: string)
    requires QuoteName(name)
    ensures Scans(SqlScanner.ReadSql)
    ensures var tag := "$" + name + "$";
            MaskedSql(tag + rest) == Spaces(|tag|) + Scan(SqlScanner.ReadSql, SqlScanner.Dollar(tag), rest)
  {
    var tag := "$" + name + "$";
    SqlScanner.SqlScans();
    TagOpens(name, rest);
    BlankedTag(name);
    assert tag + rest == "$" + name + "$" + rest;
    assert (tag + rest)[0] == '$' && (tag + rest)[..|tag|] == tag;
    hide SqlScanner.TagLength;
    OneToken(SqlScanner.ReadSql, SqlScanner.Code, tag, rest, false, SqlScanner.Dollar(tag));
  }

  /** A text as it is written between single quotes: every quote in it doubled. */
  function Doubled(content: string): string
  {
    if |content| == 0 then ""
    else (if content[0] == '\'' then "''" else [content[0]]) + Doubled(content[1..])
  }

  lemma LiteralToken(c: char, rest: string)
    ensures Scans(SqlScanner.ReadSql)
    ensures var head := if c == '\'' then "''" else [c];
            Scan(SqlScanner.ReadSql, SqlScanner.Literal, head + rest)
            == BlankAll(head) + Scan(SqlScanner.ReadSql, SqlScanner.Literal, rest)
  {
    var head := if c == '\'' then "''" else [c];
    SqlScanner.SqlScans();
    assert (head + rest)[0] == c;
    assert c == '\'' ==> "''" <= head + rest;
    OneToken(SqlScanner.ReadSql, SqlScanner.Literal, head, rest, false, SqlScanner.Literal);
  }

  lemma LiteralCloses(rest: string)
    requires !("'" <= rest)
    ensures Scans(SqlScanner.ReadSql)
    ensures Scan(SqlScanner.ReadSql, SqlScanner.Literal, "'" + rest) == " " + MaskedSql(rest)
  {
    SqlScanner.SqlScans();
    assert BlankAll("'") == " " && ("'" + rest)[0] == '\'';
    assert ("'" + rest)[1..] == rest;
    OneToken(SqlScanner.ReadSql, SqlScanner.Literal, "'", rest, false, SqlScanner.Code);
  }

  /** Inside a literal: everything up to what follows is blanked. */
  lemma {:induction false} LiteralBlanked(content: string, rest: string)
    ensures Scans(SqlScanner.ReadSql)
    ensures Scan(SqlScanner.ReadSql, SqlScanner.Literal, Doubled(content) + rest)
            == BlankAll(Doubled(content)) + Scan(SqlScanner.ReadSql, SqlScanner.Literal, rest)
  {
    SqlScanner.SqlScans();
    if |content| == 0 {
      NothingBlank(Doubled(content));
      assert Doubled(content) + rest == rest;
    } else {
      var head, tail := if content[0] == '\'' then "''" else [content[0]], Doubled(content[1..]);
      assert Doubled(content) == head + tail;
      hide Doubled, Scan, BlankAll, SqlScanner.ReadSql;
      LiteralBlanked(content[1..], rest);
      LiteralToken(content[0], tail + rest);
      Regroup(head, tail, rest);
      BlankAllJoins(head, tail);
      Regroup(BlankAll(head), BlankAll(tail), Scan(SqlScanner.ReadSql, SqlScanner.Literal, rest));
    }
  }

  lemma LiteralOpens(rest: string)
    ensures Scans(SqlScanner.ReadSql)
    ensures MaskedSql("'" + rest) == " " + Scan(SqlScanner.ReadSql, SqlScanner.Literal, rest)
  {
    SqlScanner.SqlScans();
    assert BlankAll("'") == " " && ("'" + rest)[0] == '\'';
    OneToken(SqlScanner.ReadSql, SqlScanner.Code, "'", rest, false, SqlScanner.Literal);
  }

  /** A quoted literal is blanked to its closing quote, doubled quotes included, or to the end of the text. */
  lemma SqlLiteral(content: string, rest: string)
    ensures !("'" <= rest) ==>
              MaskedSql("'" + (Doubled(content) + ("'" + rest)))
              == " " + (BlankAll(Doubled(content)) + (" " + MaskedSql(rest)))
    ensures MaskedSql("'" + Doubled(content)) == " " + BlankAll(Doubled(content))
  {
    hide Doubled, BlankAll, SqlScanner.ReadSql;
    SqlScanner.SqlScans();
    LiteralBlanked(content, "'" + rest);
    LiteralBlanked(content, "");
    LiteralOpens(Doubled(content) + ("'" + rest));
    LiteralOpens(Doubled(content) + "");
    assert Doubled(content) + "" == Doubled(content);
    assert Scan(SqlScanner.ReadSql, SqlScanner.Literal, "") == "";
    hide Scan;
    if !("'" <= rest) { LiteralCloses(rest); }
  }
}
