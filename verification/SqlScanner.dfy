/** SQL masking and splitting into statements (architecture_data_observer.py). */
module SqlScanner {
  import opened Masking
  import opened AuditContracts

  datatype SqlState = Code | LineComment | BlockComment | Literal | Dollar(tag: string)

  predicate TagStart(c: char)
  {
    'A' <= c <= 'Z' || 'a' <= c <= 'z' || c == '_'
  }

  predicate TagChar(c: char)
  {
    TagStart(c) || '0' <= c <= '9'
  }

  /** The end of the longest run of tag characters from an index. */
  function TagEnd(s: string, i: nat): (e: nat)
    requires i <= |s|
    ensures i <= e <= |s| && (forall k :: i <= k < e ==> TagChar(s[k])) && (e < |s| ==> !TagChar(s[e]))
    decreases |s| - i
  {
    if i < |s| && TagChar(s[i]) then TagEnd(s, i + 1) else i
  }

  /** The length of a dollar-quote tag at the front: `$$`, or `$name$`. */
  function TagLength(s: string): (n: nat)
    ensures n <= |s| && n != 1 && forall k :: 0 <= k < n ==> s[k] == '$' || TagChar(s[k])
  {
    if |s| < 2 || s[0] != '$' then 0
    else if s[1] == '$' then 2
    else if !TagStart(s[1]) then 0
    else
      var e := TagEnd(s, 2);
      if e < |s| && s[e] == '$' then e + 1 else 0
  }

  /** One token of SQL: comments, literals and dollar-quoted bodies are blanked. */
  function ReadSql(state: SqlState, s: string): Token<SqlState>
  {
    if |s| == 0 then Token(1, true, state)
    else match state
      case Code =>
        if "--" <= s then Token(2, false, LineComment)
        else if "/*" <= s then Token(2, false, BlockComment)
        else if s[0] == '\'' then Token(1, false, Literal)
        else if TagLength(s) > 0 then Token(TagLength(s), false, Dollar(s[..TagLength(s)]))
        else Token(1, true, Code)
      case LineComment => Token(1, false, if s[0] == '\n' then Code else LineComment)
      case BlockComment => if "*/" <= s then Token(2, false, Code) else Token(1, false, BlockComment)
      case Dollar(tag) => if |tag| > 0 && tag <= s then Token(|tag|, false, Code) else Token(1, false, state)
      case Literal =>
        if "''" <= s then Token(2, false, Literal) else Token(1, false, if s[0] == '\'' then Code else Literal)
  }

  function SettleSql(state: SqlState): SqlState { Code }

  lemma SqlScans()
    ensures Scans(ReadSql)
  {
  }

  /** A tag that shows through a mask was there before. */
  lemma TagMasked(masked: string, s: string)
    requires Masks(masked, s)
    ensures TagLength(masked) > 0 ==> TagLength(s) == TagLength(masked)
  {
    var n := TagLength(masked);
    if n > 2 {
      assert forall k :: 0 <= k < n ==> s[k] == masked[k];
      var e, f := TagEnd(masked, 2), TagEnd(s, 2);
      assert (forall k :: 2 <= k < e ==> TagChar(s[k])) && !TagChar(s[e]);
    }
  }

  lemma SqlRereads(state: SqlState, s: string, rest: string)
    ensures RereadsToken(ReadSql, Code, SettleSql, state, s, rest)
  {
    if |s| > 0 && ReadSql(state, s).kept && Masks(rest, s[1..]) {
      var again := s[..1] + rest;
      assert again[0] == s[0];
      if |rest| > 0 {
        assert again[1] == rest[0];
      }
      assert Masks(again, s) by {
        assert s == s[..1] + s[1..];
        MasksJoin(s[..1], s[..1], rest, s[1..]);
      }
      TagMasked(again, s);
    }
  }

  lemma BlankCalm(c: char, rest: string)
    requires c == ' ' || c == '\n'
    ensures ReadSql(Code, [c] + rest) == Token(1, true, Code)
  {
    assert ([c] + rest)[0] == c;
    NoTag([c] + rest);
    hide TagLength;
  }

  /** Masking keeps every position and line, and masking again changes nothing. */
  lemma MaskSqlTwice(text: string)
    ensures Scans(ReadSql) && Masks(Scan(ReadSql, Code, text), text)
    ensures Scan(ReadSql, Code, Scan(ReadSql, Code, text)) == Scan(ReadSql, Code, text)
  {
    SqlScans();
    ScanMasks(ReadSql, Code, text);
    forall c: char, rest: string | c == ' ' || c == '\n' ensures ReadSql(Code, [c] + rest) == Token(1, true, Code) {
      BlankCalm(c, rest);
    }
    forall state, s, rest ensures RereadsToken(ReadSql, Code, SettleSql, state, s, rest) {
      SqlRereads(state, s, rest);
    }
    ScanTwice(ReadSql, SqlState.Code, SettleSql, SqlState.Code, text);
  }

  lemma SqlToken(text: string, index: nat, state: SqlState, next: string)
    requires index < |text| && next == if index + 1 < |text| then text[index + 1..index + 2] else ""
    requires state.Dollar? ==> |state.tag| > 0 && '\n' !in state.tag
    ensures var c, t := text[index], ReadSql(state, text[index..]);
            && index + t.size <= |text|
            && match state
               case Code =>
                 var n := TagLength(text[index..]);
                 if c == '-' && next == "-" then t == Token(2, false, LineComment) && Piece(t, text, index) == "  "
                 else if c == '/' && next == "*" then t == Token(2, false, BlockComment)
                   && Piece(t, text, index) == "  "
                 else if c == '\'' then t == Token(1, false, Literal) && Piece(t, text, index) == " "
                 else if c == '$' && n > 0 then
                   && index + n <= |text| && t == Token(n, false, Dollar(text[index..index + n]))
                   && Piece(t, text, index) == Spaces(n) && '\n' !in text[index..index + n]
                 else t == Token(1, true, Code) && Piece(t, text, index) == [c]
               case LineComment => t == Token(1, false, if c == '\n' then Code else LineComment)
                 && Piece(t, text, index) == [Blank(c)]
               case BlockComment =>
                 if c == '*' && next == "/" then t == Token(2, false, Code) && Piece(t, text, index) == "  "
                 else t == Token(1, false, BlockComment) && Piece(t, text, index) == [Blank(c)]
               case Dollar(tag) =>
                 if tag <= text[index..] then t == Token(|tag|, false, Code) && Piece(t, text, index) == Spaces(|tag|)
                 else t == Token(1, false, state) && Piece(t, text, index) == [Blank(c)]
               case Literal =>
                 if c == '\'' && next == "'" then t == Token(2, false, Literal) && Piece(t, text, index) == "  "
                 else if c == '\'' then t == Token(1, false, Code) && Piece(t, text, index) == " "
                 else t == Token(1, false, Literal) && Piece(t, text, index) == [Blank(c)]
  {
    hide Scans, TagLength;
    if state.Code? && text[index] == '$' {
      TagToken(text, index);
    } else if state.Dollar? {
      hide ReadSql;
      DollarToken(text, index, state.tag);
    } else {
      hide TagChar, TagStart;
      Lookahead(text, index, next);
      if next != "" { BlankShort(text[index], next[0]); }
      BlankShort(text[index], ' ');
      NoTag(text[index..]);
    }
  }

  lemma NoTag(s: string)
    ensures |s| > 0 && s[0] != '$' ==> TagLength(s) == 0
  {
  }

  lemma TagToken(text: string, index: nat)
    requires index < |text| && text[index] == '$'
    ensures var n, t := TagLength(text[index..]), ReadSql(Code, text[index..]);
            if n > 0 then
              && index + n <= |text| && t == Token(n, false, Dollar(text[index..index + n]))
              && Piece(t, text, index) == Spaces(n) && '\n' !in text[index..index + n]
            else t == Token(1, true, Code) && Piece(t, text, index) == [text[index]]
  {
    var rest := text[index..];
    var n := TagLength(rest);
    assert rest[0] == '$';
    assert rest[..n] == text[index..index + n];
    assert forall k :: 0 <= k < n ==> text[index..index + n][k] == rest[k];
    BlankedTag(text[index..index + n]);
    assert text[index..index + 1] == [text[index]];
  }

  lemma DollarToken(text: string, index: nat, tag: string)
    requires index < |text| && |tag| > 0 && '\n' !in tag
    ensures var t := ReadSql(Dollar(tag), text[index..]);
            if tag <= text[index..] then
              index + |tag| <= |text| && t == Token(|tag|, false, Code) && Piece(t, text, index) == Spaces(|tag|)
            else t == Token(1, false, Dollar(tag)) && Piece(t, text, index) == [Blank(text[index])]
  {
    var rest := text[index..];
    if tag <= rest {
      assert rest[..|tag|] == tag && rest[..|tag|] == text[index..index + |tag|];
      BlankedTag(tag);
    } else {
      assert text[index..index + 1] == [text[index]];
      BlankShort(text[index], ' ');
    }
  }

  lemma BlankedTag(tag: string)
    requires '\n' !in tag
    ensures BlankAll(tag) == Spaces(|tag|)
  {
  }

  /** _mask_sql */
  method MaskSql(text: string) returns (output: string)
    ensures Scans(ReadSql) && output == Scan(ReadSql, Code, text)
  {
    SqlScans();
    hide *;
    output := "";
    var index, state, dollarTag := 0, SqlState.Code, "";
    Begin(ReadSql, SqlState.Code, text);
    while index < |text|
      invariant state.Dollar? ==> state.tag == dollarTag && |dollarTag| > 0 && '\n' !in dollarTag
      invariant index <= |text| && Progress(ReadSql, Code, text, output, state, index)
      decreases |text| - index
    {
      var c := text[index];
      var next := if index + 1 < |text| then text[index + 1..index + 2] else "";
      Advance(ReadSql, SqlState.Code, text, output, state, index);
      SqlToken(text, index, state, next);
      if state.Code? {
        if c == '-' && next == "-" {
          output, index, state := output + "  ", index + 2, LineComment;
          continue;
        }
        if c == '/' && next == "*" {
          output, index, state := output + "  ", index + 2, BlockComment;
          continue;
        }
        if c == '\'' {
          output, index, state := output + " ", index + 1, Literal;
          continue;
        }
        if c == '$' {
          var n := TagLength(text[index..]);
          if n > 0 {
            dollarTag := text[index..index + n];
            output, index, state := output + Spaces(n), index + n, Dollar(dollarTag);
            continue;
          }
        }
        output, index := output + [c], index + 1;
        continue;
      }
      if state.LineComment? {
        output := output + [Blank(c)];
        if c == '\n' {
          state := Code;
        }
        index := index + 1;
        continue;
      }
      if state.BlockComment? {
        if c == '*' && next == "/" {
          output, index, state := output + "  ", index + 2, Code;
          continue;
        }
        output, index := output + [Blank(c)], index + 1;
        continue;
      }
      if state.Dollar? {
        if dollarTag <= text[index..] {
          output, index := output + Spaces(|dollarTag|), index + |dollarTag|;
          dollarTag, state := "", Code;
          continue;
        }
        output, index := output + [Blank(c)], index + 1;
        continue;
      }
      if c == '\'' && next == "'" {
        output, index := output + "  ", index + 2;
        continue;
      }
      if c == '\'' {
        output, index, state := output + " ", index + 1, Code;
        continue;
      }
      output, index := output + [Blank(c)], index + 1;
    }
    Finish(ReadSql, SqlState.Code, text, output, state);
  }

  // ---------- statements

  /** Consecutive pieces [from, to) of a text, each up to the next semicolon, the next one starting at `start`. */
  ghost predicate Chain(s: string, pieces: seq<(nat, nat)>, start: nat)
  {
    && (if |pieces| == 0 then start == 0 else pieces[0].0 == 0 && start == pieces[|pieces| - 1].1 + 1)
    && (forall i :: 0 <= i < |pieces| ==>
          pieces[i].0 <= pieces[i].1 < |s| && s[pieces[i].1] == ';' && ';' !in s[pieces[i].0..pieces[i].1])
    && (forall i :: 0 < i < |pieces| ==> pieces[i].0 == pieces[i - 1].1 + 1)
  }

  /** All pieces of a text between its semicolons: the last one reaches the end. */
  ghost predicate IsSplit(s: string, pieces: seq<(nat, nat)>)
  {
    && |pieces| > 0
    && Chain(s, pieces[..|pieces| - 1], pieces[|pieces| - 1].0)
    && pieces[|pieces| - 1].0 <= pieces[|pieces| - 1].1 == |s|
    && ';' !in s[pieces[|pieces| - 1].0..]
  }

  /** The stripped pieces that are not blank, each with the line of `text` on which its piece starts. */
  ghost function Statements(s: string, text: string, pieces: seq<(nat, nat)>): seq<(string, nat)>
    requires |s| == |text| && Within(s, pieces)
  {
    if |pieces| == 0 then []
    else
      var (from, to) := pieces[|pieces| - 1];
      Statements(s, text, pieces[..|pieces| - 1])
      + (if Strip(s[from..to]) == "" then [] else [(Strip(s[from..to]), 1 + Newlines(text[..from]))])
  }

  ghost predicate Within(s: string, pieces: seq<(nat, nat)>)
  {
    forall i :: 0 <= i < |pieces| ==> pieces[i].0 <= pieces[i].1 <= |s|
  }

  lemma ChainStep(s: string, text: string, pieces: seq<(nat, nat)>, start: nat, to: nat)
    requires |s| == |text| && Chain(s, pieces, start) && start <= to < |s| && s[to] == ';' && ';' !in s[start..to]
    ensures Within(s, pieces) && Chain(s, pieces + [(start, to)], to + 1) && Within(s, pieces + [(start, to)])
    ensures Statements(s, text, pieces + [(start, to)]) == Statements(s, text, pieces)
              + (if Strip(s[start..to]) == "" then [] else [(Strip(s[start..to]), 1 + Newlines(text[..start]))])
  {
    hide Strip, Newlines;
    ChainGrows(s, pieces, start, to);
    hide Chain;
    assert (pieces + [(start, to)])[..|pieces|] == pieces;
  }

  lemma ChainGrows(s: string, pieces: seq<(nat, nat)>, start: nat, to: nat)
    requires Chain(s, pieces, start) && start <= to < |s| && s[to] == ';' && ';' !in s[start..to]
    ensures Within(s, pieces) && Chain(s, pieces + [(start, to)], to + 1) && Within(s, pieces + [(start, to)])
  {
    var more := pieces + [(start, to)];
    assert forall i :: 0 <= i < |pieces| ==> more[i] == pieces[i];
  }

  lemma ChainEnd(s: string, text: string, pieces: seq<(nat, nat)>, start: nat)
    requires |s| == |text| && Chain(s, pieces, start) && start <= |s| && ';' !in s[start..]
    ensures Within(s, pieces) && IsSplit(s, pieces + [(start, |s|)]) && Within(s, pieces + [(start, |s|)])
    ensures Statements(s, text, pieces + [(start, |s|)]) == Statements(s, text, pieces)
              + (if Strip(s[start..]) == "" then [] else [(Strip(s[start..]), 1 + Newlines(text[..start]))])
  {
    hide Strip, Newlines;
    assert (pieces + [(start, |s|)])[..|pieces|] == pieces;
    assert s[start..] == s[start..|s|];
  }

  lemma ChainNone(s: string, text: string)
    requires |s| == |text|
    ensures Chain(s, [], 0) && Within(s, []) && Statements(s, text, []) == []
  {
  }

  /** These are the statements of a masked text: of its pieces, the non-blank ones. */
  ghost predicate AreStatements(result: seq<(string, nat)>, s: string, text: string, pieces: seq<(nat, nat)>)
  {
    |s| == |text| && IsSplit(s, pieces) && Within(s, pieces) && result == Statements(s, text, pieces)
  }

  /** _sql_statements */
  method SqlStatements(text: string) returns (result: seq<(string, nat)>)
    ensures Scans(ReadSql) && exists pieces :: AreStatements(result, Scan(ReadSql, Code, text), text, pieces)
  {
    MaskSqlTwice(text);
    var cleaned := MaskSql(text);
    hide Masks, Scan, Scans, ReadSql;
    result := SplitStatements(cleaned, text);
  }

  /** The loop of _sql_statements over the masked text. */
  method SplitStatements(cleaned: string, ghost text: string) returns (result: seq<(string, nat)>)
    requires Masks(cleaned, text)
    ensures exists pieces :: AreStatements(result, cleaned, text, pieces)
  {
    hide Masks, Strip, Newlines, Chain, IsSplit, Within, Statements;
    result := [];
    ghost var pieces: seq<(nat, nat)> := [];
    var start, line, startLine := 0, 1, 1;
    SameLength(cleaned, text);
    NewlinesNone(text);
    ChainNone(cleaned, text);
    for index := 0 to |cleaned|
      invariant start <= index && Chain(cleaned, pieces, start) && Within(cleaned, pieces)
      invariant ';' !in cleaned[start..index]
      invariant line == startLine == 1 + Newlines(text[..start])
      invariant result == Statements(cleaned, text, pieces)
    {
      if cleaned[index] == ';' {
        var statement := Strip(cleaned[start..index]);
        if statement != "" {
          result := result + [(statement, startLine)];
        }
        ChainStep(cleaned, text, pieces, start, index);
        pieces := pieces + [(start, index)];
        LinesOver(cleaned, text, start, index + 1);
        line := line + Newlines(cleaned[start..index + 1]);
        start := index + 1;
        startLine := line;
      } else {
        assert cleaned[start..index + 1] == cleaned[start..index] + [cleaned[index]];
      }
    }
    assert cleaned[start..] == cleaned[start..|cleaned|];
    ChainEnd(cleaned, text, pieces, start);
    var tail := Strip(cleaned[start..]);
    if tail != "" {
      result := result + [(tail, startLine)];
    }
    pieces := pieces + [(start, |cleaned|)];
    assert AreStatements(result, cleaned, text, pieces);
  }

  /** The start of piece `i`, and what delimits it. */
  lemma PieceAt(s: string, pieces: seq<(nat, nat)>, i: nat)
    requires IsSplit(s, pieces) && i < |pieces|
    ensures pieces[i].0 == if i == 0 then 0 else pieces[i - 1].1 + 1
    ensures pieces[i].0 <= pieces[i].1 <= |s| && forall k :: pieces[i].0 <= k < pieces[i].1 ==> s[k] != ';'
    ensures if i == |pieces| - 1 then pieces[i].1 == |s| else pieces[i].1 < |s| && s[pieces[i].1] == ';'
  {
    var (from, to) := pieces[i];
    var init := pieces[..|pieces| - 1];
    assert i < |pieces| - 1 ==> init[i] == pieces[i];
    assert 0 < i ==> init[i - 1] == pieces[i - 1];
    forall k | from <= k < to ensures s[k] != ';' {
      if i == |pieces| - 1 { assert s[from..][k - from] == s[k]; }
      else { assert s[from..to][k - from] == s[k]; }
    }
  }

  lemma {:induction false} PiecesAgree(s: string, p: seq<(nat, nat)>, q: seq<(nat, nat)>, i: nat)
    requires IsSplit(s, p) && IsSplit(s, q) && i < |p| && i < |q|
    ensures p[i] == q[i] && (i == |p| - 1 <==> i == |q| - 1)
  {
    PieceAt(s, p, i);
    PieceAt(s, q, i);
    if i > 0 {
      PiecesAgree(s, p, q, i - 1);
    }
    hide IsSplit;
    assert p[i].0 == q[i].0;
  }

  /** There is only one way to split a text, so there is only one list of statements. */
  lemma SplitUnique(s: string, p: seq<(nat, nat)>, q: seq<(nat, nat)>)
    requires IsSplit(s, p) && IsSplit(s, q)
    ensures p == q
  {
    var n := if |p| < |q| then |p| else |q|;
    forall i | 0 <= i < n ensures p[i] == q[i] {
      PiecesAgree(s, p, q, i);
    }
    PiecesAgree(s, p, q, n - 1);
  }

  lemma SameLength(masked: string, text: string)
    requires Masks(masked, text)
    ensures |masked| == |text|
  {
  }

  lemma NewlinesNone(text: string)
    ensures Newlines(text[..0]) == 0
  {
  }

  /** Counting line feeds over a stretch of the mask counts those of the text. */
  lemma LinesOver(masked: string, text: string, from: nat, to: nat)
    requires Masks(masked, text) && from <= to <= |text|
    ensures Newlines(text[..to]) == Newlines(text[..from]) + Newlines(masked[from..to])
  {
    MaskKeepsLines(masked, text, from);
    MaskKeepsLines(masked, text, to);
    assert masked[..to] == masked[..from] + masked[from..to];
    NewlinesJoin(masked[..from], masked[from..to]);
  }

  /** How many characters str.strip removes at the front. */
  function Lead(s: string): (n: nat)
    ensures n <= |s| && (forall k :: 0 <= k < n ==> IsPySpace(s[k])) && (n < |s| ==> !IsPySpace(s[n]))
  {
    if |s| > 0 && IsPySpace(s[0]) then 1 + Lead(s[1..]) else 0
  }

  /** A statement starts right after the blank front of its piece. */
  lemma {:induction false} StripStart(s: string)
    requires Strip(s) != ""
    ensures Lead(s) < |s| && Strip(s)[0] == s[Lead(s)] && !IsPySpace(s[Lead(s)])
    decreases |s|
  {
    hide IsPySpace;
    if |s| > 0 && IsPySpace(s[0]) {
      StripStart(s[1..]);
    } else if |s| > 0 && IsPySpace(s[|s| - 1]) {
      StripStart(s[..|s| - 1]);
    }
  }

  lemma {:induction false} NoNewlinesIff(s: string)
    ensures Newlines(s) == 0 <==> '\n' !in s
  {
    if |s| > 0 {
      NoNewlinesIff(s[..|s| - 1]);
      assert s == s[..|s| - 1] + [s[|s| - 1]];
    }
  }

  /**
   * The line reported for a statement is the line of its piece. It is the line of the statement
   * itself, whose first character the text has unmasked, exactly when the text has no line feed
   * between the end of the previous piece and that character.
   */
  lemma StatementLineIff(cleaned: string, text: string, from: nat, to: nat)
    requires Masks(cleaned, text) && from <= to <= |text|
    requires Strip(cleaned[from..to]) != ""
    ensures var front := Lead(cleaned[from..to]);
            && from + front < to <= |cleaned|
            && text[from + front] == cleaned[from + front] == Strip(cleaned[from..to])[0]
            && (1 + Newlines(text[..from]) == 1 + Newlines(text[..from + front]) <==> '\n' !in text[from..from + front])
  {
    hide Masks, Strip;
    SameLength(cleaned, text);
    StripStart(cleaned[from..to]);
    var front := Lead(cleaned[from..to]);
    LinesOver(cleaned, text, from, from + front);
    NoNewlinesIff(cleaned[from..from + front]);
    FirstIsKept(cleaned, text, from + front);
    SameNewlines(cleaned, text, from, from + front);
  }

  lemma FirstIsKept(cleaned: string, text: string, j: nat)
    requires Masks(cleaned, text) && j < |text| && cleaned[j] != ' '
    ensures text[j] == cleaned[j]
  {
  }

  lemma SameNewlines(cleaned: string, text: string, from: nat, to: nat)
    requires Masks(cleaned, text) && from <= to <= |text|
    ensures '\n' in cleaned[from..to] <==> '\n' in text[from..to]
  {
    if '\n' in text[from..to] {
      var j :| from <= j < to && text[j] == '\n';
      assert cleaned[from..to][j - from] == '\n';
    }
    if '\n' in cleaned[from..to] {
      var j :| from <= j < to && cleaned[j] == '\n';
      assert text[from..to][j - from] == '\n';
    }
  }

  lemma {:induction false} NothingToMask(text: string)
    requires '-' !in text && '/' !in text && '\'' !in text && '$' !in text
    ensures Scans(ReadSql) && Scan(ReadSql, Code, text) == text
    decreases |text|
  {
    SqlScans();
    if |text| > 0 {
      NothingToMask(text[1..]);
      NoTag(text);
      assert text[0] in text;
      hide TagLength;
      assert ReadSql(Code, text) == Token(1, true, Code);
      assert text == text[..1] + text[1..];
    }
  }

  lemma ExampleText()
    ensures Strip("a") == "a" && Strip("\nb") == "b" && Newlines("") == 0 && Newlines("a;") == 0
            && Newlines("a;\n") == 1
  {
    assert "\nb"[1..] == "b";
    NoNewlinesIff("a;");
    assert "a;\n"[..2] == "a;";
  }

  /** Two one-letter statements, the second on its own line. */
  function Example(): (s: string)
    ensures |s| == 4 && s[0] == 'a' && s[1] == ';' && s[2] == '\n' && s[3] == 'b'
  {
    "a;\nb"
  }

  lemma ExampleSlices()
    ensures Example()[0..1] == "a" && Example()[2..] == "\nb"
    ensures Example()[..0] == "" && Example()[..2] == "a;" && Example()[..3] == "a;\n"
    ensures forall c :: c in Example() ==> c in {'a', ';', '\n', 'b'}
  {
  }

  /** A statement on the line after a semicolon is reported on the semicolon's line. */
  lemma SecondStatementLine()
    ensures Scans(ReadSql) && Scan(ReadSql, Code, Example()) == Example()
    ensures IsSplit(Example(), [(0, 1), (2, 4)]) && Within(Example(), [(0, 1), (2, 4)])
    ensures Statements(Example(), Example(), [(0, 1), (2, 4)]) == [("a", 1), ("b", 1)]
    ensures Example()[3] == 'b' && 1 + Newlines(Example()[..3]) == 2
  {
    var text := Example();
    hide *;
    ExampleSlices();
    NothingToMask(text);
    ExampleText();
    ChainNone(text, text);
    assert ';' !in text[0..1] && ';' !in text[2..];
    ChainStep(text, text, [], 0, 1);
    assert [] + [(0, 1)] == [(0, 1)] && [(0, 1)] + [(2, 4)] == [(0, 1), (2, 4)];
    ChainEnd(text, text, [(0, 1)], 2);
  }
}
