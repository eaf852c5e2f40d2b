/**
 * The C-family and HCL comment strippers (architecture_dependency_observer.py,
 * architecture_deployment_observer.py).
 */
module CommentScanners {
  import opened Masking

  // ---------- C family

  datatype CState = Code | LineComment | BlockComment | Quoted(quote: char)

  /** One token of a C-family language: comments are blanked, strings and everything else kept. */
  function ReadC(state: CState, s: string): Token<CState>
  {
    if |s| == 0 then Token(1, true, state)
    else match state
      case Code =>
        if "//" <= s then Token(2, false, LineComment)
        else if "/*" <= s then Token(2, false, BlockComment)
        else Token(1, true, if s[0] in {'\'', '"', '`'} then Quoted(s[0]) else Code)
      case LineComment => Token(1, false, if s[0] == '\n' then Code else LineComment)
      case BlockComment => if "*/" <= s then Token(2, false, Code) else Token(1, false, BlockComment)
      case Quoted(quote) =>
        if s[0] == '\\' && |s| > 1 then Token(2, true, state)
        else Token(1, true, if s[0] == quote then Code else state)
  }

  /** Where a blanked or kept token leaves a second reading. */
  function SettleC(state: CState): CState
  {
    if state.Quoted? then state else Code
  }

  lemma CScans()
    ensures Scans(ReadC)
  {
  }

  /** The token at an index, and what it leaves, in terms of the current and the next character. */
  lemma CToken(text: string, index: nat, state: CState, next: string)
    requires index < |text| && next == if index + 1 < |text| then text[index + 1..index + 2] else ""
    ensures var c, t := text[index], ReadC(state, text[index..]);
            && index + t.size <= |text|
            && match state
               case Code =>
                 if c == '/' && next == "/" then t == Token(2, false, LineComment) && Piece(t, text, index) == "  "
                 else if c == '/' && next == "*" then
                   t == Token(2, false, BlockComment) && Piece(t, text, index) == "  "
                 else
                   && t == Token(1, true, if c in {'\'', '"', '`'} then Quoted(c) else Code)
                   && Piece(t, text, index) == [c]
               case LineComment =>
                 t == Token(1, false, if c == '\n' then Code else LineComment) && Piece(t, text, index) == [Blank(c)]
               case BlockComment =>
                 if c == '*' && next == "/" then t == Token(2, false, Code) && Piece(t, text, index) == "  "
                 else t == Token(1, false, BlockComment) && Piece(t, text, index) == [Blank(c)]
               case Quoted(quote) =>
                 if c == '\\' && next != "" then t == Token(2, true, state) && Piece(t, text, index) == [c] + next
                 else t == Token(1, true, if c == quote then Code else state) && Piece(t, text, index) == [c]
  {
    Lookahead(text, index, next);
    if next != "" { BlankShort(text[index], next[0]); }
    BlankShort(text[index], ' ');
  }

  /** _strip_c_family_comments */
  method StripCFamily(text: string) returns (output: string)
    ensures Scans(ReadC) && output == Scan(ReadC, Code, text)
  {
    CScans();
    hide *;
    output := "";
    var index, state, quote := 0, CState.Code, '"';
    Begin(ReadC, CState.Code, text);
    while index < |text|
      invariant state.Quoted? ==> state.quote == quote
      invariant index <= |text| && Progress(ReadC, Code, text, output, state, index)
      decreases |text| - index
    {
      var c := text[index];
      var next := if index + 1 < |text| then text[index + 1..index + 2] else "";
      Advance(ReadC, CState.Code, text, output, state, index);
      CToken(text, index, state, next);
      if state.Code? {
        if c == '/' && next == "/" {
          output, index, state := output + "  ", index + 2, LineComment;
          continue;
        }
        if c == '/' && next == "*" {
          output, index, state := output + "  ", index + 2, BlockComment;
          continue;
        }
        if c in {'\'', '"', '`'} {
          state, quote := Quoted(c), c;
        }
        output, index := output + [c], index + 1;
        continue;
      }
      if state.LineComment? {
        output := output + [Blank(c)];
        if c == '\n' {
          state := Code;
        }
        index := index + 1;
        continue;
      }
      if state.BlockComment? {
        if c == '*' && next == "/" {
          output, index, state := output + "  ", index + 2, Code;
          continue;
        }
        output, index := output + [Blank(c)], index + 1;
        continue;
      }
      if c == '\\' && index + 1 < |text| {
        output, index := output + ([c] + next), index + 2;
        continue;
      }
      output := output + [c];
      if c == quote {
        state := Code;
      }
      index := index + 1;
    }
    Finish(ReadC, CState.Code, text, output, state);
  }

  /** Stripping keeps every position and line, and stripping again changes nothing. */
  lemma StripCTwice(text: string)
    ensures Scans(ReadC) && Masks(Scan(ReadC, Code, text), text)
    ensures Scan(ReadC, Code, Scan(ReadC, Code, text)) == Scan(ReadC, Code, text)
  {
    CScans();
    ScanMasks(ReadC, Code, text);
    forall c: char, rest: string | c == ' ' || c == '\n' ensures ReadC(Code, [c] + rest) == Token(1, true, Code) {
      assert ([c] + rest)[0] == c;
    }
    forall state, s, rest ensures RereadsToken(ReadC, Code, SettleC, state, s, rest) {
      CRereads(state, s, rest);
    }
    ScanTwice(ReadC, CState.Code, SettleC, CState.Code, text);
  }

  lemma CRereads(state: CState, s: string, rest: string)
    ensures RereadsToken(ReadC, Code, SettleC, state, s, rest)
  {
    if |s| > 0 && ReadC(state, s).kept && Masks(rest, s[ReadC(state, s).size..]) {
      var t := ReadC(state, s);
      var again := s[..t.size] + rest;
      assert again[0] == s[0];
      if t.size == 1 && |rest| > 0 {
        assert again[1] == rest[0];
      }
    }
  }

  // ---------- HCL

  datatype HclState = Plain | Text(escaped: bool) | Line | Block

  /** One token of HCL: `#`, `//` and block comments are blanked, strings and everything else kept. */
  function ReadHcl(state: HclState, s: string): Token<HclState>
  {
    if |s| == 0 then Token(1, true, state)
    else match state
      case Text(escaped) =>
        Token(1, true, if escaped then Text(false) else if s[0] == '\\' then Text(true) else if s[0] == '"' then Plain
          else Text(false))
      case Line => Token(1, false, if s[0] == '\n' then Plain else Line)
      case Block => if "*/" <= s then Token(2, false, Plain) else Token(1, false, Block)
      case Plain =>
        if s[0] == '"' then Token(1, true, Text(false))
        else if s[0] == '#' then Token(1, false, Line)
        else if "//" <= s then Token(2, false, Line)
        else if "/*" <= s then Token(2, false, Block)
        else Token(1, true, Plain)
  }

  function SettleHcl(state: HclState): HclState
  {
    if state.Text? then state else Plain
  }

  lemma HclScans()
    ensures Scans(ReadHcl)
  {
  }

  lemma HclToken(text: string, index: nat, state: HclState, next: string)
    requires index < |text| && next == if index + 1 < |text| then text[index + 1..index + 2] else ""
    ensures var c, t := text[index], ReadHcl(state, text[index..]);
            && index + t.size <= |text|
            && match state
               case Text(escaped) =>
                 && t == Token(1, true, if escaped then Text(false) else if c == '\\' then Text(true)
                    else if c == '"' then Plain else Text(false))
                 && Piece(t, text, index) == [c]
               case Line => t == Token(1, false, if c == '\n' then Plain else Line)
                 && Piece(t, text, index) == [Blank(c)]
               case Block =>
                 if c == '*' && next == "/" then t == Token(2, false, Plain) && Piece(t, text, index) == "  "
                 else t == Token(1, false, Block) && Piece(t, text, index) == [Blank(c)]
               case Plain =>
                 if c == '"' then t == Token(1, true, Text(false)) && Piece(t, text, index) == [c]
                 else if c == '#' then t == Token(1, false, Line) && Piece(t, text, index) == " "
                 else if c == '/' && next == "/" then t == Token(2, false, Line) && Piece(t, text, index) == "  "
                 else if c == '/' && next == "*" then t == Token(2, false, Block) && Piece(t, text, index) == "  "
                 else t == Token(1, true, Plain) && Piece(t, text, index) == [c]
  {
    Lookahead(text, index, next);
    if next != "" { BlankShort(text[index], next[0]); }
    BlankShort(text[index], ' ');
  }

  /** _strip_hcl_comments */
  method StripHcl(text: string) returns (output: string)
    ensures Scans(ReadHcl) && output == Scan(ReadHcl, Plain, text)
  {
    HclScans();
    hide *;
    output := "";
    var index, state, escaped := 0, HclState.Plain, false;
    Begin(ReadHcl, HclState.Plain, text);
    while index < |text|
      invariant if state.Text? then state.escaped == escaped else !escaped
      invariant index <= |text| && Progress(ReadHcl, Plain, text, output, state, index)
      decreases |text| - index
    {
      var c := text[index];
      var next := if index + 1 < |text| then text[index + 1..index + 2] else "";
      Advance(ReadHcl, HclState.Plain, text, output, state, index);
      HclToken(text, index, state, next);
      if state.Text? {
        output := output + [c];
        if escaped {
          escaped, state := false, Text(false);
        } else if c == '\\' {
          escaped, state := true, Text(true);
        } else if c == '"' {
          state := Plain;
        }
        index := index + 1;
      } else if state.Line? {
        output := output + [Blank(c)];
        if c == '\n' {
          state := Plain;
        }
        index := index + 1;
      } else if state.Block? {
        if c == '*' && next == "/" {
          output, index, state := output + "  ", index + 2, Plain;
        } else {
          output, index := output + [Blank(c)], index + 1;
        }
      } else if c == '"' {
        output, index, state := output + [c], index + 1, Text(false);
      } else if c == '#' || (c == '/' && next == "/") {
        output, index := output + (if c == '/' then "  " else " "), index + (if c == '/' then 2 else 1);
        state := Line;
      } else if c == '/' && next == "*" {
        output, index, state := output + "  ", index + 2, Block;
      } else {
        output, index := output + [c], index + 1;
      }
    }
    Finish(ReadHcl, HclState.Plain, text, output, state);
  }

  /** Stripping keeps every position and line, and stripping again changes nothing. */
  lemma StripHclTwice(text: string)
    ensures Scans(ReadHcl) && Masks(Scan(ReadHcl, Plain, text), text)
    ensures Scan(ReadHcl, Plain, Scan(ReadHcl, Plain, text)) == Scan(ReadHcl, Plain, text)
  {
    HclScans();
    ScanMasks(ReadHcl, Plain, text);
    forall c: char, rest: string | c == ' ' || c == '\n' ensures ReadHcl(Plain, [c] + rest) == Token(1, true, Plain) {
      assert ([c] + rest)[0] == c;
    }
    forall state, s, rest ensures RereadsToken(ReadHcl, Plain, SettleHcl, state, s, rest) {
      HclRereads(state, s, rest);
    }
    ScanTwice(ReadHcl, HclState.Plain, SettleHcl, HclState.Plain, text);
  }

  lemma HclRereads(state: HclState, s: string, rest: string)
    ensures RereadsToken(ReadHcl, Plain, SettleHcl, state, s, rest)
  {
    if |s| > 0 && ReadHcl(state, s).kept && Masks(rest, s[1..]) {
      var again := s[..1] + rest;
      assert again[0] == s[0];
      if |rest| > 0 {
        assert again[1] == rest[0];
      }
    }
  }
}
