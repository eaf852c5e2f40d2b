/** Blanking parts of a text without moving the rest: what the comment and string scanners promise. */
module Masking {

  /** Position by position the original character, or a space where it was not a line feed. */
  predicate Masks(masked: string, text: string)
  {
    |masked| == |text| && forall k :: 0 <= k < |text| ==> masked[k] == text[k] || (masked[k] == ' ' && text[k] != '\n')
  }

  lemma MasksJoin(a: string, head: string, b: string, tail: string)
    requires Masks(a, head) && Masks(b, tail)
    ensures Masks(a + b, head + tail)
  {
  }

  function Spaces(n: nat): string
  {
    seq(n, _ => ' ')
  }

  /** Inside a comment or literal only line feeds survive. */
  function Blank(c: char): char
  {
    if c == '\n' then '\n' else ' '
  }

  function Newlines(s: string): nat
  {
    if |s| == 0 then 0 else Newlines(s[..|s| - 1]) + (if s[|s| - 1] == '\n' then 1 else 0)
  }

  lemma {:induction false} NewlinesJoin(a: string, b: string)
    ensures Newlines(a + b) == Newlines(a) + Newlines(b)
    decreases |b|
  {
    if |b| == 0 {
      assert a + b == a;
    } else {
      NewlinesJoin(a, b[..|b| - 1]);
      assert (a + b)[..|a + b| - 1] == a + b[..|b| - 1];
    }
  }

  /** A mask keeps the line number of every position. */
  lemma {:induction false} MaskKeepsLines(masked: string, text: string, k: nat)
    requires Masks(masked, text) && k <= |text|
    ensures Newlines(masked[..k]) == Newlines(text[..k])
  {
    if k > 0 {
      MaskKeepsLines(masked, text, k - 1);
      assert masked[..k][..k - 1] == masked[..k - 1] && text[..k][..k - 1] == text[..k - 1];
    }
  }

  // ---------- scanners as token readers

  /** The next token: how many characters it takes, whether they are kept or blanked, and the state after it. */
  datatype Token<S> = Token(size: nat, kept: bool, after: S)

  type Reader<!S> = (S, string) -> Token<S>

  ghost predicate Scans<S(!new)>(read: Reader<S>)
  {
    forall state: S, s: string :: |s| > 0 ==> 1 <= read(state, s).size <= |s|
  }

  function BlankAll(s: string): string
  {
    seq(|s|, k requires 0 <= k < |s| => Blank(s[k]))
  }

  /** The reference form of a scanner: token after token, kept or blanked. */
  ghost function Scan<S(!new)>(read: Reader<S>, state: S, s: string): string
    requires Scans(read)
    decreases |s|
  {
    if |s| == 0 then []
    else
      var t := read(state, s);
      (if t.kept then s[..t.size] else BlankAll(s[..t.size])) + Scan(read, t.after, s[t.size..])
  }

  /** The position lies in a token that is kept. */
  ghost predicate Keeps<S(!new)>(read: Reader<S>, state: S, s: string, j: nat)
    requires Scans(read) && j < |s|
    decreases |s|
  {
    var t := read(state, s);
    if j < t.size then t.kept else Keeps(read, t.after, s[t.size..], j - t.size)
  }

  /** What the scan leaves at a position is decided by the token that the text has there. */
  lemma {:induction false} ScanAt<S(!new)>(read: Reader<S>, state: S, s: string, j: nat)
    requires Scans(read) && j < |s|
    ensures |Scan(read, state, s)| == |s|
    ensures Scan(read, state, s)[j] == if Keeps(read, state, s, j) then s[j] else Blank(s[j])
    decreases |s|
  {
    var t := read(state, s);
    ScanMasks(read, state, s);
    if j >= t.size {
      ScanAt(read, t.after, s[t.size..], j - t.size);
    }
  }

  lemma {:induction false} ScanMasks<S(!new)>(read: Reader<S>, state: S, s: string)
    requires Scans(read)
    ensures Masks(Scan(read, state, s), s)
    decreases |s|
  {
    if |s| > 0 {
      var t := read(state, s);
      ScanMasks(read, t.after, s[t.size..]);
      assert s == s[..t.size] + s[t.size..];
      MasksJoin(if t.kept then s[..t.size] else BlankAll(s[..t.size]), s[..t.size],
                Scan(read, t.after, s[t.size..]), s[t.size..]);
    }
  }

  lemma BlankShort(a: char, b: char)
    ensures BlankAll([a]) == [Blank(a)] && BlankAll([a, b]) == [Blank(a), Blank(b)]
  {
  }

  /** What a token leaves in the output. */
  function Piece<S>(t: Token<S>, text: string, index: nat): string
    requires index + t.size <= |text|
  {
    if t.kept then text[index..index + t.size] else BlankAll(text[index..index + t.size])
  }

  /** The output so far, with the rest read from this state, is the scan of the whole text. */
  ghost predicate Progress<S(!new)>(read: Reader<S>, initial: S, text: string, output: string, state: S, index: nat)
  {
    Scans(read) && index <= |text| && Scan(read, initial, text) == output + Scan(read, state, text[index..])
  }

  lemma Begin<S(!new)>(read: Reader<S>, initial: S, text: string)
    requires Scans(read)
    ensures Progress(read, initial, text, "", initial, 0)
  {
    assert text[0..] == text;
  }

  /** Reading one more token. */
  lemma Advance<S(!new)>(read: Reader<S>, initial: S, text: string, output: string, state: S, index: nat)
    requires Progress(read, initial, text, output, state, index) && index < |text|
    ensures var t := read(state, text[index..]);
            && index + t.size <= |text|
            && Progress(read, initial, text, output + Piece(t, text, index), t.after, index + t.size)
  {
    hide Scans;
    var rest := text[index..];
    ScansOne(read, state, rest);
    var t := read(state, rest);
    assert rest[..t.size] == text[index..index + t.size] && rest[t.size..] == text[index + t.size..];
    Regroup(output, Piece(t, text, index), Scan(read, t.after, text[index + t.size..]));
  }

  lemma ScansOne<S(!new)>(read: Reader<S>, state: S, s: string)
    requires Scans(read) && |s| > 0
    ensures 1 <= read(state, s).size <= |s|
  {
  }

  lemma Regroup(a: string, b: string, c: string)
    ensures a + (b + c) == (a + b) + c
  {
  }

  lemma Finish<S(!new)>(read: Reader<S>, initial: S, text: string, output: string, state: S)
    requires Progress(read, initial, text, output, state, |text|)
    ensures output == Scan(read, initial, text)
  {
    assert text[|text|..] == [];
  }

  /** What a scanner sees of the rest of a text through its current and next character. */
  lemma Lookahead(text: string, index: nat, next: string)
    requires index < |text| && next == if index + 1 < |text| then text[index + 1..index + 2] else ""
    ensures text[index..][0] == text[index] && text[index..index + 1] == [text[index]]
    ensures next != "" ==> text[index..index + 2] == [text[index]] + next
    ensures forall a: char, b: char :: [a, b] <= text[index..] <==> text[index] == a && next == [b]
  {
    forall a: char, b: char ensures [a, b] <= text[index..] <==> text[index] == a && next == [b] {
      if index + 1 < |text| {
        assert text[index..][..2] == [text[index], text[index + 1]];
        assert [a, b] <= text[index..] <==> text[index..][..2] == [a, b];
      }
    }
  }

  /**
   * Reading masked text again: a kept token is read the same way whatever is blanked after it,
   * and a blanked one leaves the scanner in its calm state, which passes blanks through.
   */
  ghost predicate Rereads<S(!new)>(read: Reader<S>, calm: S, settle: S -> S)
  {
    && (forall c: char, rest: string :: c == ' ' || c == '\n' ==> read(calm, [c] + rest) == Token(1, true, calm))
    && (forall state, s, rest :: RereadsToken(read, calm, settle, state, s, rest))
  }

  ghost predicate RereadsToken<S(!new)>(read: Reader<S>, calm: S, settle: S -> S, state: S, s: string, rest: string)
  {
    |s| > 0 && read(state, s).size <= |s| && Masks(rest, s[read(state, s).size..]) ==>
      var t := read(state, s);
      if t.kept then read(settle(state), s[..t.size] + rest) == Token(t.size, true, settle(t.after))
      else settle(state) == calm && settle(t.after) == calm
  }

  lemma {:induction false} BlanksPass<S(!new)>(read: Reader<S>, calm: S, settle: S -> S, blanks: string, rest: string)
    requires Scans(read) && Rereads(read, calm, settle) && forall c <- blanks :: c == ' ' || c == '\n'
    ensures Scan(read, calm, blanks + rest) == blanks + Scan(read, calm, rest)
    decreases |blanks|
  {
    if |blanks| == 0 {
      assert blanks + rest == rest;
    } else {
      hide Scan, Rereads, Scans;
      var tail := blanks[1..];
      assert blanks[0] in blanks;
      forall c | c in tail ensures c == ' ' || c == '\n' { assert c in blanks; }
      BlanksPass(read, calm, settle, tail, rest);
      assert blanks == [blanks[0]] + tail;
      Regroup([blanks[0]], tail, rest);
      BlankPasses(read, calm, settle, blanks[0], tail + rest);
      Regroup([blanks[0]], tail, Scan(read, calm, rest));
    }
  }

  lemma BlankPasses<S(!new)>(read: Reader<S>, calm: S, settle: S -> S, c: char, rest: string)
    requires Scans(read) && Rereads(read, calm, settle) && (c == ' ' || c == '\n')
    ensures Scan(read, calm, [c] + rest) == [c] + Scan(read, calm, rest)
  {
    assert ([c] + rest)[..1] == [c] && ([c] + rest)[1..] == rest;
  }

  /** Masking twice is masking once. */
  lemma {:induction false} ScanTwice<S(!new)>(read: Reader<S>, calm: S, settle: S -> S, state: S, s: string)
    requires Scans(read) && Rereads(read, calm, settle)
    ensures Scan(read, settle(state), Scan(read, state, s)) == Scan(read, state, s)
    decreases |s|
  {
    if |s| > 0 {
      var t := read(state, s);
      var rest := Scan(read, t.after, s[t.size..]);
      ScanMasks(read, t.after, s[t.size..]);
      ScanTwice(read, calm, settle, t.after, s[t.size..]);
      assert RereadsToken(read, calm, settle, state, s, rest);
      if t.kept {
        var again := s[..t.size] + rest;
        assert again[..t.size] == s[..t.size] && again[t.size..] == rest;
      } else {
        BlanksPass(read, calm, settle, BlankAll(s[..t.size]), rest);
      }
    }
  }
}
