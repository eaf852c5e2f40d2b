/**
 * Line numbers as the observers count them, with str.splitlines over stripped text
 * (architecture_dependency_observer.py).
 */
module LineNumbers {
  import opened Masking
  import opened CommentScanners

  /** The characters that end a line for str.splitlines. */
  predicate Boundary(c: char)
  {
    var n := c as int;
    10 <= n <= 13 || 28 <= n <= 30 || n == 0x85 || n == 0x2028 || n == 0x2029
  }

  predicate IsCrLf(s: string, j: nat)
    requires j < |s|
  {
    s[j] == '\r' && j + 1 < |s| && s[j + 1] == '\n'
  }

  /** A line ends with this character; of a CR LF pair that is the LF. */
  predicate Breaks(s: string, j: nat)
    requires j < |s|
  {
    Boundary(s[j]) && !IsCrLf(s, j)
  }

  /** How many lines end before a position: its line, counted from 0. */
  function LineOf(s: string, k: nat): nat
    requires k <= |s|
  {
    if k == 0 then 0 else LineOf(s, k - 1) + (if Breaks(s, k - 1) then 1 else 0)
  }

  function LineEnd(s: string): (e: nat)
    ensures e <= |s| && (forall j :: 0 <= j < e ==> !Boundary(s[j])) && (e < |s| ==> Boundary(s[e]))
  {
    if |s| == 0 || Boundary(s[0]) then 0 else 1 + LineEnd(s[1..])
  }

  /** str.splitlines() */
  function SplitLines(s: string): seq<string>
    decreases |s|
  {
    if |s| == 0 then []
    else
      var e := LineEnd(s);
      [s[..e]] + (if e == |s| then [] else SplitLines(s[NextLine(s)..]))
  }

  /** Where the second line starts. */
  function NextLine(s: string): (m: nat)
    requires LineEnd(s) < |s|
    ensures LineEnd(s) < m <= |s|
  {
    LineEnd(s) + (if IsCrLf(s, LineEnd(s)) then 2 else 1)
  }

  lemma {:induction false} NoBreaksYet(s: string, k: nat)
    requires k <= |s| && forall j :: 0 <= j < k ==> !Breaks(s, j)
    ensures LineOf(s, k) == 0
  {
    if k > 0 { NoBreaksYet(s, k - 1); }
  }

  lemma {:induction false} LineOfRest(s: string, m: nat, k: nat)
    requires m <= k <= |s|
    ensures LineOf(s, k) == LineOf(s, m) + LineOf(s[m..], k - m)
    decreases k
  {
    if k > m { LineOfRest(s, m, k - 1); }
  }

  /** Line `n` is the stretch [a, b) of the text, which holds position `k`. */
  predicate Stretch(lines: seq<string>, n: nat, s: string, k: nat, a: nat, b: nat)
  {
    a <= k < b <= |s| && n < |lines| && lines[n] == s[a..b]
  }

  /** The line with the number of this position is a stretch of the text around the position. */
  ghost predicate InItsLine(s: string, k: nat)
    requires k < |s|
  {
    exists a, b :: Stretch(SplitLines(s), LineOf(s, k), s, k, a, b)
  }

  lemma OneLineBefore(s: string)
    requires LineEnd(s) < |s|
    ensures LineOf(s, NextLine(s)) == 1
  {
    hide SplitLines, LineEnd;
    NoBreaksYet(s, LineEnd(s));
  }

  lemma FirstLineThenRest(s: string)
    requires LineEnd(s) < |s|
    ensures SplitLines(s) == [s[..LineEnd(s)]] + SplitLines(s[NextLine(s)..])
  {
    hide LineEnd, NextLine;
  }

  lemma InLaterLine(s: string, k: nat)
    requires LineEnd(s) < |s| && NextLine(s) <= k < |s| && InItsLine(s[NextLine(s)..], k - NextLine(s))
    ensures InItsLine(s, k)
  {
    hide SplitLines, LineOf, NextLine, LineEnd, Stretch;
    var m := NextLine(s);
    FirstLineThenRest(s);
    OneLineBefore(s);
    LineOfRest(s, m, k);
    var a, b :| Stretch(SplitLines(s[m..]), LineOf(s[m..], k - m), s[m..], k - m, a, b);
    StretchMoves([s[..LineEnd(s)]], SplitLines(s[m..]), LineOf(s[m..], k - m), s, m, k, a, b);
  }

  lemma StretchMoves(first: seq<string>, lines: seq<string>, n: nat, s: string, m: nat, k: nat, a: nat, b: nat)
    requires |first| == 1 && m <= k && m <= |s| && Stretch(lines, n, s[m..], k - m, a, b)
    ensures Stretch(first + lines, 1 + n, s, k, m + a, m + b)
  {
    SliceOfRest(s, m, a, b);
  }

  lemma SliceOfRest(s: string, m: nat, a: nat, b: nat)
    requires m <= |s| && a <= b <= |s| - m
    ensures s[m..][a..b] == s[m + a..m + b]
  {
  }

  /** Every position off the line ends is in the line that its number names. */
  lemma {:induction false} PositionInLine(s: string, k: nat)
    requires k < |s| && !Boundary(s[k])
    ensures InItsLine(s, k)
    decreases |s|
  {
    var e := LineEnd(s);
    if k < e {
      NoBreaksYet(s, k);
      assert Stretch(SplitLines(s), 0, s, k, 0, e);
    } else {
      hide InItsLine, SplitLines, LineOf;
      PositionInLine(s[NextLine(s)..], k - NextLine(s));
      InLaterLine(s, k);
    }
  }

  /** Blanking this character takes a line end away. */
  predicate LosesBreak(masked: string, text: string, j: nat)
    requires |masked| == |text| && j < |text|
  {
    masked[j] != text[j] && Breaks(text, j)
  }

  lemma MaskedBreak(masked: string, text: string, j: nat)
    requires Masks(masked, text) && j < |text|
    ensures Breaks(text, j) <==> Breaks(masked, j) || LosesBreak(masked, text, j)
    ensures !(Breaks(masked, j) && LosesBreak(masked, text, j))
  {
  }

  lemma {:induction false} MaskedLineOf(masked: string, text: string, k: nat)
    requires Masks(masked, text) && k <= |text|
    ensures LineOf(masked, k) <= LineOf(text, k)
    ensures LineOf(masked, k) == LineOf(text, k) <==> forall j :: 0 <= j < k ==> !LosesBreak(masked, text, j)
  {
    hide Masks, Breaks, LosesBreak;
    assert |masked| == |text| by { SameLength(masked, text); }
    if k > 0 {
      MaskedLineOf(masked, text, k - 1);
      MaskedBreak(masked, text, k - 1);
    }
  }

  lemma SameLength(masked: string, text: string)
    requires Masks(masked, text)
    ensures |masked| == |text|
  {
  }

  /** No character blanked before a position ends a line, other than the CR of a CR LF pair; LF is never blanked. */
  predicate OnlyHarmlessBlanks(masked: string, text: string, k: nat)
    requires |masked| == |text| && k <= |text|
  {
    forall j :: 0 <= j < k && masked[j] != text[j] && Boundary(text[j])
      ==> text[j] == '\r' && j + 1 < |text| && text[j + 1] == '\n'
  }

  /** A position keeps its line number exactly when only harmless characters were blanked before it. */
  lemma LineSurvivesIff(masked: string, text: string, k: nat)
    requires Masks(masked, text) && k <= |text|
    ensures |masked| == |text| && (LineOf(masked, k) == LineOf(text, k) <==> OnlyHarmlessBlanks(masked, text, k))
  {
    MaskedLineOf(masked, text, k);
    assert forall j :: 0 <= j < k ==>
      (LosesBreak(masked, text, j) <==> masked[j] != text[j] && Boundary(text[j]) && !IsCrLf(text, j));
  }

  /** A line end other than a newline and the CR before one. */
  predicate LoneBreak(text: string, j: nat)
    requires j < |text|
  {
    Boundary(text[j]) && text[j] != '\n' && !IsCrLf(text, j)
  }

  /**
   * For comment stripping, said of the text: the line numbers of all positions survive exactly
   * when every line end in a comment is a newline, the CR of a CR LF pair aside.
   */
  lemma StrippedLinesIff(text: string)
    ensures Scans(ReadC) && |Scan(ReadC, Code, text)| == |text|
    ensures var cleaned := Scan(ReadC, Code, text);
            (forall k :: 0 <= k <= |text| ==> LineOf(cleaned, k) == LineOf(text, k)) <==>
            (forall j :: 0 <= j < |text| && LoneBreak(text, j) ==> Keeps(ReadC, Code, text, j))
  {
    StripCTwice(text);
    var cleaned := Scan(ReadC, Code, text);
    AllLinesIff(cleaned, text);
    hide Scan, Keeps, ReadC, LineOf;
    forall j | 0 <= j < |text|
      ensures LoneBreak(text, j) ==> (Keeps(ReadC, Code, text, j) <==> cleaned[j] == text[j])
    {
      ScanAt(ReadC, Code, text, j);
    }
    NewlinesStay(cleaned, text);
  }

  lemma NewlinesStay(cleaned: string, text: string)
    requires Masks(cleaned, text)
    ensures |cleaned| == |text|
    ensures OnlyHarmlessBlanks(cleaned, text, |text|) <==>
              forall j :: 0 <= j < |text| && LoneBreak(text, j) ==> cleaned[j] == text[j]
  {
  }

  lemma AllLinesIff(cleaned: string, text: string)
    requires Masks(cleaned, text)
    ensures |cleaned| == |text|
    ensures (forall k :: 0 <= k <= |text| ==> LineOf(cleaned, k) == LineOf(text, k))
            <==> OnlyHarmlessBlanks(cleaned, text, |text|)
  {
    LineSurvivesIff(cleaned, text, |text|);
    forall k | 0 <= k <= |text|
      ensures OnlyHarmlessBlanks(cleaned, text, |text|) ==> LineOf(cleaned, k) == LineOf(text, k)
    {
      LineSurvivesIff(cleaned, text, k);
    }
  }

  /** A comment that holds a lone CR, before an identifier. */
  function CarriageReturn(): (s: string)
    ensures |s| == 6 && s[0] == '/' && s[1] == '*' && s[2] == '\r' && s[3] == '*' && s[4] == '/' && s[5] == 'x'
  {
    "/*\r*/x"
  }

  lemma StripExample()
    ensures Scans(ReadC) && Scan(ReadC, Code, CarriageReturn()) == "     x"
  {
    CScans();
    var s := CarriageReturn();
    assert s[2..][1..] == s[3..] && s[3..][2..] == s[5..] && s[5..][1..] == "";
    assert "/*" <= s && s[..2] == "/*" && s[2..][..1] == "\r" && s[3..][..2] == "*/" && s[5..][..1] == "x";
    assert Scan(ReadC, Code, s[5..]) == "x";
    assert Scan(ReadC, BlockComment, s[3..]) == BlankAll("*/") + "x";
    assert Scan(ReadC, BlockComment, s[2..]) == BlankAll("\r") + Scan(ReadC, BlockComment, s[3..]);
    BlankShort('*', '/');
    BlankShort('/', '*');
    BlankShort('\r', ' ');
  }

  /** Stripping a comment that holds a lone CR moves what follows up a line. */
  lemma LineMovesUp()
    ensures Scans(ReadC) && Scan(ReadC, Code, CarriageReturn()) == "     x"
    ensures LineOf(CarriageReturn(), 5) == 1 && LineOf("     x", 5) == 0
  {
    StripExample();
    var s := CarriageReturn();
    hide Scan, Scans, ReadC;
    NoBreaksYet(s, 2);
    assert Breaks(s, 2) && !Breaks(s, 3) && !Breaks(s, 4);
    assert LineOf(s, 5) == LineOf(s, 4) == LineOf(s, 3) == 1;
    NoBreaksYet("     x", 5);
  }
}
