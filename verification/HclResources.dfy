/**
 * Terraform resource blocks: header search and brace matching over comment-free HCL
 * (architecture_deployment_observer.py).
 */
module HclResources {
  import opened Prelude
  import opened Masking
  import opened CommentScanners
  import opened AuditContracts

  const MAX_DOCUMENTS: nat := 10_000

  // ---------- brace matching

  /** How deep in braces a reader is, and whether inside a string or right after a backslash there. */
  datatype Depth = Depth(level: int, quoted: bool, escaped: bool)

  function ReadChar(d: Depth, c: char): Depth
  {
    if d.quoted then
      if d.escaped then d.(escaped := false)
      else if c == '\\' then d.(escaped := true)
      else if c == '"' then d.(quoted := false)
      else d
    else if c == '"' then d.(quoted := true)
    else if c == '{' then d.(level := d.level + 1)
    else if c == '}' then d.(level := d.level - 1)
    else d
  }

  function ReadText(d: Depth, s: string): Depth
  {
    if |s| == 0 then d else ReadChar(ReadText(d, s[..|s| - 1]), s[|s| - 1])
  }

  const OUTSIDE := Depth(0, false, false)

  /** The character at `index` is a brace outside strings that brings the depth since `start` back to zero. */
  predicate Closes(text: string, start: nat, index: nat)
    requires start <= index < |text|
  {
    && text[index] == '}'
    && !ReadText(OUTSIDE, text[start..index]).quoted
    && ReadText(OUTSIDE, text[start..index]).level == 1
  }

  /** Every brace outside strings has its partner, and no string is left open. */
  ghost predicate Balanced(s: string)
  {
    && (forall k :: 0 <= k <= |s| ==> ReadText(OUTSIDE, s[..k]).level >= 0)
    && ReadText(OUTSIDE, s) == OUTSIDE
  }

  /** _matching_brace: the first brace that closes, or none. */
  method MatchingBrace(text: string, start: nat) returns (r: Option<nat>)
    requires start <= |text|
    ensures r.Some? ==> start <= r.value < |text| && Closes(text, start, r.value)
    ensures r.Some? ==> forall j :: start <= j < r.value ==> !Closes(text, start, j)
    ensures r.None? ==> forall j :: start <= j < |text| ==> !Closes(text, start, j)
  {
    var depth, quoted, escaped := 0, false, false;
    for index := start to |text|
      invariant ReadText(OUTSIDE, text[start..index]) == Depth(depth, quoted, escaped)
      invariant forall j :: start <= j < index ==> !Closes(text, start, j)
    {
      var c := text[index];
      assert text[start..index + 1][..index - start] == text[start..index];
      assert ReadText(OUTSIDE, text[start..index + 1]) == ReadChar(Depth(depth, quoted, escaped), c);
      assert Closes(text, start, index) <==> c == '}' && !quoted && depth == 1;
      if quoted {
        if escaped {
          escaped := false;
        } else if c == '\\' {
          escaped := true;
        } else if c == '"' {
          quoted := false;
        }
        continue;
      }
      if c == '"' {
        quoted := true;
      } else if c == '{' {
        depth := depth + 1;
      } else if c == '}' {
        depth := depth - 1;
        if depth == 0 {
          return Some(index);
        }
      }
    }
    return None;
  }

  lemma {:induction false} Deeper(s: string)
    ensures var outer, inner := ReadText(Depth(1, false, false), s), ReadText(OUTSIDE, s);
            outer == inner.(level := inner.level + 1)
  {
    if |s| > 0 {
      Deeper(s[..|s| - 1]);
    }
  }

  lemma {:induction false} ReadOn(d: Depth, head: string, s: string)
    ensures ReadText(d, head + s) == ReadText(ReadText(d, head), s)
    decreases |s|
  {
    if |s| == 0 {
      assert head + s == head;
    } else {
      ReadOn(d, head, s[..|s| - 1]);
      assert (head + s)[..|head + s| - 1] == head + s[..|s| - 1];
    }
  }

  /** One character into a block: the depth inside it, and one more in the text around it. */
  lemma BodyDepth(text: string, opening: nat, k: nat)
    requires opening + 1 + k <= |text| && text[opening] == '{'
    ensures var inner := ReadText(OUTSIDE, text[opening + 1..][..k]);
            ReadText(OUTSIDE, text[opening..opening + 1 + k]) == inner.(level := inner.level + 1)
  {
    var body := text[opening + 1..][..k];
    assert text[opening..opening + 1 + k] == ['{'] + body;
    ReadOn(OUTSIDE, ['{'], body);
    assert ReadText(OUTSIDE, ['{']) == Depth(1, false, false) by { assert ['{'][..0] == []; }
    Deeper(body);
  }

  /** Before the first closing brace the depth inside a block never drops below zero. */
  lemma {:induction false} BodyStaysOpen(text: string, opening: nat, closing: nat, k: nat)
    requires opening + 1 + k <= closing < |text| && text[opening] == '{'
    requires forall j :: opening <= j < closing ==> !Closes(text, opening, j)
    ensures ReadText(OUTSIDE, text[opening + 1..][..k]).level >= 0
  {
    if k > 0 {
      BodyStaysOpen(text, opening, closing, k - 1);
      var rest := text[opening + 1..];
      assert rest[..k][..k - 1] == rest[..k - 1];
      var j := opening + k;
      assert rest[k - 1] == text[j];
      BodyDepth(text, opening, k - 1);
      assert !Closes(text, opening, j);
    }
  }

  lemma {:induction false} NotEscapedOutside(s: string)
    ensures !ReadText(OUTSIDE, s).quoted ==> !ReadText(OUTSIDE, s).escaped
  {
    if |s| > 0 { NotEscapedOutside(s[..|s| - 1]); }
  }

  /** What lies between a brace and the brace that is matched with it is balanced. */
  lemma BlockBalanced(text: string, opening: nat, closing: nat)
    requires opening < closing < |text| && text[opening] == '{' && Closes(text, opening, closing)
    requires forall j :: opening <= j < closing ==> !Closes(text, opening, j)
    ensures Balanced(text[opening + 1..closing])
  {
    var n := closing - opening - 1;
    var body := text[opening + 1..closing];
    assert text[opening + 1..][..n] == body;
    forall k | 0 <= k <= |body| ensures ReadText(OUTSIDE, body[..k]).level >= 0 {
      BodyStaysOpen(text, opening, closing, k);
      assert text[opening + 1..][..k] == body[..k];
    }
    BodyDepth(text, opening, n);
    NotEscapedOutside(body);
  }

  lemma OpeningIsNotClosing(text: string, opening: nat, closing: nat)
    requires opening <= closing < |text| && text[opening] == '{' && Closes(text, opening, closing)
    ensures opening < closing
  {
  }

  // ---------- headers

  predicate NameChar(c: char)
  {
    'A' <= c <= 'Z' || 'a' <= c <= 'z' || '0' <= c <= '9' || c == '_' || c == '-'
  }

  /** One past the longest run of white space from an index. */
  function AfterSpace(s: string, i: nat): (e: nat)
    requires i <= |s|
    ensures i <= e <= |s| && forall k :: i <= k < e ==> IsPySpace(s[k])
    decreases |s| - i
  {
    if i < |s| && IsPySpace(s[i]) then AfterSpace(s, i + 1) else i
  }

  function AfterName(s: string, i: nat): (e: nat)
    requires i <= |s|
    ensures i <= e <= |s| && forall k :: i <= k < e ==> NameChar(s[k])
    decreases |s| - i
  {
    if i < |s| && NameChar(s[i]) then AfterName(s, i + 1) else i
  }

  /** One past a quoted non-empty name that starts at an index. */
  function AfterQuoted(s: string, i: nat): (e: Option<nat>)
    requires i <= |s|
    ensures e.Some? ==> i + 3 <= e.value <= |s| && forall k :: i <= k < e.value ==> s[k] == '"' || NameChar(s[k])
  {
    if i < |s| && s[i] == '"' then
      var e := AfterName(s, i + 1);
      if e > i + 1 && e < |s| && s[e] == '"' then Some(e + 1) else None
    else None
  }

  datatype Header = Header(kind: string, name: string, opening: nat)

  const RESOURCE := "resource"

  /** The header pattern matches at this index: keyword, quoted type, quoted name, opening brace. */
  function HeaderAt(s: string, i: nat, word: char -> bool): (h: Option<Header>)
    ensures h.Some? ==> i + 8 < h.value.opening < |s| && s[h.value.opening] == '{'
  {
    if i + 8 > |s| || s[i..i + 8] != RESOURCE || (i > 0 && word(s[i - 1])) then None
    else
      var a := AfterSpace(s, i + 8);
      var kind := AfterQuoted(s, a);
      if a == i + 8 || kind.None? then None
      else
        var b := AfterSpace(s, kind.value);
        var name := AfterQuoted(s, b);
        if b == kind.value || name.None? then None
        else
          var o := AfterSpace(s, name.value);
          if o < |s| && s[o] == '{' then Some(Header(s[a + 1..kind.value - 1], s[b + 1..name.value - 1], o)) else None
  }

  /** The brace that opens the block is the first one after the start of its header. */
  lemma HeaderHasNoBrace(s: string, i: nat, word: char -> bool, k: nat)
    requires HeaderAt(s, i, word).Some? && i <= k < HeaderAt(s, i, word).value.opening
    ensures s[k] != '{'
  {
    var a := AfterSpace(s, i + 8);
    var kind := AfterQuoted(s, a).value;
    var b := AfterSpace(s, kind);
    var name := AfterQuoted(s, b).value;
    if k < i + 8 {
      assert s[i..i + 8][k - i] == s[k];
      assert '{' !in RESOURCE;
    }
    assert !IsPySpace('{') && !NameChar('{');
  }

  /** header.search: the first match at or after a position. */
  method SearchHeader(s: string, position: nat, word: char -> bool) returns (r: Option<nat>)
    requires position <= |s|
    ensures r.Some? ==> position <= r.value < |s| && HeaderAt(s, r.value, word).Some?
    ensures r.Some? ==> forall i :: position <= i < r.value ==> HeaderAt(s, i, word).None?
    ensures r.None? ==> forall i :: position <= i < |s| ==> HeaderAt(s, i, word).None?
  {
    hide HeaderAt;
    for i := position to |s|
      invariant forall j :: position <= j < i ==> HeaderAt(s, j, word).None?
    {
      if HeaderAt(s, i, word).Some? {
        return Some(i);
      }
    }
    return None;
  }

  /** str.find of one character. */
  method Find(s: string, c: char, start: nat) returns (i: nat)
    requires start < |s| && c in s[start..]
    ensures start <= i < |s| && s[i] == c && forall k :: start <= k < i ==> s[k] != c
  {
    i := start;
    ghost var m :| 0 <= m < |s[start..]| && s[start..][m] == c;
    while s[i] != c
      invariant start <= i <= start + m && forall k :: start <= k < i ==> s[k] != c
      decreases start + m - i
    {
      i := i + 1;
    }
  }

  // ---------- resources

  datatype Resource = Resource(kind: string, name: string, body: string, line: nat, reference: string)

  /** Where a block stands: its header, its opening and its closing brace. */
  datatype Span = Span(start: nat, opening: nat, closing: nat)

  ghost predicate IsBlock(s: string, b: Span, word: char -> bool)
  {
    && b.start < b.opening < b.closing < |s|
    && HeaderAt(s, b.start, word).Some? && HeaderAt(s, b.start, word).value.opening == b.opening
    && Closes(s, b.opening, b.closing) && forall j :: b.opening <= j < b.closing ==> !Closes(s, b.opening, j)
  }

  /** One past the last block. */
  function End(blocks: seq<Span>): nat
  {
    if |blocks| == 0 then 0 else blocks[|blocks| - 1].closing + 1
  }

  ghost predicate Inside(blocks: seq<Span>, i: nat)
  {
    exists b :: b in blocks && b.start <= i <= b.closing
  }

  /** The blocks stand one after the other, and every header up to their end is inside one of them. */
  ghost predicate Tiles(s: string, blocks: seq<Span>, word: char -> bool)
  {
    && (forall b :: b in blocks ==> IsBlock(s, b, word))
    && (forall k :: 0 < k < |blocks| ==> blocks[k - 1].closing < blocks[k].start)
    && (forall i :: 0 <= i < End(blocks) && i < |s| && HeaderAt(s, i, word).Some? ==> Inside(blocks, i))
  }

  /** A header whose block never closes. */
  ghost predicate Unmatched(s: string, start: nat, word: char -> bool)
  {
    && start < |s| && HeaderAt(s, start, word).Some?
    && forall j :: HeaderAt(s, start, word).value.opening <= j < |s| ==>
         !Closes(s, HeaderAt(s, start, word).value.opening, j)
  }

  function Reference(h: Header): string
  {
    h.kind + "." + h.name
  }

  function ResourceOf(s: string, text: string, b: Span, word: char -> bool): Resource
    requires b.start < |text| && b.opening < b.closing <= |s| && HeaderAt(s, b.start, word).Some?
  {
    var h := HeaderAt(s, b.start, word).value;
    Resource(h.kind, h.name, s[b.opening + 1..b.closing], 1 + Newlines(text[..b.start]), Reference(h))
  }

  /** This resource is what stands in a block, with a balanced body and the line of the original text. */
  ghost predicate DescribesBlock(r: Resource, s: string, text: string, b: Span, word: char -> bool)
  {
    |s| == |text| && IsBlock(s, b, word) && r == ResourceOf(s, text, b, word) && Balanced(r.body)
  }

  ghost predicate Describes(resources: seq<Resource>, s: string, text: string, blocks: seq<Span>, word: char -> bool)
  {
    |resources| == |blocks| && forall k :: 0 <= k < |blocks| ==> DescribesBlock(resources[k], s, text, blocks[k], word)
  }

  lemma TilesStep(s: string, blocks: seq<Span>, b: Span, word: char -> bool)
    requires Tiles(s, blocks, word) && End(blocks) <= b.start && IsBlock(s, b, word)
    requires forall i :: End(blocks) <= i < b.start ==> HeaderAt(s, i, word).None?
    ensures Tiles(s, blocks + [b], word) && End(blocks + [b]) == b.closing + 1 <= |s|
  {
    hide IsBlock, HeaderAt;
    var more := blocks + [b];
    assert IsBlock(s, b, word);
    BlockInside(s, b, word);
    forall i | 0 <= i < End(more) && i < |s| && HeaderAt(s, i, word).Some? ensures Inside(more, i) {
      if i < End(blocks) {
        var c :| c in blocks && c.start <= i <= c.closing;
        assert c in more;
      } else {
        assert b in more;
      }
    }
  }

  lemma BlockInside(s: string, b: Span, word: char -> bool)
    requires IsBlock(s, b, word)
    ensures b.start < b.opening < b.closing < |s|
  {
    hide HeaderAt;
  }

  lemma HasOpening(s: string, start: nat, word: char -> bool)
    requires start < |s| && HeaderAt(s, start, word).Some?
    ensures '{' in s[start..]
  {
    var o := HeaderAt(s, start, word).value.opening;
    hide HeaderAt;
    assert s[start..][o - start] == '{';
  }

  /** The brace that the search for `{` finds is the one of the header. */
  lemma IsOpening(s: string, start: nat, i: nat, word: char -> bool)
    requires start <= i < |s| && HeaderAt(s, start, word).Some?
    requires s[i] == '{' && forall k :: start <= k < i ==> s[k] != '{'
    ensures i == HeaderAt(s, start, word).value.opening
  {
    hide HeaderAt;
    if i < HeaderAt(s, start, word).value.opening {
      HeaderHasNoBrace(s, start, word, i);
    }
  }

  /** One pass of the loop in _tf_resources: the block of the header at `start`, or none when it never closes. */
  method ReadBlock(cleaned: string, ghost text: string, start: nat, word: char -> bool)
    returns (r: Option<(Resource, nat)>, ghost b: Span)
    requires Masks(cleaned, text) && start < |cleaned| && HeaderAt(cleaned, start, word).Some?
    ensures r.None? <==> Unmatched(cleaned, start, word)
    ensures r.Some? ==> b.start == start && r.value.1 == b.closing && DescribesBlock(r.value.0, cleaned, text, b, word)
  {
    b := Span(start, start, start);
    hide *;
    var h := HeaderAt(cleaned, start, word).value;
    HasOpening(cleaned, start, word);
    var opening := Find(cleaned, '{', start);
    IsOpening(cleaned, start, opening, word);
    NoneUnmatched(cleaned, start, word);
    var closing := MatchingBrace(cleaned, opening);
    if closing.None? {
      return None, b;
    }
    OpeningIsNotClosing(cleaned, opening, closing.value);
    b := Span(start, opening, closing.value);
    BlockDescribed(cleaned, text, b, word);
    var line := Newlines(cleaned[..start]) + 1;
    r := Some((Resource(h.kind, h.name, cleaned[opening + 1..closing.value], line, Reference(h)), closing.value));
  }

  lemma NoneUnmatched(s: string, start: nat, word: char -> bool)
    requires start < |s| && HeaderAt(s, start, word).Some?
    ensures var o := HeaderAt(s, start, word).value.opening;
            Unmatched(s, start, word) <==> forall j :: o <= j < |s| ==> !Closes(s, o, j)
  {
    hide HeaderAt, Closes;
  }

  lemma BlockDescribed(s: string, text: string, b: Span, word: char -> bool)
    requires Masks(s, text) && b.start < b.opening < b.closing < |s| && HeaderAt(s, b.start, word).Some?
    requires HeaderAt(s, b.start, word).value.opening == b.opening && s[b.opening] == '{'
    requires Closes(s, b.opening, b.closing) && forall j :: b.opening <= j < b.closing ==> !Closes(s, b.opening, j)
    ensures var h := HeaderAt(s, b.start, word).value;
            DescribesBlock(
              Resource(h.kind, h.name, s[b.opening + 1..b.closing], Newlines(s[..b.start]) + 1, Reference(h)),
              s, text, b, word)
  {
    BlockBalanced(s, b.opening, b.closing);
    MaskKeepsLines(s, text, b.start);
    assert |s| == |text|;
    hide HeaderAt, Masks, Balanced, Closes, Newlines, Reference;
  }

  /**
   * What extraction makes of a comment-free text: all its blocks described, or a refusal because
   * a header after them never closes or there are too many of them.
   */
  ghost predicate Extracts(r: Option<seq<Resource>>, s: string, text: string, blocks: seq<Span>, word: char -> bool)
  {
    && Tiles(s, blocks, word)
    && (r.Some? ==>
          && Describes(r.value, s, text, blocks, word) && |blocks| <= 10_000
          && forall i :: End(blocks) <= i < |s| ==> HeaderAt(s, i, word).None?)
    && (r.None? ==>
          |blocks| == 10_001
          || (|blocks| <= 10_000 && exists start :: NextUnmatched(s, blocks, start, word)))
  }

  /** The first header after these blocks never closes. */
  ghost predicate NextUnmatched(s: string, blocks: seq<Span>, start: nat, word: char -> bool)
  {
    End(blocks) <= start && Unmatched(s, start, word) &&
      forall i :: End(blocks) <= i < start ==> HeaderAt(s, i, word).None?
  }

  /** _tf_resources: the resource blocks of a Terraform file, or a refusal. */
  method TfResources(text: string, word: char -> bool) returns (r: Option<seq<Resource>>)
    ensures Scans(ReadHcl) && exists blocks :: Extracts(r, Scan(ReadHcl, Plain, text), text, blocks, word)
  {
    StripHclTwice(text);
    var cleaned := StripHcl(text);
    NoBlocks(cleaned, text, word);
    hide Tiles, Describes, End, HeaderAt, Unmatched, Scan, Scans, ReadHcl, Masks, DescribesBlock, IsBlock, Closes;
    var resources: seq<Resource> := [];
    ghost var blocks: seq<Span> := [];
    var position := 0;
    while true
      invariant position == End(blocks) <= |cleaned| && Tiles(cleaned, blocks, word)
      invariant Describes(resources, cleaned, text, blocks, word) && |resources| == |blocks| <= MAX_DOCUMENTS
      decreases |cleaned| - position
    {
      var found := SearchHeader(cleaned, position, word);
      if found.None? {
        break;
      }
      var read;
      ghost var b;
      read, b := ReadBlock(cleaned, text, found.value, word);
      if read.None? {
        assert NextUnmatched(cleaned, blocks, found.value, word);
        assert Extracts(None, cleaned, text, blocks, word);
        return None;
      }
      AddBlock(resources, cleaned, text, blocks, read.value.0, b, word);
      resources := resources + [read.value.0];
      blocks := blocks + [b];
      position := read.value.1 + 1;
      if |resources| > MAX_DOCUMENTS {
        assert Extracts(None, cleaned, text, blocks, word);
        return None;
      }
    }
    assert Extracts(Some(resources), cleaned, text, blocks, word);
    return Some(resources);
  }

  lemma NoBlocks(s: string, text: string, word: char -> bool)
    ensures End([]) == 0 && Tiles(s, [], word) && Describes([], s, text, [], word)
  {
  }

  lemma BlockFacts(r: Resource, s: string, text: string, b: Span, word: char -> bool)
    requires DescribesBlock(r, s, text, b, word)
    ensures IsBlock(s, b, word)
  {
  }

  lemma DescribesStep(resources: seq<Resource>, s: string, text: string, blocks: seq<Span>, r: Resource,
                      b: Span, word: char -> bool)
    requires Describes(resources, s, text, blocks, word) && DescribesBlock(r, s, text, b, word)
    ensures Describes(resources + [r], s, text, blocks + [b], word)
  {
    hide DescribesBlock;
  }

  lemma AddBlock(resources: seq<Resource>, s: string, text: string, blocks: seq<Span>, r: Resource, b: Span,
                 word: char -> bool)
    requires Tiles(s, blocks, word) && Describes(resources, s, text, blocks, word)
    requires End(blocks) <= b.start && DescribesBlock(r, s, text, b, word)
    requires forall i :: End(blocks) <= i < b.start ==> HeaderAt(s, i, word).None?
    ensures Tiles(s, blocks + [b], word) && Describes(resources + [r], s, text, blocks + [b], word)
    ensures End(blocks) < End(blocks + [b]) == b.closing + 1 <= |s|
  {
    hide *;
    BlockFacts(r, s, text, b, word);
    BlockInside(s, b, word);
    TilesStep(s, blocks, b, word);
    DescribesStep(resources, s, text, blocks, r, b, word);
  }

  // ---------- the outcome is determined

  lemma {:induction false} BlocksInOrder(s: string, blocks: seq<Span>, i: nat, j: nat, word: char -> bool)
    requires Tiles(s, blocks, word) && i < j < |blocks|
    ensures blocks[i].start < blocks[i].closing < blocks[j].start
    decreases j
  {
    hide IsBlock, HeaderAt;
    BlockInside(s, blocks[i], word);
    if i + 1 < j {
      BlocksInOrder(s, blocks, i, j - 1, word);
      BlockInside(s, blocks[j - 1], word);
    }
  }

  /** Each block is that of the first header after the block before it. */
  lemma NoHeaderBetween(s: string, blocks: seq<Span>, i: nat, h: nat, word: char -> bool)
    requires Tiles(s, blocks, word) && i < |blocks| && End(blocks[..i]) <= h < blocks[i].start
    ensures h < |s| && HeaderAt(s, h, word).None?
  {
    hide IsBlock, HeaderAt;
    var last := |blocks| - 1;
    BlockInside(s, blocks[i], word);
    BlockInside(s, blocks[last], word);
    if i < last { BlocksInOrder(s, blocks, i, last, word); }
    assert i > 0 ==> blocks[..i][i - 1] == blocks[i - 1];
    if HeaderAt(s, h, word).Some? {
      var b :| b in blocks && b.start <= h <= b.closing;
      var j :| 0 <= j < |blocks| && blocks[j] == b;
      if j < i {
        if j < i - 1 {
          BlocksInOrder(s, blocks, j, i - 1, word);
          BlockInside(s, blocks[i - 1], word);
        }
      } else if i < j {
        BlocksInOrder(s, blocks, i, j, word);
      }
    }
  }

  lemma SameBlock(s: string, a: Span, b: Span, word: char -> bool)
    requires IsBlock(s, a, word) && IsBlock(s, b, word) && a.start == b.start
    ensures a == b
  {
    hide HeaderAt, Closes;
  }

  /** Two tilings agree as far as both go. */
  lemma {:induction false} TilesAgree(s: string, p: seq<Span>, q: seq<Span>, i: nat, word: char -> bool)
    requires Tiles(s, p, word) && Tiles(s, q, word) && i <= |p| && i <= |q|
    ensures p[..i] == q[..i]
    decreases i
  {
    if i > 0 {
      TilesAgree(s, p, q, i - 1, word);
      NextAgrees(s, p, q, i - 1, word);
      assert p[..i] == p[..i - 1] + [p[i - 1]] && q[..i] == q[..i - 1] + [q[i - 1]];
    }
  }

  lemma NextAgrees(s: string, p: seq<Span>, q: seq<Span>, i: nat, word: char -> bool)
    requires Tiles(s, p, word) && Tiles(s, q, word) && i < |p| && i < |q| && p[..i] == q[..i]
    ensures p[i] == q[i]
  {
    hide HeaderAt, Closes;
    assert IsBlock(s, p[i], word) && IsBlock(s, q[i], word);
    EndBefore(s, p, i, word);
    EndBefore(s, q, i, word);
    if p[i].start < q[i].start { NoHeaderBetween(s, q, i, p[i].start, word); }
    if q[i].start < p[i].start { NoHeaderBetween(s, p, i, q[i].start, word); }
    SameBlock(s, p[i], q[i], word);
  }

  lemma EndBefore(s: string, blocks: seq<Span>, i: nat, word: char -> bool)
    requires Tiles(s, blocks, word) && i < |blocks|
    ensures End(blocks[..i]) <= blocks[i].start
  {
    hide IsBlock, HeaderAt;
  }

  lemma BlockCloses(s: string, b: Span, word: char -> bool)
    requires IsBlock(s, b, word)
    ensures b.start < |s| && HeaderAt(s, b.start, word).Some? && !Unmatched(s, b.start, word)
  {
    hide HeaderAt, Closes;
  }

  lemma TilesBlock(s: string, blocks: seq<Span>, i: nat, word: char -> bool)
    requires Tiles(s, blocks, word) && i < |blocks|
    ensures IsBlock(s, blocks[i], word)
  {
    hide IsBlock, HeaderAt;
    assert blocks[i] in blocks;
  }

  /** After the first blocks of a tiling comes a header that closes. */
  lemma NextBlockCloses(s: string, q: seq<Span>, n: nat, word: char -> bool)
    requires Tiles(s, q, word) && n < |q|
    ensures End(q[..n]) <= q[n].start < |s| && HeaderAt(s, q[n].start, word).Some?
    ensures forall start: nat :: !NextUnmatched(s, q[..n], start, word)
  {
    hide IsBlock, Tiles, HeaderAt, Unmatched, End;
    EndBefore(s, q, n, word);
    TilesBlock(s, q, n, word);
    BlockCloses(s, q[n], word);
    forall start: nat ensures !NextUnmatched(s, q[..n], start, word) {
      if End(q[..n]) <= start < q[n].start {
        NoHeaderBetween(s, q, n, start, word);
        NoHeaderNoBlock(s, start, word);
      }
    }
  }

  /** A shorter tiling is followed by a header that closes. */
  lemma NextCloses(s: string, p: seq<Span>, q: seq<Span>, word: char -> bool)
    requires Tiles(s, p, word) && Tiles(s, q, word) && |p| < |q|
    ensures End(p) <= q[|p|].start < |s| && HeaderAt(s, q[|p|].start, word).Some?
    ensures forall start: nat :: !NextUnmatched(s, p, start, word)
  {
    hide *;
    TilesAgree(s, p, q, |p|, word);
    assert q[..|p|] == p;
    NextBlockCloses(s, q, |p|, word);
  }

  lemma NoHeaderNoBlock(s: string, start: nat, word: char -> bool)
    requires start < |s| && HeaderAt(s, start, word).None?
    ensures !Unmatched(s, start, word)
  {
  }

  /** No extraction of a text has more blocks than another. */
  lemma NotShorter(a: Option<seq<Resource>>, b: Option<seq<Resource>>, s: string, text: string, p: seq<Span>,
                   q: seq<Span>, word: char -> bool)
    requires Extracts(a, s, text, p, word) && Extracts(b, s, text, q, word)
    ensures |p| >= |q|
  {
    hide HeaderAt, Unmatched, Tiles, Describes, NextUnmatched;
    if |p| < |q| {
      NextCloses(s, p, q, word);
    }
  }

  lemma SameDescriptions(a: seq<Resource>, b: seq<Resource>, s: string, text: string, blocks: seq<Span>,
                         word: char -> bool)
    requires Describes(a, s, text, blocks, word) && Describes(b, s, text, blocks, word)
    ensures a == b
  {
    forall k | 0 <= k < |blocks| ensures a[k] == b[k] {
      assert DescribesBlock(a[k], s, text, blocks[k], word) && DescribesBlock(b[k], s, text, blocks[k], word);
      hide HeaderAt, IsBlock, Balanced, Reference;
    }
  }

  lemma SameRefusal(a: Option<seq<Resource>>, b: Option<seq<Resource>>, s: string, text: string,
                    blocks: seq<Span>, word: char -> bool)
    requires Extracts(a, s, text, blocks, word) && Extracts(b, s, text, blocks, word)
    ensures a.None? ==> b.None?
  {
    hide HeaderAt, Tiles, Describes;
  }

  /** A text has one extraction: the same blocks, and the same resources or refusal. */
  lemma ExtractionUnique(a: Option<seq<Resource>>, b: Option<seq<Resource>>, s: string, text: string,
                         p: seq<Span>, q: seq<Span>, word: char -> bool)
    requires Extracts(a, s, text, p, word) && Extracts(b, s, text, q, word)
    ensures p == q && a == b
  {
    NotShorter(a, b, s, text, p, q, word);
    NotShorter(b, a, s, text, q, p, word);
    assert p == q by {
      TilesAgree(s, p, q, |p|, word);
      assert p[..|p|] == p && q[..|p|] == q;
    }
    SameRefusal(a, b, s, text, p, word);
    SameRefusal(b, a, s, text, p, word);
    if a.Some? {
      SameDescriptions(a.value, b.value, s, text, p, word);
    }
  }
}
