/** Options, results, and the small facts about byte strings shared by every module. */
module Prelude {

  datatype Option<+T> = None | Some(value: T)

  datatype Result<+T, +E> = Ok(value: T) | Err(error: E)
  {
    predicate IsFailure() { Err? }

    function PropagateFailure<U>(): Result<U, E>
      requires Err?
    {
      Err(error)
    }

    function Extract(): T
      requires Ok?
    {
      value
    }
  }

  type Byte = b: int | 0 <= b < 256
  type Bytes = seq<Byte>

  /** The record separator of the ledger. */
  const LF: Byte := 10

  /** The pieces of `b` between LF bytes, as bytes.split(b"\n") returns them: never empty. */
  function SplitLF(b: Bytes): (pieces: seq<Bytes>)
    ensures |pieces| >= 1
  {
    if |b| == 0 then [[]]
    else
      var rest := SplitLF(b[1..]);
      if b[0] == LF then [[]] + rest else [[b[0]] + rest[0]] + rest[1..]
  }

  /** One past the last LF, or 0 when there is none: bytes.rfind(b"\n") + 1. */
  function AfterLastLF(b: Bytes): (n: nat)
    ensures n <= |b|
    ensures LF !in b[n..]
    ensures n > 0 ==> b[n - 1] == LF
  {
    if |b| == 0 then 0
    else if b[|b| - 1] == LF then |b|
    else
      var n := AfterLastLF(b[..|b| - 1]);
      assert b[n..] == b[..|b| - 1][n..] + [b[|b| - 1]];
      n
  }

  /** Every line followed by LF. */
  function Terminated(lines: seq<Bytes>): Bytes
  {
    if |lines| == 0 then [] else lines[0] + [LF] + Terminated(lines[1..])
  }

  lemma {:induction false} TerminatedAppend(xs: seq<Bytes>, ys: seq<Bytes>)
    ensures Terminated(xs + ys) == Terminated(xs) + Terminated(ys)
  {
    if |xs| == 0 {
      assert xs + ys == ys;
    } else {
      assert (xs + ys)[1..] == xs[1..] + ys;
      TerminatedAppend(xs[1..], ys);
    }
  }

  lemma {:induction false} TerminatedSnoc(xs: seq<Bytes>, y: Bytes)
    ensures Terminated(xs + [y]) == Terminated(xs) + y + [LF]
  {
    TerminatedAppend(xs, [y]);
    assert Terminated([y]) == y + [LF] + Terminated([]);
  }

  /** Splitting at LF and terminating again: only the last LF is missing from the input. */
  lemma {:induction false} TerminatedSplit(b: Bytes)
    ensures Terminated(SplitLF(b)) == b + [LF]
  {
    if |b| == 0 {
      assert Terminated([[]]) == [] + [LF] + Terminated([]);
    } else {
      TerminatedSplit(b[1..]);
      var rest := SplitLF(b[1..]);
      assert b == [b[0]] + b[1..];
      if b[0] == LF {
        assert SplitLF(b)[1..] == rest;
      } else {
        assert SplitLF(b)[1..] == rest[1..];
        assert Terminated(SplitLF(b)) == [b[0]] + (rest[0] + [LF] + Terminated(rest[1..]));
      }
    }
  }

  lemma {:induction false} SplitHasNoLF(b: Bytes)
    ensures forall piece <- SplitLF(b) :: LF !in piece
  {
    if |b| > 0 {
      SplitHasNoLF(b[1..]);
      var rest := SplitLF(b[1..]);
      assert rest[0] in rest;
      forall piece | piece in SplitLF(b)
        ensures LF !in piece
      {
        if b[0] != LF && piece != [b[0]] + rest[0] {
          assert piece in rest[1..];
        }
      }
    }
  }

  /** LF-free lines come back unchanged when their text, without its last LF, is split. */
  lemma {:induction false} SplitTerminated(lines: seq<Bytes>)
    requires |lines| > 0
    requires forall line <- lines :: LF !in line
    ensures |Terminated(lines)| > 0
    ensures SplitLF(Terminated(lines)[..|Terminated(lines)| - 1]) == lines
    decreases |lines|, |lines[0]|
  {
    var all := Terminated(lines);
    var head, tail := lines[0], lines[1..];
    assert head in lines;
    if |head| == 0 {
      assert all == [LF] + Terminated(tail);
      if |tail| == 0 {
        assert all[..|all| - 1] == [];
      } else {
        SplitTerminated(tail);
        assert all[..|all| - 1][1..] == Terminated(tail)[..|Terminated(tail)| - 1];
        assert lines == [[]] + tail;
      }
    } else {
      assert head[0] in head;
      var shorter := [head[1..]] + tail;
      forall line | line in shorter ensures LF !in line {
        if line != head[1..] { assert line in tail; }
      }
      SplitTerminated(shorter);
      assert shorter[1..] == tail;
      assert all == [head[0]] + Terminated(shorter);
      assert all[..|all| - 1][1..] == Terminated(shorter)[..|Terminated(shorter)| - 1];
      assert head == [head[0]] + head[1..];
    }
  }

  lemma {:induction false} TerminatedEndsWithLF(lines: seq<Bytes>)
    ensures |lines| > 0 ==> |Terminated(lines)| > 0 && Terminated(lines)[|Terminated(lines)| - 1] == LF
    ensures |lines| == 0 ==> Terminated(lines) == []
  {
    if |lines| > 1 {
      TerminatedEndsWithLF(lines[1..]);
    }
  }

  /** Complete lines followed by an LF-free tail: the boundary is exactly between them. */
  lemma {:induction false} AfterLastLFOfTail(complete: Bytes, tail: Bytes)
    requires |complete| > 0 ==> complete[|complete| - 1] == LF
    requires LF !in tail
    ensures AfterLastLF(complete + tail) == |complete|
  {
    var n := AfterLastLF(complete + tail);
    assert |complete| > 0 ==> (complete + tail)[|complete| - 1] == LF;
  }
}
