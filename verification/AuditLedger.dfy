/**
 * The append-only, hash-chained ledger file (audit_ledger.py). What reading, recovering and
 * appending compute is given by functions on the file's bytes; the class changes the file.
 */
module AuditLedger {
  import opened Prelude
  import opened AuditContracts
  import opened AuditEvents

  /** SDAI-AUDIT-002/003 for a refused event, -005 for a broken ledger, -006 for the system. */
  datatype AuditError = Refused | Integrity | Io

  /** The digest the next event must name as its predecessor. */
  function Head(events: seq<AuditEvent>): string
  {
    if |events| == 0 then ZeroHash() else events[|events| - 1].sha256
  }

  /** What one line must be to stand at `index` after an event with digest `previous`. */
  function ReadLine(line: Bytes, index: nat, previous: string, feature: string, env: Platform): Option<AuditEvent>
  {
    if |line| == 0 || |line| > MAX_EVENT_BYTES then None
    else
      var e := ReadRecord(line, env);
      if e.None? || Record(e.value) != Some(line) || e.value.featureId != feature
         || e.value.sequence != index || e.value.previousSha256 != previous
      then None else e
  }

  /** The events of consecutive lines, or None as soon as one line is refused. */
  function ReadLines(lines: seq<Bytes>, feature: string, env: Platform): Option<seq<AuditEvent>>
  {
    if |lines| == 0 then Some([])
    else
      var before := ReadLines(lines[..|lines| - 1], feature, env);
      if before.None? then None
      else
        var e := ReadLine(lines[|lines| - 1], |lines|, Head(before.value), feature, env);
        if e.None? || |lines| > MAX_EVENTS then None else Some(before.value + [e.value])
  }

  /** content[:-1], which Python allows on empty bytes. */
  function DropLast(content: Bytes): Bytes
  {
    if |content| == 0 then content else content[..|content| - 1]
  }

  predicate EndsWithLF(content: Bytes)
  {
    |content| > 0 && content[|content| - 1] == LF
  }

  /** The bytes after the last LF. */
  function Tail(content: Bytes): Bytes
  {
    content[AfterLastLF(content)..]
  }

  /** The bytes that tail recovery leaves, or None when the tail is complete JSON. */
  function Recovered(content: Bytes, env: Platform): Option<Bytes>
  {
    if |content| == 0 || EndsWithLF(content) then Some(content)
    else if LoadBytes(Tail(content), env).Some? then None
    else Some(content[..AfterLastLF(content)])
  }

  /** Reading without recovery: read(), verify() and export_jsonl(). */
  function StrictRead(content: Bytes, feature: string, env: Platform): Option<seq<AuditEvent>>
  {
    if |content| > MAX_LEDGER_BYTES then None
    else if |content| == 0 then Some([])
    else if !EndsWithLF(content) then None
    else ReadLines(SplitLF(DropLast(content)), feature, env)
  }

  /** Reading with recovery, as append() does. */
  function RecoveringRead(content: Bytes, feature: string, env: Platform): Option<seq<AuditEvent>>
  {
    var kept := Recovered(content, env);
    if |content| > MAX_LEDGER_BYTES || kept.None? then None
    else if |content| == 0 then Some([])
    else ReadLines(SplitLF(DropLast(kept.value)), feature, env)
  }

  /** The canonical records of events, in order. */
  function Records(events: seq<AuditEvent>): seq<Bytes>
    requires forall e <- events :: Record(e).Some?
  {
    seq(|events|, j requires 0 <= j < |events| => Record(events[j]).value)
  }

  /** The file that holds exactly these events; also what export_jsonl returns. */
  function Render(events: seq<AuditEvent>): Bytes
    requires forall e <- events :: Record(e).Some?
  {
    Terminated(Records(events))
  }

  /** What append() decides before it writes. */
  datatype Plan =
    | Refuse(error: AuditError, left: Bytes)
    | Write(event: AuditEvent, base: Bytes, bytes: Bytes)

  function PlanAppend(content: Bytes, feature: string, d: Draft, env: Platform): Plan
  {
    var kept := Recovered(content, env);
    if |content| > MAX_LEDGER_BYTES || kept.None? then Refuse(Integrity, content)
    else
      var base := kept.value;
      var events := RecoveringRead(content, feature, env);
      if events.None? || |events.value| >= MAX_EVENTS then Refuse(Integrity, base)
      else
        var e := Create(|events.value| + 1, feature, d, Head(events.value), env);
        if e.None? || Record(e.value).None? then Refuse(Refused, base)
        else
          var bytes := Record(e.value).value + [LF];
          if |bytes| > MAX_EVENT_BYTES then Refuse(Refused, base)
          else if |base| + |bytes| > MAX_LEDGER_BYTES then Refuse(Integrity, base)
          else Write(e.value, base, bytes)
  }

  /** What reading leaves in the file. */
  function LeftByRead(content: Bytes, recover: bool, os: Os, env: Platform): Bytes
  {
    var kept := Recovered(content, env);
    if recover && os.truncates && |content| <= MAX_LEDGER_BYTES && kept.Some? then kept.value else content
  }

  /** What reading answers. */
  function ReadOutcome(content: Bytes, recover: bool, os: Os, feature: string,
                       env: Platform): Result<seq<AuditEvent>, AuditError>
  {
    var kept := Recovered(content, env);
    if && recover && !(os.truncates && os.cutSyncs) && |content| <= MAX_LEDGER_BYTES
       && kept.Some? && kept.value != content
    then Err(Io)
    else
      var events := if recover then RecoveringRead(content, feature, env) else StrictRead(content, feature, env);
      if events.Some? then Ok(events.value) else Err(Integrity)
  }

  /** How many of `total` bytes the given os.write results transfer before a zero or the end. */
  function Transferred(total: nat, writes: seq<nat>): (n: nat)
    ensures n <= total
  {
    if total == 0 || |writes| == 0 || writes[0] == 0 then 0
    else
      var now := if writes[0] < total then writes[0] else total;
      now + Transferred(total - now, writes[1..])
  }

  /**
   * How the operating system answers one append: whether the file can be truncated and the cut
   * synchronized, whether the file opens, what each os.write transfers (a zero raises, the end of
   * the list is a crash), and whether the data reaches the disk.
   */
  datatype Os = Os(truncates: bool, cutSyncs: bool, opens: bool, writes: seq<nat>, syncs: bool)

  /** What one append leaves in the file, and what it answers. */
  function AppendOutcome(content: Bytes, feature: string, d: Draft, os: Os,
                         env: Platform): (Bytes, Result<AuditEvent, AuditError>)
  {
    var read := ReadOutcome(content, true, os, feature, env);
    if read == Err(Io) then (LeftByRead(content, true, os, env), Err(Io))
    else
      match PlanAppend(content, feature, d, env)
      case Refuse(error, left) => (left, Err(error))
      case Write(event, base, bytes) =>
        var sent := if os.opens then Transferred(|bytes|, os.writes) else 0;
        (base + bytes[..sent], if sent == |bytes| && os.syncs then Ok(event) else Err(Io))
  }

  /** The events file of one feature, as append() and the readers see it under the lock. */
  class EventsFile {
    const feature: string
    const env: Platform
    var content: Bytes

    constructor (feature: string, content: Bytes, env: Platform)
      ensures this.feature == feature && this.content == content && this.env == env
    {
      this.feature, this.content, this.env := feature, content, env;
    }

    /** Cut the file to its first `size` bytes; a cut whose synchronization fails still happened. */
    method Truncate(size: nat, os: Os) returns (done: bool)
      requires size <= |content|
      modifies this
      ensures done <==> os.truncates && os.cutSyncs
      ensures content == if os.truncates then old(content)[..size] else old(content)
    {
      if !os.truncates {
        return false;
      }
      content := content[..size];
      return os.cutSyncs;
    }

    /** The short-write loop: the file grows by a prefix of `bytes`, all of it on success. */
    method WriteAll(bytes: Bytes, writes: seq<nat>) returns (done: bool)
      modifies this
      ensures content == old(content) + bytes[..Transferred(|bytes|, writes)]
      ensures done <==> Transferred(|bytes|, writes) == |bytes|
    {
      var view := bytes;
      var script: seq<nat> := writes;
      ghost var sent: nat := 0;
      while |view| > 0
        invariant sent <= |bytes| && view == bytes[sent..]
        invariant content == old(content) + bytes[..sent]
        invariant Transferred(|bytes|, writes) == sent + Transferred(|view|, script)
        decreases |view|
      {
        if |script| == 0 || script[0] == 0 {
          return false;
        }
        var written := if script[0] < |view| then script[0] else |view|;
        assert bytes[..sent] + view[..written] == bytes[..sent + written];
        content := content + view[..written];
        view, script := view[written..], script[1..];
        sent := sent + written;
      }
      return true;
    }

    /** _read_locked: the size bound, tail recovery, then line by line. */
    method ReadLocked(recover: bool, os: Os) returns (r: Result<seq<AuditEvent>, AuditError>)
      modifies this
      ensures content == LeftByRead(old(content), recover, os, env)
      ensures r == ReadOutcome(old(content), recover, os, feature, env)
    {
      if |content| > MAX_LEDGER_BYTES {
        return Err(Integrity);
      }
      if |content| == 0 {
        return Ok([]);
      }
      var working := content;
      if !EndsWithLF(working) {
        var boundary := AfterLastLF(working);
        if !recover || LoadBytes(working[boundary..], env).Some? {
          return Err(Integrity);
        }
        working := working[..boundary];
        var done := Truncate(boundary, os);
        if !done {
          return Err(Io);
        }
      }
      var events := ParseLines(SplitLF(DropLast(working)), feature, env);
      return if events.Some? then Ok(events.value) else Err(Integrity);
    }

    /** append(): recover, read, create, then write the record and its LF. */
    method Append(d: Draft, os: Os) returns (r: Result<AuditEvent, AuditError>)
      modifies this
      ensures (content, r) == AppendOutcome(old(content), feature, d, os, env)
    {
      hide Create, Record, Recovered, ReadLines, Transferred, Head;
      var events :- ReadLocked(true, os);
      if |events| >= MAX_EVENTS {
        return Err(Integrity);
      }
      var event := Create(|events| + 1, feature, d, Head(events), env);
      if event.None? || Record(event.value).None? {
        return Err(Refused);
      }
      var encoded := Record(event.value).value + [LF];
      if |encoded| > MAX_EVENT_BYTES {
        return Err(Refused);
      }
      if |content| + |encoded| > MAX_LEDGER_BYTES {
        return Err(Integrity);
      }
      if !os.opens {
        assert content + encoded[..0] == content;
        return Err(Io);
      }
      var written := WriteAll(encoded, os.writes);
      if !written || !os.syncs {
        return Err(Io);
      }
      return Ok(event.value);
    }
  }

  /** The loop of _parse_bytes over the split lines. */
  method ParseLines(lines: seq<Bytes>, feature: string, env: Platform) returns (r: Option<seq<AuditEvent>>)
    ensures r == ReadLines(lines, feature, env)
  {
    hide ReadLine, ZeroHash;
    var events: seq<AuditEvent> := [];
    var previous := ZeroHash();
    var index := 0;
    while index < |lines|
      invariant 0 <= index <= |lines|
      invariant ReadLines(lines[..index], feature, env) == Some(events)
      invariant previous == Head(events)
    {
      var next := ReadLine(lines[index], index + 1, previous, feature, env);
      assert lines[..index + 1][..index] == lines[..index];
      if next.None? || index + 1 > MAX_EVENTS {
        ReadLinesStops(lines, index + 1, feature, env);
        return None;
      }
      events := events + [next.value];
      previous := next.value.sha256;
      index := index + 1;
    }
    assert lines[..|lines|] == lines;
    return Some(events);
  }

  /** Once a prefix of the lines is refused, all of them are. */
  lemma {:induction false} ReadLinesStops(lines: seq<Bytes>, n: nat, feature: string, env: Platform)
    requires n <= |lines| && ReadLines(lines[..n], feature, env).None?
    ensures ReadLines(lines, feature, env).None?
    decreases |lines|
  {
    hide ReadLine;
    if n == |lines| {
      assert lines[..n] == lines;
    } else {
      assert lines[..|lines| - 1][..n] == lines[..n];
      ReadLinesStops(lines[..|lines| - 1], n, feature, env);
    }
  }
}
