/** The second reader, which never changes the file (audit_readonly.py), and its agreement with the ledger. */
module AuditReadOnly {
  import opened Prelude
  import opened AuditContracts
  import opened AuditEvents
  import opened AuditLedger
  import opened AuditLedgerProofs

  const MAX_RETURNED_EVENTS := 500

  datatype Status = NoEvents | Complete | Partial

  /** The part of the report that the file determines. */
  datatype View = View(
    status: Status, events: seq<AuditEvent>, selected: seq<AuditEvent>, returned: seq<AuditEvent>,
    crashTail: nat, head: string, exportSha256: string)

  datatype Selector = Selector(runId: Option<string>, taskId: Option<string>)

  predicate Matches(e: AuditEvent, query: Selector)
  {
    && (query.runId.Some? ==> e.execution.runId == query.runId)
    && (query.taskId.Some? ==> e.execution.taskId == query.taskId)
  }

  function Select(events: seq<AuditEvent>, query: Selector): seq<AuditEvent>
  {
    if |events| == 0 then []
    else (if Matches(events[0], query) then [events[0]] else []) + Select(events[1..], query)
  }

  /** Complete records and the size of a recoverable tail; None when the tail is complete JSON. */
  function VerifiedPrefix(raw: Bytes, env: Platform): Option<(Bytes, nat)>
  {
    if |raw| == 0 || EndsWithLF(raw) then Some((raw, 0))
    else
      var boundary := AfterLastLF(raw);
      if LoadBytes(raw[boundary..], env).Some? then None else Some((raw[..boundary], |raw| - boundary))
  }

  /** The lines that read_verified_audit checks. */
  function VerifiedLines(verified: Bytes): seq<Bytes>
  {
    if |verified| == 0 then [] else SplitLF(verified[..|verified| - 1])
  }

  /** The chain-verification loop. */
  method VerifyLines(lines: seq<Bytes>, feature: string, env: Platform) returns (r: Option<seq<AuditEvent>>)
    requires |lines| <= MAX_EVENTS
    ensures r == ReadLines(lines, feature, env)
  {
    hide ReadLine, ZeroHash;
    var events: seq<AuditEvent> := [];
    var expected := ZeroHash();
    for index := 0 to |lines|
      invariant ReadLines(lines[..index], feature, env) == Some(events)
      invariant expected == Head(events)
    {
      assert lines[..index + 1][..index] == lines[..index];
      var e := ReadLine(lines[index], index + 1, expected, feature, env);
      if e.None? {
        ReadLinesStops(lines, index + 1, feature, env);
        return None;
      }
      expected := e.value.sha256;
      events := events + [e.value];
    }
    assert lines[..|lines|] == lines;
    return Some(events);
  }

  /** The events a read-only verification reports, and the size of the crash tail beside them. */
  function Verified(raw: Bytes, feature: string, env: Platform): (r: Option<(seq<AuditEvent>, nat)>)
    ensures r.Some? ==> r.value.1 <= |raw|
  {
    var prefix := VerifiedPrefix(raw, env);
    if |raw| > MAX_LEDGER_BYTES || prefix.None? then None
    else
      var lines := VerifiedLines(prefix.value.0);
      if |lines| > MAX_EVENTS then None
      else
        var events := ReadLines(lines, feature, env);
        if events.None? then None else Some((events.value, prefix.value.1))
  }

  /** read_verified_audit on the bytes of the events file (a missing file reads as empty). */
  method ReadVerifiedAudit(raw: Bytes, feature: string, query: Selector, env: Platform) returns (r: Option<View>)
    ensures r.Some? <==> Verified(raw, feature, env).Some?
    ensures r.Some? ==>
              var (events, tail) := Verified(raw, feature, env).value;
              && r.value.events == events && r.value.crashTail == tail
              && r.value.status == (if tail > 0 then Partial else if |events| > 0 then Complete else NoEvents)
              && r.value.selected == Select(events, query)
              && r.value.returned <= r.value.selected
              && |r.value.returned| == (if |r.value.selected| < 500 then |r.value.selected| else 500)
              && r.value.head == Head(events) && r.value.exportSha256 == Digest(raw[..|raw| - tail], env)
  {
    hide ReadLines, LoadBytes, ZeroHash;
    if |raw| > MAX_LEDGER_BYTES {
      return None;
    }
    var prefix := VerifiedPrefix(raw, env);
    if prefix.None? {
      return None;
    }
    var (verified, tail) := prefix.value;
    assert verified == raw[..|raw| - tail];
    var lines := VerifiedLines(verified);
    if |lines| > MAX_EVENTS {
      return None;
    }
    var events := VerifyLines(lines, feature, env);
    if events.None? {
      return None;
    }
    var selected := Select(events.value, query);
    var returned := if |selected| <= MAX_RETURNED_EVENTS then selected else selected[..MAX_RETURNED_EVENTS];
    var status := if tail > 0 then Partial else if |events.value| > 0 then Complete else NoEvents;
    return Some(View(status, events.value, selected, returned, tail, Head(events.value), Digest(verified, env)));
  }

  lemma TooManyLines(lines: seq<Bytes>, feature: string, env: Platform)
    requires |lines| > MAX_EVENTS
    ensures ReadLines(lines, feature, env).None?
  {
    hide ReadLine;
  }

  lemma EmptyReads(feature: string, env: Platform)
    ensures ReadLines([], feature, env) == Some([])
  {
  }

  /**
   * The two readers agree on every byte string. Without a crash tail the read-only verifier
   * accepts exactly what the ledger reads, with the same events. With one, the ledger's strict
   * read fails and its recovering read keeps exactly the bytes before the tail and returns the
   * same events, unless no complete record remains. What it rejects, the ledger rejects.
   */
  lemma ReadersAgree(raw: Bytes, feature: string, env: Platform)
    ensures var view := Verified(raw, feature, env);
            && (view.Some? && view.value.1 == 0 <==> StrictRead(raw, feature, env).Some?)
            && (view.Some? && view.value.1 == 0 ==> StrictRead(raw, feature, env) == Some(view.value.0))
            && (view.Some? && view.value.1 > 0 ==>
                  var left := raw[..|raw| - view.value.1];
                  && Recovered(raw, env) == Some(left)
                  && RecoveringRead(raw, feature, env) == (if |left| > 0 then Some(view.value.0) else None)
                  && (|left| == 0 ==> view.value.0 == []))
            && (view.None? ==> StrictRead(raw, feature, env).None? && RecoveringRead(raw, feature, env).None?)
  {
    hide ReadLines, LoadBytes;
    EmptyReads(feature, env);
    EmptyLineRefused(feature, env);
    var prefix := VerifiedPrefix(raw, env);
    if prefix.Some? {
      var lines := VerifiedLines(prefix.value.0);
      if |lines| > MAX_EVENTS {
        TooManyLines(lines, feature, env);
      }
    }
  }

  /** Where both accept, the export digest of the view is the one verify() reports. */
  lemma SameExportDigest(raw: Bytes, feature: string, env: Platform)
    requires StrictRead(raw, feature, env).Some?
    ensures var events := StrictRead(raw, feature, env).value;
            && Verified(raw, feature, env) == Some((events, 0))
            && (forall e <- events :: Record(e).Some?)
            && Digest(raw, env) == Digest(Render(events), env)
  {
    hide StrictRead, Verified, Record, Recovered, RecoveringRead;
    ReadersAgree(raw, feature, env);
    AcceptedIff(raw, StrictRead(raw, feature, env).value, feature, env);
  }
}
