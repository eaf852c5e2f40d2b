/**
 * What the ledger file guarantees: which bytes are accepted, what every crash point leaves,
 * and why a changed ledger cannot keep its head digest.
 */
module AuditLedgerProofs {
  import opened Prelude
  import opened AuditContracts
  import Json
  import opened AuditEvents
  import opened AuditEventProofs
  import opened AuditLedger

  // ---------- accepted files are exactly the renderings of valid chains

  /** Event `j` has a readable one-line record and continues the chain before it. */
  predicate Link(events: seq<AuditEvent>, j: nat, feature: string, env: Platform)
    requires j < |events|
  {
    var e := events[j];
    && Record(e).Some? && ReadRecord(Record(e).value, env) == Some(e)
    && 0 < |Record(e).value| <= MAX_EVENT_BYTES && LF !in Record(e).value
    && e.featureId == feature && e.sequence == j + 1 && e.previousSha256 == Head(events[..j])
  }

  predicate ValidChain(events: seq<AuditEvent>, feature: string, env: Platform)
  {
    |events| <= MAX_EVENTS && forall j :: 0 <= j < |events| ==> Link(events, j, feature, env)
  }

  lemma ChainRecords(events: seq<AuditEvent>, feature: string, env: Platform)
    requires ValidChain(events, feature, env)
    ensures forall e <- events :: Record(e).Some?
  {
    forall e | e in events ensures Record(e).Some? {
      var j :| 0 <= j < |events| && events[j] == e;
      assert Link(events, j, feature, env);
    }
  }

  lemma LinkOfPrefix(events: seq<AuditEvent>, more: seq<AuditEvent>, j: nat, feature: string, env: Platform)
    requires j < |events|
    ensures Link(events + more, j, feature, env) == Link(events, j, feature, env)
  {
    hide Record, ReadRecord, Head;
    assert (events + more)[..j] == events[..j];
  }

  /** A chain grows by exactly one link. */
  lemma ChainSnoc(events: seq<AuditEvent>, e: AuditEvent, feature: string, env: Platform)
    requires |events| < MAX_EVENTS
    ensures ValidChain(events + [e], feature, env) <==>
              ValidChain(events, feature, env) && Link(events + [e], |events|, feature, env)
  {
    hide Link;
    var all := events + [e];
    forall j | 0 <= j < |events| ensures Link(all, j, feature, env) == Link(events, j, feature, env) {
      LinkOfPrefix(events, [e], j, feature, env);
    }
  }

  lemma RecordsSnoc(events: seq<AuditEvent>, e: AuditEvent)
    requires (forall x <- events :: Record(x).Some?) && Record(e).Some?
    ensures Records(events + [e]) == Records(events) + [Record(e).value]
    ensures Render(events + [e]) == Render(events) + Record(e).value + [LF]
  {
    hide Record;
    assert Records(events + [e]) == Records(events) + [Record(e).value];
    TerminatedSnoc(Records(events), Record(e).value);
  }

  /** One line is read as `e` exactly when `e` is a link whose record is that line. */
  lemma ReadLineIsLink(events: seq<AuditEvent>, line: Bytes, e: AuditEvent, feature: string, env: Platform)
    requires LF !in line
    ensures ReadLine(line, |events| + 1, Head(events), feature, env) == Some(e) <==>
              Record(e) == Some(line) && Link(events + [e], |events|, feature, env)
  {
    hide Record, ReadRecord, Head;
    assert (events + [e])[..|events|] == events;
  }

  /** Lines are read as `events` exactly when they are the records of that valid chain. */
  lemma {:induction false} ReadLinesIff(lines: seq<Bytes>, events: seq<AuditEvent>, feature: string, env: Platform)
    requires forall line <- lines :: LF !in line
    ensures ReadLines(lines, feature, env) == Some(events) <==>
              |events| == |lines| && ValidChain(events, feature, env) &&
              (forall j :: 0 <= j < |lines| ==> Record(events[j]) == Some(lines[j]))
    decreases |lines|
  {
    hide ReadLine, Link, Record;
    if |lines| > 0 {
      var n := |lines| - 1;
      if |events| == |lines| {
        var before, e := events[..n], events[n];
        assert events == before + [e];
        ReadLinesIff(lines[..n], before, feature, env);
        ReadLineIsLink(before, lines[n], e, feature, env);
        ReadLinesStep(lines, before, e, feature, env);
        if n < MAX_EVENTS {
          ChainSnoc(before, e, feature, env);
        }
      } else {
        ReadLinesLength(lines, feature, env);
      }
    }
  }

  lemma ReadLinesStep(lines: seq<Bytes>, before: seq<AuditEvent>, e: AuditEvent, feature: string, env: Platform)
    requires |lines| == |before| + 1
    ensures ReadLines(lines, feature, env) == Some(before + [e]) <==>
              && ReadLines(lines[..|before|], feature, env) == Some(before)
              && ReadLine(lines[|before|], |lines|, Head(before), feature, env) == Some(e)
              && |lines| <= MAX_EVENTS
  {
    hide ReadLine, Head;
    var all := ReadLines(lines, feature, env);
    if all == Some(before + [e]) {
      ReadLinesLength(lines[..|before|], feature, env);
      var earlier := ReadLines(lines[..|before|], feature, env).value;
      assert all.value[..|earlier|] == earlier && (before + [e])[..|before|] == before;
    }
  }

  lemma {:induction false} ReadLinesLength(lines: seq<Bytes>, feature: string, env: Platform)
    ensures var r := ReadLines(lines, feature, env); r.Some? ==> |r.value| == |lines|
    decreases |lines|
  {
    hide ReadLine;
    if |lines| > 0 {
      ReadLinesLength(lines[..|lines| - 1], feature, env);
    }
  }

  lemma RecordsNoLF(events: seq<AuditEvent>, feature: string, env: Platform)
    requires ValidChain(events, feature, env) && forall e <- events :: Record(e).Some?
    ensures forall line <- Records(events) :: LF !in line
  {
    forall line | line in Records(events) ensures LF !in line {
      var j :| 0 <= j < |events| && Records(events)[j] == line;
      assert Link(events, j, feature, env);
    }
  }

  /** A file of complete lines is read as `events` exactly when it renders that valid chain. */
  lemma LinesReadIff(content: Bytes, events: seq<AuditEvent>, feature: string, env: Platform)
    requires EndsWithLF(content)
    ensures ReadLines(SplitLF(DropLast(content)), feature, env) == Some(events) <==>
              ValidChain(events, feature, env) && (forall e <- events :: Record(e).Some?) && content == Render(events)
  {
    hide ReadLines, ValidChain, Record;
    var lines := SplitLF(DropLast(content));
    SplitHasNoLF(DropLast(content));
    TerminatedSplit(DropLast(content));
    assert Terminated(lines) == content;
    ReadLinesIff(lines, events, feature, env);
    if ReadLines(lines, feature, env) == Some(events) {
      ChainRecords(events, feature, env);
      assert Records(events) == lines;
    }
    if ValidChain(events, feature, env) && (forall e <- events :: Record(e).Some?) && content == Render(events) {
      RecordsNoLF(events, feature, env);
      TerminatedEndsWithLF(Records(events));
      SplitTerminated(Records(events));
      assert lines == Records(events);
    }
  }

  /**
   * The accepted ledgers: reading returns `events` exactly when they form a valid chain and the
   * file is their rendering, byte for byte. In particular export_jsonl returns the file itself.
   */
  lemma AcceptedIff(content: Bytes, events: seq<AuditEvent>, feature: string, env: Platform)
    ensures StrictRead(content, feature, env) == Some(events) <==>
              && |content| <= MAX_LEDGER_BYTES && ValidChain(events, feature, env)
              && (forall e <- events :: Record(e).Some?) && content == Render(events)
  {
    hide ReadLines, Record, Link;
    if EndsWithLF(content) {
      LinesReadIff(content, events, feature, env);
    } else if forall e <- events :: Record(e).Some? {
      TerminatedEndsWithLF(Records(events));
    }
  }

  // ---------- appending

  /** An accepted file has nothing to recover, and both kinds of read agree on it. */
  lemma AcceptedNeedsNoRecovery(content: Bytes, feature: string, env: Platform)
    requires StrictRead(content, feature, env).Some?
    ensures Recovered(content, env) == Some(content)
    ensures RecoveringRead(content, feature, env) == StrictRead(content, feature, env)
  {
  }

  /** The event an append writes is the next link, and its record torn anywhere is not JSON. */
  lemma PlannedEvent(content: Bytes, events: seq<AuditEvent>, feature: string, d: Draft, env: Platform)
    requires Lawful(env) && ValidDraft(d, env) && FeatureId(feature)
    requires StrictRead(content, feature, env) == Some(events)
    requires PlanAppend(content, feature, d, env).Write?
    ensures var Write(e, base, bytes) := PlanAppend(content, feature, d, env);
            && base == content && Record(e).Some? && bytes == Record(e).value + [LF]
            && Link(events + [e], |events|, feature, env) && |events| < MAX_EVENTS && FromDraft(e, d, env)
            && |content| + |bytes| <= MAX_LEDGER_BYTES
            && (forall k: nat :: k < |bytes| - 1 ==> LoadBytes(bytes[..k], env).None?)
            && LoadBytes(bytes[..|bytes| - 1], env).Some?
  {
    hide Create, Record, LoadBytes, FromMapping, ValidDraft, StrictRead, Recovered, RecoveringRead, FeatureId;
    hide FromDraft;
    AcceptedNeedsNoRecovery(content, feature, env);
    var Write(e, base, bytes) := PlanAppend(content, feature, d, env);
    FeatureIdIsStripped(feature);
    CreatedReadsBack(|events| + 1, feature, d, Head(events), env);
    CreateSettles(|events| + 1, feature, d, Head(events), env);
    CreatedFromDraft(|events| + 1, feature, d, Head(events), env);
    assert (events + [e])[..|events|] == events;
    TornCreated(|events| + 1, feature, d, Head(events), env);
    assert bytes[..|bytes| - 1] == Record(e).value;
    forall k: nat | k < |bytes| - 1 ensures LoadBytes(bytes[..k], env).None? {
      assert bytes[..k] == Record(e).value[..k];
    }
  }

  /**
   * On an accepted ledger an append goes through exactly when there is room for one more event, the
   * draft can be an event, and its record fits the bounds on records and on the ledger.
   */
  lemma PlannedIff(content: Bytes, events: seq<AuditEvent>, feature: string, d: Draft, env: Platform)
    requires Lawful(env) && ValidDraft(d, env) && FeatureId(feature)
    requires StrictRead(content, feature, env) == Some(events)
    ensures var e := Create(|events| + 1, feature, d, Head(events), env);
            PlanAppend(content, feature, d, env).Write? <==>
              && |events| < MAX_EVENTS && d.category in EVENT_CATEGORIES && Timestamp(d.occurredAt, env).Some?
              && DistinctIdentities(SortBindings(d.bindings)) && Freezable(Json.Obj(d.metadata), env)
              && e.Some? && Record(e.value).Some? && |Record(e.value).value| + 1 <= MAX_EVENT_BYTES
              && |content| + |Record(e.value).value| + 1 <= MAX_LEDGER_BYTES
    ensures |events| < MAX_EVENTS && d.category in EVENT_CATEGORIES && Timestamp(d.occurredAt, env).Some?
            && DistinctIdentities(SortBindings(d.bindings)) && Freezable(Json.Obj(d.metadata), env) ==>
              var e := Create(|events| + 1, feature, d, Head(events), env); e.Some? && Record(e.value).Some?
  {
    hide Create, Record, LoadBytes, FromMapping, ValidDraft, StrictRead, Recovered, RecoveringRead, FeatureId, Link;
    hide Timestamp, Freezable, DistinctIdentities, SortBindings;
    AcceptedNeedsNoRecovery(content, feature, env);
    FeatureIdIsStripped(feature);
    AcceptedIff(content, events, feature, env);
    HeadIsSha(events, feature, env);
    CreateIff(|events| + 1, feature, d, Head(events), env);
    if Create(|events| + 1, feature, d, Head(events), env).Some? {
      CreatedReadsBack(|events| + 1, feature, d, Head(events), env);
    }
  }

  lemma HeadIsSha(events: seq<AuditEvent>, feature: string, env: Platform)
    requires Lawful(env) && ValidChain(events, feature, env)
    ensures IsSha256(Head(events))
  {
    hide Record, LoadBytes, IsSha256, Link;
    ZeroHashIsSha();
    if |events| > 0 {
      LinkDigest(events, |events| - 1, feature, env);
      DigestIsSha(CanonicalBytes(BodyJson(events[|events| - 1])).value, env);
    }
  }

  lemma TornCreated(sequence: int, feature: string, d: Draft, previous: string, env: Platform)
    requires Lawful(env) && ValidDraft(d, env) && Create(sequence, feature, d, previous, env).Some?
    requires Record(Create(sequence, feature, d, previous, env).value).Some?
    ensures var record := Record(Create(sequence, feature, d, previous, env).value).value;
            && (forall k: nat :: k < |record| ==> LoadBytes(record[..k], env).None?)
            && LoadBytes(record, env).Some?
  {
    hide Create, LoadBytes, CanonicalBytes, ValidDraft, FromMapping;
    CreateSettles(sequence, feature, d, previous, env);
    DraftMetadata(d, env);
    var e := Create(sequence, feature, d, previous, env).value;
    EventWellFormed(e, env.floatRepr);
    LoadCanonical(EventJson(e), env);
    forall k: nat | k < |Record(e).value| ensures LoadBytes(Record(e).value[..k], env).None? {
      TornCanonical(EventJson(e), k, env);
    }
  }

  /**
   * What append() answers is what it wrote: the event of its draft, numbered and linked after the
   * events that were there, whose record now ends a ledger that reads as those events and this one.
   */
  lemma AppendAnswers(content: Bytes, feature: string, d: Draft, os: Os, env: Platform)
    requires Lawful(env) && ValidDraft(d, env) && FeatureId(feature)
    requires AppendOutcome(content, feature, d, os, env).1.Ok?
    ensures var (left, r) := AppendOutcome(content, feature, d, os, env);
            var e, kept := r.value, Recovered(content, env);
            && FromDraft(e, d, env) && e.featureId == feature && kept.Some? && Record(e).Some?
            && left == kept.value + Record(e).value + [LF]
            && StrictRead(kept.value, feature, env).Some?
            && var events := StrictRead(kept.value, feature, env).value;
               && e.sequence == |events| + 1 && e.previousSha256 == Head(events)
               && StrictRead(left, feature, env) == Some(events + [e])
  {
    hide Create, Record, RecoveringRead, StrictRead, FromDraft, Recovered, Transferred;
    var (left, r) := AppendOutcome(content, feature, d, os, env);
    var kept := Recovered(content, env).value;
    KeptIsRead(content, feature, env);
    var events := StrictRead(kept, feature, env).value;
    AcceptedNeedsNoRecovery(kept, feature, env);
    SamePlan(content, kept, feature, d, env);
    PlannedEvent(kept, events, feature, d, env);
    AppendAccepted(kept, events, feature, d, env);
    var bytes := PlanAppend(content, feature, d, env).bytes;
    assert bytes[..|bytes|] == bytes;
    assert (events + [r.value])[..|events|] == events;
  }

  lemma KeptIsRead(content: Bytes, feature: string, env: Platform)
    requires RecoveringRead(content, feature, env).Some?
    ensures Recovered(content, env).Some?
    ensures var kept := Recovered(content, env).value;
            StrictRead(kept, feature, env) == RecoveringRead(content, feature, env) && |kept| <= |content|
  {
    hide ReadLines, LoadBytes;
    EmptyLineRefused(feature, env);
  }

  /** A completed append is accepted and adds exactly its event. */
  lemma AppendAccepted(content: Bytes, events: seq<AuditEvent>, feature: string, d: Draft, env: Platform)
    requires Lawful(env) && ValidDraft(d, env) && FeatureId(feature)
    requires StrictRead(content, feature, env) == Some(events)
    requires PlanAppend(content, feature, d, env).Write?
    ensures var Write(e, base, bytes) := PlanAppend(content, feature, d, env);
            StrictRead(content + bytes, feature, env) == Some(events + [e])
  {
    hide StrictRead, PlanAppend, Record, Link;
    PlannedEvent(content, events, feature, d, env);
    var Write(e, base, bytes) := PlanAppend(content, feature, d, env);
    AcceptedIff(content, events, feature, env);
    ChainSnoc(events, e, feature, env);
    RecordsSnoc(events, e);
    assert content + bytes == Render(events) + Record(e).value + [LF];
    AcceptedIff(content + bytes, events + [e], feature, env);
  }

  /** What recovery makes of an accepted file followed by the first k bytes of a new record. */
  lemma TornFile(content: Bytes, events: seq<AuditEvent>, bytes: Bytes, k: nat, feature: string, env: Platform)
    requires StrictRead(content, feature, env) == Some(events)
    requires |bytes| > 0 && LF !in bytes[..|bytes| - 1] && 0 < k < |bytes|
    ensures var crashed := content + bytes[..k];
            && !EndsWithLF(crashed) && StrictRead(crashed, feature, env).None?
            && AfterLastLF(crashed) == |content| && Tail(crashed) == bytes[..k]
  {
    hide ReadLines;
    var crashed := content + bytes[..k];
    forall b | b in bytes[..k] ensures b in bytes[..|bytes| - 1] {
      var j :| 0 <= j < k && bytes[j] == b;
      assert bytes[..|bytes| - 1][j] == b;
    }
    assert crashed[|crashed| - 1] == bytes[..k][k - 1];
    AfterLastLFOfTail(content, bytes[..k]);
    assert crashed[|content|..] == bytes[..k];
  }

  /**
   * The crash-point theorem: an accepted ledger, an append that writes `bytes`, and a crash
   * after any k of them.
   */
  lemma CrashPoint(content: Bytes, events: seq<AuditEvent>, feature: string, d: Draft, k: nat, env: Platform)
    requires Lawful(env) && ValidDraft(d, env) && FeatureId(feature)
    requires StrictRead(content, feature, env) == Some(events)
    requires PlanAppend(content, feature, d, env).Write?
    requires k <= |PlanAppend(content, feature, d, env).bytes|
    ensures var Write(e, _, bytes) := PlanAppend(content, feature, d, env);
            var crashed := content + bytes[..k];
            && (k == 0 ==> StrictRead(crashed, feature, env) == Some(events))
            && (k == |bytes| ==> StrictRead(crashed, feature, env) == Some(events + [e]))
            && (0 < k < |bytes| ==> StrictRead(crashed, feature, env).None?)
            && (0 < k < |bytes| - 1 ==>
                  && Recovered(crashed, env) == Some(content)
                  && RecoveringRead(crashed, feature, env) == (if |events| > 0 then Some(events) else None))
            && (0 < k == |bytes| - 1 ==> Recovered(crashed, env).None?)
  {
    hide PlanAppend, LoadBytes, ReadLines, Link, Record, FromDraft, ValidDraft, FeatureId;
    PlannedEvent(content, events, feature, d, env);
    var Write(e, _, bytes) := PlanAppend(content, feature, d, env);
    var crashed := content + bytes[..k];
    if k == 0 {
      assert crashed == content;
    } else if k == |bytes| {
      assert bytes[..k] == bytes;
      AppendAccepted(content, events, feature, d, env);
    } else {
      RecordOfLink(events, e, bytes, feature, env);
      TornFile(content, events, bytes, k, feature, env);
      if k < |bytes| - 1 {
        assert crashed[..|content|] == content;
        AcceptedIff(content, events, feature, env);
        TerminatedEndsWithLF(Records(events));
        EmptyLineRefused(feature, env);
      }
    }
  }

  lemma RecordOfLink(events: seq<AuditEvent>, e: AuditEvent, bytes: Bytes, feature: string, env: Platform)
    requires Link(events + [e], |events|, feature, env) && bytes == Record(e).value + [LF]
    ensures LF !in bytes[..|bytes| - 1]
  {
    assert bytes[..|bytes| - 1] == Record(e).value;
  }

  /** Why recovery of a ledger with no complete record raises: the empty remainder is one empty line. */
  lemma EmptyLineRefused(feature: string, env: Platform)
    ensures ReadLines(SplitLF([]), feature, env).None?
  {
    assert SplitLF([]) == [[]];
    assert ReadLine([], 1, Head([]), feature, env).None?;
  }

  /** An append sees of a recoverable file only what recovery keeps and what it reads. */
  lemma SamePlan(f: Bytes, g: Bytes, feature: string, d: Draft, env: Platform)
    requires |f| <= MAX_LEDGER_BYTES && |g| <= MAX_LEDGER_BYTES && Recovered(f, env).Some?
             && Recovered(f, env) == Recovered(g, env)
    requires RecoveringRead(f, feature, env) == RecoveringRead(g, feature, env)
    ensures PlanAppend(f, feature, d, env) == PlanAppend(g, feature, d, env)
  {
    hide RecoveringRead, Create, Record, Recovered, Head;
  }

  lemma NoPlanWithoutRead(f: Bytes, feature: string, d: Draft, env: Platform)
    requires |f| <= MAX_LEDGER_BYTES && Recovered(f, env).Some? && RecoveringRead(f, feature, env).None?
    ensures PlanAppend(f, feature, d, env) == Refuse(Integrity, Recovered(f, env).value)
  {
    hide RecoveringRead, Create, Record, Recovered, Head;
  }

  /**
   * After a torn write the next append behaves as on the undamaged file; when no record was
   * complete it raises once and leaves an empty file, on which the append after it works.
   */
  lemma NextAppendRecovers(content: Bytes, events: seq<AuditEvent>, feature: string, d: Draft, k: nat,
                           next: Draft, env: Platform)
    requires Lawful(env) && ValidDraft(d, env) && FeatureId(feature)
    requires StrictRead(content, feature, env) == Some(events)
    requires PlanAppend(content, feature, d, env).Write?
    requires 0 < k < |PlanAppend(content, feature, d, env).bytes| - 1
    ensures var crashed := content + PlanAppend(content, feature, d, env).bytes[..k];
            PlanAppend(crashed, feature, next, env) ==
              if |events| > 0 then PlanAppend(content, feature, next, env) else Refuse(Integrity, [])
  {
    hide RecoveringRead, Record, StrictRead, Recovered, Link, PlanAppend, LoadBytes;
    CrashPoint(content, events, feature, d, k, env);
    PlannedEvent(content, events, feature, d, env);
    AcceptedNeedsNoRecovery(content, feature, env);
    var crashed := content + PlanAppend(content, feature, d, env).bytes[..k];
    if |events| == 0 {
      AcceptedIff(content, events, feature, env);
      NoPlanWithoutRead(crashed, feature, next, env);
    } else {
      SamePlan(crashed, content, feature, next, env);
    }
  }

  function AfterAppend(content: Bytes, feature: string, op: (Draft, Os), env: Platform): Bytes
  {
    AppendOutcome(content, feature, op.0, op.1, env).0
  }

  /** The file after a list of appends, each with its own operating-system answers. */
  function AfterAppends(content: Bytes, feature: string, ops: seq<(Draft, Os)>, env: Platform): Bytes
    decreases |ops|
  {
    if |ops| == 0 then content
    else AfterAppends(AfterAppend(content, feature, ops[0], env), feature, ops[1..], env)
  }

  /** A complete record without its LF fails closed: no later append changes the file or succeeds. */
  lemma {:induction false} FailsClosedForever(content: Bytes, feature: string, ops: seq<(Draft, Os)>, env: Platform)
    requires Recovered(content, env).None?
    ensures AfterAppends(content, feature, ops, env) == content
    ensures StrictRead(content, feature, env).None?
    ensures forall op <- ops :: AppendOutcome(content, feature, op.0, op.1, env) == (content, Err(Integrity))
  {
    hide Recovered;
    assert StrictRead(content, feature, env).None? by { NothingToRecover(content, feature, env); }
    if |ops| > 0 {
      FailsClosedForever(content, feature, ops[1..], env);
    }
  }

  lemma NothingToRecover(content: Bytes, feature: string, env: Platform)
    requires Recovered(content, env).None?
    ensures StrictRead(content, feature, env).None?
  {
  }

  // ---------- tamper evidence

  lemma ReadRecordDigest(line: Bytes, env: Platform)
    requires ReadRecord(line, env).Some?
    ensures var e := ReadRecord(line, env).value; BodyDigest(e, env) == Some(e.sha256)
  {
    hide EventShape, Construct, ReadActor, ReadAction, ReadExecution, ReadBindings, BodyDigest, LoadBytes;
  }

  /** The body bytes of an event in a valid chain; their digest is the event's. */
  lemma LinkDigest(events: seq<AuditEvent>, j: nat, feature: string, env: Platform)
    requires j < |events| && Link(events, j, feature, env)
    ensures var body := CanonicalBytes(BodyJson(events[j]));
            body.Some? && Digest(body.value, env) == events[j].sha256
  {
    hide ReadRecord, CanonicalBytes, Record;
    ReadRecordDigest(Record(events[j]).value, env);
  }

  /** Two byte strings with one digest. */
  predicate IsCollision(x: Bytes, y: Bytes, env: Platform)
  {
    x != y && Digest(x, env) == Digest(y, env)
  }

  /** Compare bodies from the last event backwards until two differ. */
  function FindCollision(es: seq<AuditEvent>, fs: seq<AuditEvent>): Option<(Bytes, Bytes)>
  {
    if |es| == 0 || |fs| == 0 then None
    else
      var x, y := CanonicalBytes(BodyJson(es[|es| - 1])), CanonicalBytes(BodyJson(fs[|fs| - 1]));
      if x.None? || y.None? then None
      else if x != y then Some((x.value, y.value))
      else FindCollision(es[..|es| - 1], fs[..|fs| - 1])
  }

  /** Equal last bodies under equal heads: the last events are equal, and so are the heads before them. */
  lemma LastEventsEqual(es: seq<AuditEvent>, fs: seq<AuditEvent>, feature: string, env: Platform)
    requires |es| > 0 && |fs| > 0 && ValidChain(es, feature, env) && ValidChain(fs, feature, env)
    requires Head(es) == Head(fs)
    requires CanonicalBytes(BodyJson(es[|es| - 1])) == CanonicalBytes(BodyJson(fs[|fs| - 1]))
    ensures es[|es| - 1] == fs[|fs| - 1] && |es| == |fs|
    ensures Head(es[..|es| - 1]) == Head(fs[..|fs| - 1])
  {
    hide CanonicalBytes, Record, ReadRecord, BodyJson;
    var m, n := |es| - 1, |fs| - 1;
    assert Link(es, m, feature, env) && Link(fs, n, feature, env);
    LinkDigest(es, m, feature, env);
    SameBodySameRecord(es[m], fs[n]);
  }

  lemma ChainPrefix(events: seq<AuditEvent>, n: nat, feature: string, env: Platform)
    requires n <= |events| && ValidChain(events, feature, env)
    ensures ValidChain(events[..n], feature, env)
  {
    hide Link;
    assert events == events[..n] + events[n..];
    forall j | 0 <= j < n ensures Link(events[..n], j, feature, env) {
      assert Link(events, j, feature, env);
      LinkOfPrefix(events[..n], events[n..], j, feature, env);
    }
  }

  /** Different chains with the same head exhibit a digest collision, found by comparing backwards. */
  lemma {:induction false} DifferentChainsCollide(es: seq<AuditEvent>, fs: seq<AuditEvent>, feature: string,
                                                  env: Platform)
    requires |es| > 0 && |fs| > 0 && ValidChain(es, feature, env) && ValidChain(fs, feature, env)
    requires Head(es) == Head(fs) && es != fs
    ensures var c := FindCollision(es, fs); c.Some? && IsCollision(c.value.0, c.value.1, env)
    decreases |es|
  {
    hide CanonicalBytes, Link, BodyJson;
    var m, n := |es| - 1, |fs| - 1;
    LinkDigest(es, m, feature, env);
    LinkDigest(fs, n, feature, env);
    if CanonicalBytes(BodyJson(es[m])) == CanonicalBytes(BodyJson(fs[n])) {
      LastEventsEqual(es, fs, feature, env);
      assert es == es[..m] + [es[m]] && fs == fs[..n] + [fs[n]];
      ChainPrefix(es, m, feature, env);
      ChainPrefix(fs, n, feature, env);
      DifferentChainsCollide(es[..m], fs[..n], feature, env);
    }
  }

  /**
   * Tamper evidence: two different files that both verify for one feature as non-empty ledgers
   * with the same head digest yield two different event bodies with one digest.
   */
  lemma TamperEvidence(a: Bytes, b: Bytes, es: seq<AuditEvent>, fs: seq<AuditEvent>, feature: string, env: Platform)
    requires StrictRead(a, feature, env) == Some(es) && StrictRead(b, feature, env) == Some(fs)
    requires |es| > 0 && |fs| > 0 && Head(es) == Head(fs) && a != b
    ensures var c := FindCollision(es, fs); c.Some? && IsCollision(c.value.0, c.value.1, env)
  {
    hide StrictRead, Record, Link;
    AcceptedIff(a, es, feature, env);
    AcceptedIff(b, fs, feature, env);
    DifferentChainsCollide(es, fs, feature, env);
  }
}
