/** Whole runs of the ledger protocol: what stays, what readers see, and what repeated reads prove. */
module LedgerRuns {
  import opened Prelude
  import opened AuditContracts
  import opened AuditEvents
  import opened AuditEventProofs
  import opened AuditLedger
  import opened AuditLedgerProofs
  import opened AuditReadOnly
  import opened LedgerProtocol

  /** Every action can be taken where the ones before it lead. */
  predicate Legal(s: State, acts: seq<Action>, c: Config)
    decreases |acts|
  {
    |acts| > 0 ==> Enabled(s, acts[0], c) && Legal(Step(s, acts[0], c), acts[1..], c)
  }

  /** The state a legal list of actions leads to. */
  function After(s: State, acts: seq<Action>, c: Config): State
    requires Legal(s, acts, c)
    decreases |acts|
  {
    if |acts| == 0 then s else After(Step(s, acts[0], c), acts[1..], c)
  }

  /** A start: nobody holds a lock and the file is an accepted ledger. */
  predicate Start(s: State, c: Config)
  {
    && s.threadLocks == map[] && s.osLock.None? && s.phases == map[] && s.returned == []
    && StrictRead(s.file, c.feature, c.env).Some?
  }

  lemma AcceptedIsCommitted(file: Bytes, c: Config)
    requires StrictRead(file, c.feature, c.env).Some?
    ensures Committed(file, c) == StrictRead(file, c.feature, c.env) && Tail(file) == [] && FileOk(file, c)
  {
    hide ReadLines, Record, Link;
    var events := StrictRead(file, c.feature, c.env).value;
    AcceptedIff(file, events, c.feature, c.env);
    assert Render(events) + [] == Render(events);
    CommittedOf(events, [], c);
  }

  lemma StartInv(s: State, c: Config)
    requires Start(s, c)
    ensures Inv(s, c)
  {
    hide StrictRead, FileOk, Committed;
    AcceptedIsCommitted(s.file, c);
  }

  lemma {:induction false} RunKeepsInv(s: State, acts: seq<Action>, c: Config)
    requires Sound(c) && Inv(s, c) && Legal(s, acts, c)
    ensures var t := After(s, acts, c);
            && Inv(t, c) && Committed(s.file, c).Some? && Committed(t.file, c).Some?
            && Committed(s.file, c).value <= Committed(t.file, c).value
    decreases |acts|
  {
    hide Step, Enabled, Committed, FileOk, LocksOk, PhaseOk, ReturnedOk;
    FileOkCommitted(s.file, c);
    if |acts| > 0 {
      StepKeepsInv(s, acts[0], c);
      RunKeepsInv(Step(s, acts[0], c), acts[1..], c);
    }
  }

  lemma {:induction false} LegalSplit(s: State, acts: seq<Action>, i: nat, c: Config)
    requires i <= |acts| && Legal(s, acts, c)
    ensures Legal(s, acts[..i], c) && Legal(After(s, acts[..i], c), acts[i..], c)
    ensures After(After(s, acts[..i], c), acts[i..], c) == After(s, acts, c)
    decreases i
  {
    hide Step, Enabled;
    if i > 0 {
      LegalSplit(Step(s, acts[0], c), acts[1..], i - 1, c);
      assert acts[..i][1..] == acts[1..][..i - 1] && acts[1..][i - 1..] == acts[i..];
    } else {
      assert acts[0..] == acts;
    }
  }

  /** The file after the first `i` actions of a run. */
  function FileAt(s: State, acts: seq<Action>, i: nat, c: Config): Bytes
    requires i <= |acts| && Legal(s, acts, c)
  {
    LegalSplit(s, acts, i, c);
    After(s, acts[..i], c).file
  }

  /**
   * Safety of every run: at every moment the file is a rendered valid chain, numbered from 1,
   * followed by at most one torn record, and its committed events are a prefix of those at every
   * later moment, byte for byte in place.
   */
  lemma RunSafety(s: State, acts: seq<Action>, i: nat, j: nat, c: Config)
    requires Sound(c) && Start(s, c) && Legal(s, acts, c) && i <= j <= |acts|
    ensures var f, g := FileAt(s, acts, i, c), FileAt(s, acts, j, c);
            && FileOk(f, c) && FileOk(g, c)
            && Committed(f, c).value <= Committed(g, c).value
            && (forall e <- Committed(f, c).value :: Record(e).Some?) && Render(Committed(f, c).value) <= g
            && (forall k :: 0 <= k < |Committed(f, c).value| ==> Committed(f, c).value[k].sequence == k + 1)
  {
    hide Step, Enabled, Committed, FileOk, Start, LocksOk, PhaseOk, ReturnedOk, Record, StrictRead, Legal, After, Link;
    StartInv(s, c);
    LegalSplit(s, acts, j, c);
    assert acts[..j][..i] == acts[..i];
    LegalSplit(s, acts[..j], i, c);
    RunKeepsInv(s, acts[..i], c);
    RunKeepsInv(After(s, acts[..i], c), acts[..j][i..], c);
    var f, g := FileAt(s, acts, i, c), FileAt(s, acts, j, c);
    CommittedShape(f, c);
    CommittedShape(g, c);
    RenderPrefix(Committed(f, c).value, Committed(g, c).value);
    ChainNumbers(Committed(f, c).value, c);
  }

  /** What append() had returned after the first `i` actions of a run. */
  function ReturnedAt(s: State, acts: seq<Action>, i: nat, c: Config): seq<Answer>
    requires i <= |acts| && Legal(s, acts, c)
  {
    LegalSplit(s, acts, i, c);
    After(s, acts[..i], c).returned
  }

  /**
   * Acknowledged appends last: every event that append() returned during a run is the event of
   * the draft it was called with and stands at its sequence number at every later moment; no event
   * was returned twice.
   */
  lemma ReturnedEventsStand(s: State, acts: seq<Action>, i: nat, j: nat, c: Config)
    requires Sound(c) && Start(s, c) && Legal(s, acts, c) && i <= j <= |acts|
    ensures Committed(FileAt(s, acts, j, c), c).Some?
    ensures forall r :: r in ReturnedAt(s, acts, i, c) ==>
              && FromDraft(r.event, r.draft, c.env)
              && Stands(Committed(FileAt(s, acts, j, c), c).value, r.event)
              && Called(acts[..i], r.agent, Append(r.draft))
    ensures forall m, n :: 0 <= m < n < |ReturnedAt(s, acts, i, c)| ==>
              ReturnedAt(s, acts, i, c)[m].event != ReturnedAt(s, acts, i, c)[n].event
  {
    hide Step, Enabled, Committed, FileOk, Start, LocksOk, PhaseOk, StrictRead, Legal, After, FromDraft, Called;
    StartInv(s, c);
    LegalSplit(s, acts, i, c);
    RunKeepsInv(s, acts[..i], c);
    RunSafety(s, acts, i, j, c);
    FileOkCommitted(FileAt(s, acts, i, c), c);
    FileOkCommitted(FileAt(s, acts, j, c), c);
    NothingAsked(s, c);
    StillAsked(s, acts[..i], c);
  }

  // ---------- whose draft an append works on

  /** This agent has called this operation. */
  ghost predicate Called(acts: seq<Action>, a: Agent, op: Op)
  {
    exists i :: 0 <= i < |acts| && acts[i] == Enter(a, op)
  }

  /** The operation a phase belongs to. */
  function Working(p: Phase): Option<Op>
  {
    match p
    case HasThreadLock(op) => Some(op)
    case Locked(op) => Some(op)
    case Truncating(d, _) => Some(Append(d))
    case Writing(d, _, _) => Some(Append(d))
    case Written(d, _) => Some(Append(d))
    case _ => None
  }

  /** Every agent works on, and has been answered for, what it called. */
  ghost predicate Asked(s: State, past: seq<Action>)
  {
    && (forall a :: a in s.phases && Working(s.phases[a]).Some? ==> Called(past, a, Working(s.phases[a]).value))
    && (forall r :: r in s.returned ==> Called(past, r.agent, Append(r.draft)))
  }

  lemma NothingAsked(s: State, c: Config)
    requires Start(s, c)
    ensures Asked(s, [])
  {
    hide StrictRead;
  }

  lemma CalledBefore(past: seq<Action>, act: Action, a: Agent, op: Op)
    ensures Called(past + [act], a, op) <==> Called(past, a, op) || act == Enter(a, op)
  {
    if Called(past, a, op) {
      var i :| 0 <= i < |past| && past[i] == Enter(a, op);
      assert (past + [act])[i] == Enter(a, op);
    }
    if act == Enter(a, op) {
      assert (past + [act])[|past|] == act;
    }
  }

  lemma AskedStep(s: State, act: Action, past: seq<Action>, c: Config)
    requires Asked(s, past) && Enabled(s, act, c)
    ensures Asked(Step(s, act, c), past + [act])
  {
    hide PlanAppend, Recovered, AfterLastLF, Called;
    forall a, op ensures Called(past + [act], a, op) <==> Called(past, a, op) || act == Enter(a, op) {
      CalledBefore(past, act, a, op);
    }
  }

  lemma {:induction false} AskedRun(s: State, past: seq<Action>, acts: seq<Action>, c: Config)
    requires Asked(s, past) && Legal(s, acts, c)
    ensures Asked(After(s, acts, c), past + acts)
    decreases |acts|
  {
    hide Step, Enabled, Asked;
    if |acts| == 0 {
      assert past + acts == past;
    } else {
      AskedStep(s, acts[0], past, c);
      AskedRun(Step(s, acts[0], c), past + [acts[0]], acts[1..], c);
      assert past + [acts[0]] + acts[1..] == past + acts;
    }
  }

  lemma StillAsked(s: State, acts: seq<Action>, c: Config)
    requires Asked(s, []) && Legal(s, acts, c)
    ensures Asked(After(s, acts, c), acts)
  {
    AskedRun(s, [], acts, c);
    assert [] + acts == acts;
  }

  // ---------- where committed events come from

  /** Some agent has called append with a draft that this is the event of. */
  ghost predicate Requested(past: seq<Action>, e: AuditEvent, c: Config)
  {
    exists a, d :: Called(past, a, Append(d)) && FromDraft(e, d, c.env)
  }

  /** A step commits at most the event of the append that some agent is working on. */
  lemma CommitsRequested(s: State, act: Action, past: seq<Action>, c: Config)
    requires Sound(c) && Inv(s, c) && Enabled(s, act, c) && Asked(s, past)
    ensures var t := Step(s, act, c);
            && Committed(s.file, c).Some? && Committed(t.file, c).Some?
            && forall k :: |Committed(s.file, c).value| <= k < |Committed(t.file, c).value| ==>
                 Requested(past, Committed(t.file, c).value[k], c)
  {
    hide FileOk, PlanAppend, Link, Record, Recovered, StrictRead, Committed, FromDraft, Called;
    FileOkCommitted(s.file, c);
    StepKeepsInv(s, act, c);
    FileOkCommitted(Step(s, act, c).file, c);
    match act
    case WriteSome(a, n) =>
      var p := PhaseOf(s, a);
      assert PhaseOk(s.file, s.phases[a], c);
      WriteKeeps(s.file, p.draft, p.event, p.rest, n, c);
      assert Working(s.phases[a]) == Some(Append(p.draft));
      assert Called(past, a, Append(p.draft));
      assert Requested(past, p.event, c);
    case Truncate(a) =>
      var p := PhaseOf(s, a);
      TruncateKeeps(s.file, p.draft, p.plan, c);
    case _ =>
  }

  lemma RequestedLater(past: seq<Action>, acts: seq<Action>, e: AuditEvent, c: Config)
    requires Requested(past, e, c)
    ensures Requested(past + acts, e, c)
  {
    hide FromDraft;
    var a, d :| Called(past, a, Append(d)) && FromDraft(e, d, c.env);
    var i :| 0 <= i < |past| && past[i] == Enter(a, Append(d));
    assert (past + acts)[i] == Enter(a, Append(d));
    assert Called(past + acts, a, Append(d));
  }

  lemma {:induction false} RunCommits(s: State, past: seq<Action>, acts: seq<Action>, c: Config)
    requires Sound(c) && Inv(s, c) && Legal(s, acts, c) && Asked(s, past)
    ensures var t := After(s, acts, c);
            && Committed(s.file, c).Some? && Committed(t.file, c).Some?
            && Committed(s.file, c).value <= Committed(t.file, c).value
            && forall k :: |Committed(s.file, c).value| <= k < |Committed(t.file, c).value| ==>
                 Requested(past + acts, Committed(t.file, c).value[k], c)
    decreases |acts|
  {
    hide Step, Enabled, Committed, FileOk, LocksOk, PhaseOk, ReturnedOk, Asked, Requested;
    FileOkCommitted(s.file, c);
    if |acts| > 0 {
      var u, more := Step(s, acts[0], c), past + [acts[0]];
      StepKeepsInv(s, acts[0], c);
      AskedStep(s, acts[0], past, c);
      CommitsRequested(s, acts[0], past, c);
      RunCommits(u, more, acts[1..], c);
      assert more + acts[1..] == past + acts;
      var before, mid, after := Committed(s.file, c).value, Committed(u.file, c).value,
        Committed(After(s, acts, c).file, c).value;
      forall k | |before| <= k < |mid| ensures Requested(past + acts, after[k], c) {
        assert after[k] == mid[k];
        RequestedLater(past, acts, mid[k], c);
      }
    }
  }

  /** Whatever a run commits, acknowledged or not, is the event of a draft that some agent asked to append. */
  lemma CommittedWereRequested(s: State, acts: seq<Action>, c: Config)
    requires Sound(c) && Start(s, c) && Legal(s, acts, c)
    ensures var t := After(s, acts, c);
            && Committed(s.file, c).Some? && Committed(t.file, c).Some?
            && Committed(s.file, c).value <= Committed(t.file, c).value
            && forall k :: |Committed(s.file, c).value| <= k < |Committed(t.file, c).value| ==>
                 Requested(acts, Committed(t.file, c).value[k], c)
  {
    hide Start, Legal, After, Requested, Committed;
    StartInv(s, c);
    NothingAsked(s, c);
    RunCommits(s, [], acts, c);
    assert [] + acts == acts;
  }

  lemma RenderPrefix(es: seq<AuditEvent>, fs: seq<AuditEvent>)
    requires es <= fs && forall e <- fs :: Record(e).Some?
    ensures (forall e <- es :: Record(e).Some?) && Render(es) <= Render(fs)
  {
    hide Record;
    forall e | e in es ensures e in fs {}
    var rest := Records(fs)[|es|..];
    assert Records(fs) == Records(es) + rest;
    TerminatedAppend(Records(es), rest);
  }

  lemma ChainNumbers(events: seq<AuditEvent>, c: Config)
    requires ValidChain(events, c.feature, c.env)
    ensures forall k :: 0 <= k < |events| ==> events[k].sequence == k + 1
  {
    hide Record, ReadRecord;
    forall k | 0 <= k < |events| ensures events[k].sequence == k + 1 {
      assert Link(events, k, c.feature, c.env);
    }
  }

  // ---------- what readers see

  /**
   * A reader without the lock, at any moment: it sees exactly the committed events and the size
   * of the torn record, or it rejects because that record is complete but for its LF.
   */
  lemma LockFreeReaderSeesCommitted(file: Bytes, c: Config)
    requires FileOk(file, c)
    ensures Verified(file, c.feature, c.env) ==
              if Tail(file) != [] && LoadBytes(Tail(file), c.env).Some? then None
              else Some((Committed(file, c).value, |Tail(file)|))
  {
    hide ReadLines, Record, Link, LoadBytes, TornRecord, SplitLF, Render, FromDraft;
    CommittedShape(file, c);
    var events, complete := Committed(file, c).value, file[..AfterLastLF(file)];
    EmptyReads(c.feature, c.env);
    StrictReadIsCommitted(file, c);
    if Tail(file) == [] {
      ReadersAgree(file, c.feature, c.env);
    } else {
      TailEnds(file);
      if complete != [] {
        LinesReadIff(complete, events, c.feature, c.env);
        LineCount(complete, events, c);
      }
    }
  }

  lemma LineCount(complete: Bytes, events: seq<AuditEvent>, c: Config)
    requires ReadLines(SplitLF(DropLast(complete)), c.feature, c.env) == Some(events)
    ensures |SplitLF(DropLast(complete))| == |events|
  {
    ReadLinesLength(SplitLF(DropLast(complete)), c.feature, c.env);
  }

  // ---------- repeated reads

  /** verify(). */
  datatype Snapshot = Snapshot(eventCount: nat, head: string, exportSha256: string)

  function Verify(file: Bytes, c: Config): Option<Snapshot>
  {
    var events := StrictRead(file, c.feature, c.env);
    if events.None? then None
    else
      AcceptedIff(file, events.value, c.feature, c.env);
      Some(Snapshot(|events.value|, Head(events.value), Digest(Render(events.value), c.env)))
  }

  /** export_jsonl(). */
  function Export(file: Bytes, c: Config): Option<Bytes>
  {
    var events := StrictRead(file, c.feature, c.env);
    if events.None? then None
    else
      AcceptedIff(file, events.value, c.feature, c.env);
      Some(Render(events.value))
  }

  /** For every accepted file the export is the file itself. */
  lemma ExportIsFile(file: Bytes, c: Config)
    requires StrictRead(file, c.feature, c.env).Some?
    ensures Export(file, c) == Some(file)
    ensures Verify(file, c).value.exportSha256 == Digest(file, c.env)
  {
    hide StrictRead, Record;
    AcceptedIff(file, StrictRead(file, c.feature, c.env).value, c.feature, c.env);
  }

  /**
   * The snapshot sandwich: if verify() counts the same events at two moments of a run, then every
   * successful read between them saw one and the same file, so head and export digest agree too.
   */
  lemma SnapshotSandwich(s: State, acts: seq<Action>, i: nat, m: nat, j: nat, c: Config)
    requires Sound(c) && Start(s, c) && Legal(s, acts, c) && i <= m <= j <= |acts|
    requires var v, w := Verify(FileAt(s, acts, i, c), c), Verify(FileAt(s, acts, j, c), c);
             v.Some? && w.Some? && v.value.eventCount == w.value.eventCount
    ensures FileAt(s, acts, i, c) == FileAt(s, acts, j, c)
    ensures var f := FileAt(s, acts, m, c);
            && FileOk(f, c) && Committed(f, c) == StrictRead(FileAt(s, acts, i, c), c.feature, c.env)
            && (StrictRead(f, c.feature, c.env).Some? ==> f == FileAt(s, acts, i, c))
  {
    hide StrictRead, Committed, FileOk, FileAt, Start, Legal, Record;
    RunSafety(s, acts, i, m, c);
    RunSafety(s, acts, m, j, c);
    var f, g, h := FileAt(s, acts, i, c), FileAt(s, acts, m, c), FileAt(s, acts, j, c);
    AcceptedIsCommitted(f, c);
    AcceptedIsCommitted(h, c);
    assert Committed(g, c).Some? by { FileOkCommitted(g, c); }
    var es, fs, gs := Committed(f, c).value, Committed(g, c).value, Committed(h, c).value;
    assert |es| == |gs| && es == fs && fs == gs;
    SameFile(f, h, c);
    if StrictRead(g, c.feature, c.env).Some? {
      AcceptedIsCommitted(g, c);
      SameFile(f, g, c);
    }
  }

  lemma SameFile(f: Bytes, g: Bytes, c: Config)
    requires StrictRead(f, c.feature, c.env).Some? && StrictRead(f, c.feature, c.env) == StrictRead(g, c.feature, c.env)
    ensures f == g
  {
    hide StrictRead, Record;
    AcceptedIff(f, StrictRead(f, c.feature, c.env).value, c.feature, c.env);
    AcceptedIff(g, StrictRead(f, c.feature, c.env).value, c.feature, c.env);
  }

  /** What build_audit_report publishes: the events of one read between two verifications. */
  datatype Report = Report(events: seq<AuditEvent>, snapshot: Snapshot)

  /** The consistency checks of build_audit_report over the files seen by its three reads. */
  function BuildReport(first: Bytes, second: Bytes, last: Bytes, c: Config): Option<Report>
  {
    var snapshot, events, final := Verify(first, c), StrictRead(second, c.feature, c.env), Verify(last, c);
    if snapshot.None? || events.None? || snapshot.value.eventCount != |events.value|
       || snapshot.value.head != Head(events.value) then None
    else if final.None? || final.value != snapshot.value then None
    else Some(Report(events.value, snapshot.value))
  }

  /** A published report describes one real state of the ledger. */
  lemma ReportIsOneState(s: State, acts: seq<Action>, i: nat, m: nat, j: nat, c: Config)
    requires Sound(c) && Start(s, c) && Legal(s, acts, c) && i <= m <= j <= |acts|
    requires BuildReport(FileAt(s, acts, i, c), FileAt(s, acts, m, c), FileAt(s, acts, j, c), c).Some?
    ensures var f := FileAt(s, acts, m, c);
            var report := BuildReport(FileAt(s, acts, i, c), f, FileAt(s, acts, j, c), c).value;
            && StrictRead(f, c.feature, c.env) == Some(report.events) && Verify(f, c) == Some(report.snapshot)
  {
    hide StrictRead, FileAt, Start, Legal, Verify;
    VerifyNeedsRead(FileAt(s, acts, i, c), c);
    SnapshotSandwich(s, acts, i, m, j, c);
  }

  /** What a verification reports. */
  lemma VerifyMeans(file: Bytes, c: Config, v: Snapshot)
    ensures Verify(file, c) == Some(v) <==>
              exists events: seq<AuditEvent> :: StrictRead(file, c.feature, c.env) == Some(events)
                && v.eventCount == |events| && v.exportSha256 == Digest(file, c.env)
                && v.head == if |events| == 0 then "sha256:" + seq(64, _ => '0') else events[|events| - 1].sha256
  {
    hide StrictRead, Record;
    if StrictRead(file, c.feature, c.env).Some? { ExportIsFile(file, c); }
  }

  /** A report needs two equal verifications around a read of as many events with the same last digest. */
  lemma ReportMeans(first: Bytes, second: Bytes, last: Bytes, c: Config, r: Report)
    ensures BuildReport(first, second, last, c) == Some(r) <==>
              && StrictRead(second, c.feature, c.env) == Some(r.events)
              && Verify(first, c) == Some(r.snapshot) && Verify(last, c) == Some(r.snapshot)
              && r.snapshot.eventCount == |r.events|
              && r.snapshot.head ==
                 if |r.events| == 0 then "sha256:" + seq(64, _ => '0') else r.events[|r.events| - 1].sha256
  {
    hide StrictRead, Verify;
  }

  /**
   * A report is published during a run exactly when its three reads succeed and see one file, and
   * it holds that file's events and digests.
   */
  lemma ReportInRun(s: State, acts: seq<Action>, i: nat, m: nat, j: nat, c: Config)
    requires Sound(c) && Start(s, c) && Legal(s, acts, c) && i <= m <= j <= |acts|
    ensures var first, second, last := FileAt(s, acts, i, c), FileAt(s, acts, m, c), FileAt(s, acts, j, c);
            var report := BuildReport(first, second, last, c);
            && (report.Some? <==> StrictRead(first, c.feature, c.env).Some? && first == second == last)
            && (report.Some? ==>
                  && StrictRead(first, c.feature, c.env) == Some(report.value.events)
                  && Verify(first, c) == Some(report.value.snapshot))
  {
    hide FileAt, Start, Legal, StrictRead;
    var first, second, last := FileAt(s, acts, i, c), FileAt(s, acts, m, c), FileAt(s, acts, j, c);
    if BuildReport(first, second, last, c).Some? {
      VerifyNeedsRead(first, c);
      SnapshotSandwich(s, acts, i, m, j, c);
    }
  }

  lemma VerifyNeedsRead(file: Bytes, c: Config)
    requires Verify(file, c).Some?
    ensures StrictRead(file, c.feature, c.env).Some?
  {
  }
}
