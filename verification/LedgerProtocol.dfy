/**
 * The ledger as a protocol: threads of several processes append and read one file under a
 * per-process thread lock and an operating-system lock, writing byte by byte; any step can be
 * the last one of a thread (an exception) or of a process (a crash).
 */
module LedgerProtocol {
  import opened Prelude
  import opened AuditContracts
  import opened AuditEvents
  import opened AuditEventProofs
  import opened AuditLedger
  import opened AuditLedgerProofs

  /** A thread of a process. */
  datatype Agent = Agent(process: nat, thread: nat)

  datatype Op = Read | Append(draft: Draft)

  /** Where an agent stands inside `with self._lock()`. */
  datatype Phase =
    | Idle
    | HasThreadLock(op: Op)
    | Locked(op: Op)
    | Truncating(draft: Draft, plan: Plan)
    | Writing(draft: Draft, event: AuditEvent, rest: Bytes)
    | Written(draft: Draft, event: AuditEvent)
    | Leaving

  /** An event that append() has returned to this caller for this draft. */
  datatype Answer = Answer(agent: Agent, draft: Draft, event: AuditEvent)

  /** The shared state, and what append() has returned to its callers so far. */
  datatype State = State(
    file: Bytes,
    threadLocks: map<nat, nat>,
    osLock: Option<Agent>,
    phases: map<Agent, Phase>,
    returned: seq<Answer>)

  datatype Config = Config(feature: string, env: Platform)

  ghost predicate Sound(c: Config)
  {
    Lawful(c.env) && FeatureId(c.feature)
  }

  function PhaseOf(s: State, a: Agent): Phase
  {
    if a in s.phases then s.phases[a] else Idle
  }

  function Move(s: State, a: Agent, phase: Phase): State
  {
    s.(phases := s.phases[a := phase])
  }

  /** Where an append goes once its plan is made and the file needs no truncation. */
  function AfterPlan(d: Draft, plan: Plan): Phase
  {
    match plan
    case Refuse(_, _) => Leaving
    case Write(e, _, bytes) => Writing(d, e, bytes)
  }

  /** Where an agent goes after reading the file under the lock. */
  function AfterRead(file: Bytes, op: Op, c: Config): Phase
  {
    match op
    case Read => Leaving
    case Append(d) =>
      var plan, kept := PlanAppend(file, c.feature, d, c.env), Recovered(file, c.env);
      if |file| <= MAX_LEDGER_BYTES && kept.Some? && kept.value != file then Truncating(d, plan) else AfterPlan(d, plan)
  }

  /** Leaving the lock, normally or by an exception: whatever the agent holds is released. */
  function Released(s: State, a: Agent): State
  {
    s.(threadLocks := s.threadLocks - {a.process},
       osLock := if s.osLock == Some(a) then None else s.osLock,
       phases := s.phases[a := Idle])
  }

  /** A process dies: its threads vanish and the system drops its locks; the file stays as it is. */
  function Crashed(s: State, process: nat): State
  {
    s.(threadLocks := s.threadLocks - {process},
       osLock := if s.osLock.Some? && s.osLock.value.process == process then None else s.osLock,
       phases := map a | a in s.phases && a.process != process :: s.phases[a])
  }

  datatype Action =
    | Enter(a: Agent, op: Op)
    | Lock(a: Agent)
    | ReadFile(a: Agent)
    | Truncate(a: Agent)
    | WriteSome(a: Agent, n: nat)
    | Release(a: Agent)
    | Raise(a: Agent)
    | Crash(process: nat)

  predicate Enabled(s: State, act: Action, c: Config)
  {
    match act
    case Enter(a, op) =>
      PhaseOf(s, a).Idle? && a.process !in s.threadLocks && (op.Append? ==> ValidDraft(op.draft, c.env))
    case Lock(a) => PhaseOf(s, a).HasThreadLock? && s.osLock.None?
    case ReadFile(a) => PhaseOf(s, a).Locked?
    case Truncate(a) => PhaseOf(s, a).Truncating?
    case WriteSome(a, n) => PhaseOf(s, a).Writing? && 0 < n <= |PhaseOf(s, a).rest|
    case Release(a) => PhaseOf(s, a).Leaving? || PhaseOf(s, a).Written?
    case Raise(a) => !PhaseOf(s, a).Idle?
    case Crash(_) => true
  }

  /** What an agent returns to its caller when it leaves the lock. */
  function Answers(a: Agent, p: Phase): seq<Answer>
  {
    if p.Written? then [Answer(a, p.draft, p.event)] else []
  }

  function Step(s: State, act: Action, c: Config): State
    requires Enabled(s, act, c)
  {
    match act
    case Enter(a, op) => Move(s, a, HasThreadLock(op)).(threadLocks := s.threadLocks[a.process := a.thread])
    case Lock(a) => Move(s, a, Locked(PhaseOf(s, a).op)).(osLock := Some(a))
    case ReadFile(a) => Move(s, a, AfterRead(s.file, PhaseOf(s, a).op, c))
    case Truncate(a) =>
      Move(s, a, AfterPlan(PhaseOf(s, a).draft, PhaseOf(s, a).plan)).(file := s.file[..AfterLastLF(s.file)])
    case WriteSome(a, n) =>
      var Writing(d, e, rest) := PhaseOf(s, a);
      Move(s, a, if n == |rest| then Written(d, e) else Writing(d, e, rest[n..])).(file := s.file + rest[..n])
    case Release(a) => Released(s, a).(returned := s.returned + Answers(a, PhaseOf(s, a)))
    case Raise(a) => Released(s, a)
    case Crash(process) => Crashed(s, process)
  }

  // ---------- the committed events

  /** The events whose whole record, LF included, is in the file. */
  function Committed(file: Bytes, c: Config): Option<seq<AuditEvent>>
  {
    var boundary := AfterLastLF(file);
    if boundary == 0 then Some([]) else ReadLines(SplitLF(DropLast(file[..boundary])), c.feature, c.env)
  }

  /** The bytes after the committed records belong to one torn record of a possible next event. */
  ghost predicate TornRecord(events: seq<AuditEvent>, torn: Bytes, c: Config)
  {
    torn == [] ||
    exists e: AuditEvent :: Record(e).Some? && torn <= Record(e).value && Link(events + [e], |events|, c.feature, c.env)
  }

  /** The file is the rendering of a valid chain followed by at most one torn record. */
  ghost predicate FileOk(file: Bytes, c: Config)
  {
    && |file| <= MAX_LEDGER_BYTES
    && Committed(file, c).Some?
    && TornRecord(Committed(file, c).value, Tail(file), c)
  }

  predicate Critical(p: Phase)
  {
    p.Locked? || p.Truncating? || p.Writing? || p.Written? || p.Leaving?
  }

  /** Each lock has one holder, and only the holder of the system lock is past it. */
  predicate LocksOk(s: State)
  {
    && (forall a <- s.phases :: Critical(s.phases[a]) ==> s.osLock == Some(a))
    && (forall a <- s.phases :: !s.phases[a].Idle? ==>
          a.process in s.threadLocks && s.threadLocks[a.process] == a.thread)
    && (s.osLock.Some? ==> Critical(PhaseOf(s, s.osLock.value)))
  }

  /** The event stands at its sequence number. */
  predicate Stands(events: seq<AuditEvent>, e: AuditEvent)
  {
    1 <= e.sequence <= |events| && events[e.sequence - 1] == e
  }

  /** What the holder is about to do still fits the file. */
  ghost predicate PhaseOk(file: Bytes, p: Phase, c: Config)
    requires Committed(file, c).Some?
  {
    var events := Committed(file, c).value;
    match p
    case Locked(Append(d)) => ValidDraft(d, c.env)
    case HasThreadLock(Append(d)) => ValidDraft(d, c.env)
    case Truncating(d, plan) =>
      plan.Write? ==>
        && FromDraft(plan.event, d, c.env) && Record(plan.event).Some?
        && plan.bytes == Record(plan.event).value + [LF] && |events| < MAX_EVENTS
        && Link(events + [plan.event], |events|, c.feature, c.env)
        && AfterLastLF(file) + |plan.bytes| <= MAX_LEDGER_BYTES
    case Writing(d, e, rest) =>
      && FromDraft(e, d, c.env) && Record(e).Some? && Tail(file) + rest == Record(e).value + [LF] && |rest| > 0
      && |events| < MAX_EVENTS
      && Link(events + [e], |events|, c.feature, c.env)
      && |file| + |rest| <= MAX_LEDGER_BYTES
    case Written(d, e) => FromDraft(e, d, c.env) && Stands(events, e)
    case _ => true
  }

  predicate EventsApart(answers: seq<Answer>)
  {
    forall i, j :: 0 <= i < j < |answers| ==> answers[i].event != answers[j].event
  }

  /** Every returned event is that of its draft, stands among these, was returned once, and is not being returned. */
  ghost predicate Answered(s: State, events: seq<AuditEvent>, c: Config)
  {
    && (forall r :: r in s.returned ==> FromDraft(r.event, r.draft, c.env) && Stands(events, r.event))
    && EventsApart(s.returned)
    && (forall a, r :: a in s.phases && s.phases[a].Written? && r in s.returned ==> s.phases[a].event != r.event)
  }

  ghost predicate ReturnedOk(s: State, c: Config)
    requires Committed(s.file, c).Some?
  {
    Answered(s, Committed(s.file, c).value, c)
  }

  ghost predicate Inv(s: State, c: Config)
  {
    && FileOk(s.file, c) && LocksOk(s)
    && (forall a <- s.phases :: PhaseOk(s.file, s.phases[a], c))
    && ReturnedOk(s, c)
  }

  // ---------- the file as committed events and a tail

  lemma CommittedShape(file: Bytes, c: Config)
    requires Committed(file, c).Some?
    ensures var events := Committed(file, c).value;
            && ValidChain(events, c.feature, c.env) && (forall e <- events :: Record(e).Some?)
            && file[..AfterLastLF(file)] == Render(events) && file == Render(events) + Tail(file)
            && LF !in Tail(file)
  {
    hide ReadLines, Record, Link;
    var events, complete := Committed(file, c).value, file[..AfterLastLF(file)];
    assert file == complete + Tail(file);
    if AfterLastLF(file) > 0 {
      LinesReadIff(complete, events, c.feature, c.env);
    }
  }

  lemma CommittedOf(events: seq<AuditEvent>, torn: Bytes, c: Config)
    requires ValidChain(events, c.feature, c.env) && (forall e <- events :: Record(e).Some?)
    requires LF !in torn
    ensures var file := Render(events) + torn;
            && Committed(file, c) == Some(events) && Tail(file) == torn && AfterLastLF(file) == |Render(events)|
  {
    hide ReadLines, Record, Link;
    var complete := Render(events);
    TerminatedEndsWithLF(Records(events));
    AfterLastLFOfTail(complete, torn);
    assert (complete + torn)[..|complete|] == complete && (complete + torn)[|complete|..] == torn;
    if |events| > 0 {
      LinesReadIff(complete, events, c.feature, c.env);
    }
  }

  /** A file with no tail is accepted with the committed events; one with a tail is not accepted. */
  lemma StrictReadIsCommitted(file: Bytes, c: Config)
    requires Committed(file, c).Some? && |file| <= MAX_LEDGER_BYTES
    ensures StrictRead(file, c.feature, c.env) == if Tail(file) == [] then Committed(file, c) else None
  {
    hide Record, Link, ReadLines;
    CommittedShape(file, c);
    var events := Committed(file, c).value;
    if Tail(file) == [] {
      AcceptedIff(file, events, c.feature, c.env);
    } else {
      assert !EndsWithLF(file) by { TailEnds(file); }
    }
  }

  lemma TailEnds(file: Bytes)
    requires Tail(file) != []
    ensures !EndsWithLF(file) && |file| > 0
  {
    assert file[|file| - 1] == Tail(file)[|Tail(file)| - 1];
    assert file[|file| - 1] in Tail(file);
  }

  // ---------- each step keeps the invariant and the committed events

  lemma PlanIsNext(file: Bytes, events: seq<AuditEvent>, d: Draft, c: Config)
    requires Sound(c) && ValidDraft(d, c.env) && StrictRead(file, c.feature, c.env) == Some(events)
    requires PlanAppend(file, c.feature, d, c.env).Write?
    ensures var plan := PlanAppend(file, c.feature, d, c.env);
            && FromDraft(plan.event, d, c.env) && Record(plan.event).Some?
            && plan.bytes == Record(plan.event).value + [LF] && |events| < MAX_EVENTS
            && Link(events + [plan.event], |events|, c.feature, c.env)
            && |file| + |plan.bytes| <= MAX_LEDGER_BYTES
  {
    hide FromDraft, PlanAppend, StrictRead, Record, Link, LoadBytes;
    PlannedEvent(file, events, c.feature, d, c.env);
  }

  /** What recovery reads and keeps of a torn file. */
  lemma RecoveryOfTorn(file: Bytes, c: Config)
    requires FileOk(file, c) && Recovered(file, c.env).Some? && Tail(file) != []
    ensures var complete := file[..AfterLastLF(file)];
            && Recovered(file, c.env) == Some(complete) && |complete| <= MAX_LEDGER_BYTES
            && StrictRead(complete, c.feature, c.env) == Committed(file, c)
            && RecoveringRead(file, c.feature, c.env) == (if complete == [] then None else Committed(file, c))
  {
    hide Record, Link, ReadLines, LoadBytes;
    TailEnds(file);
    CommittedShape(file, c);
    var complete := file[..AfterLastLF(file)];
    AcceptedIff(complete, Committed(file, c).value, c.feature, c.env);
    EmptyLineRefused(c.feature, c.env);
  }

  /** A plan made on a torn file is the plan for the file without its tail. */
  lemma PlanOnTorn(file: Bytes, d: Draft, c: Config)
    requires FileOk(file, c) && Recovered(file, c.env).Some? && Tail(file) != []
    ensures var plan, complete := PlanAppend(file, c.feature, d, c.env), file[..AfterLastLF(file)];
            && StrictRead(complete, c.feature, c.env) == Committed(file, c)
            && (plan.Write? ==> plan == PlanAppend(complete, c.feature, d, c.env))
  {
    hide Create, Record, StrictRead, Committed, Recovered, RecoveringRead, AfterLastLF, Tail, TornRecord, FileOk, Head;
    RecoveryOfTorn(file, c);
    var complete := file[..AfterLastLF(file)];
    if complete != [] {
      FileOkCommitted(file, c);
      AcceptedNeedsNoRecovery(complete, c.feature, c.env);
    }
  }

  lemma AfterReadOk(file: Bytes, op: Op, c: Config)
    requires Sound(c) && FileOk(file, c) && (op.Append? ==> ValidDraft(op.draft, c.env))
    ensures PhaseOk(file, AfterRead(file, op, c), c)
    ensures !AfterRead(file, op, c).Idle? && !AfterRead(file, op, c).HasThreadLock? && !AfterRead(file, op, c).Locked?
  {
    hide FromDraft, PlanAppend, StrictRead, Record, Link, Committed, AfterLastLF, LoadBytes;
    if op.Append? {
      var plan := PlanAppend(file, c.feature, op.draft, c.env);
      CommittedShape(file, c);
      StrictReadIsCommitted(file, c);
      if Tail(file) == [] {
        assert Recovered(file, c.env) == Some(file) by { NoTailNothingToRecover(file, c); }
        if plan.Write? {
          PlanIsNext(file, Committed(file, c).value, op.draft, c);
        }
      } else {
        TailEnds(file);
        if Recovered(file, c.env).Some? && plan.Write? {
          PlanOnTorn(file, op.draft, c);
          PlanIsNext(file[..AfterLastLF(file)], Committed(file, c).value, op.draft, c);
        } else {
          assert plan.Refuse? || Recovered(file, c.env).Some? by { NoPlanWithoutRecovery(file, op.draft, c); }
        }
      }
    }
  }

  lemma NoTailNothingToRecover(file: Bytes, c: Config)
    requires Tail(file) == []
    ensures Recovered(file, c.env) == Some(file)
  {
  }

  lemma NoPlanWithoutRecovery(file: Bytes, d: Draft, c: Config)
    ensures PlanAppend(file, c.feature, d, c.env).Write? ==> Recovered(file, c.env).Some?
  {
    hide Recovered, RecoveringRead, Create, Record;
  }

  /** Writing some bytes either leaves the committed events alone or adds the event being written. */
  lemma WriteKeeps(file: Bytes, d: Draft, e: AuditEvent, rest: Bytes, n: nat, c: Config)
    requires FileOk(file, c) && PhaseOk(file, Writing(d, e, rest), c) && 0 < n <= |rest|
    ensures var after, events := file + rest[..n], Committed(file, c).value;
            && FileOk(after, c)
            && Committed(after, c) == Some(if n == |rest| then events + [e] else events)
            && (n < |rest| ==> PhaseOk(after, Writing(d, e, rest[n..]), c))
            && (n == |rest| ==> PhaseOk(after, Written(d, e), c) && !Stands(events, e))
  {
    hide FromDraft, Committed, Link, Record, AfterLastLF, ReadLines;
    var after, events := file + rest[..n], Committed(file, c).value;
    var bytes := Record(e).value + [LF];
    CommittedShape(file, c);
    if n == |rest| {
      assert rest[..n] == rest;
      ChainSnoc(events, e, c.feature, c.env);
      RecordsSnoc(events, e);
      assert after == Render(events) + (Tail(file) + rest);
      assert after == Render(events + [e]) + [];
      CommittedOf(events + [e], [], c);
      assert e.sequence == |events| + 1 by { LinkIsNumbered(events, e, c); }
    } else {
      var torn := Tail(file) + rest[..n];
      assert torn + rest[n..] == bytes;
      assert torn == bytes[..|torn|] == Record(e).value[..|torn|];
      assert LF !in Record(e).value by { LinkHasNoLF(events, e, c); }
      assert after == Render(events) + torn;
      CommittedOf(events, torn, c);
    }
  }

  lemma LinkHasNoLF(events: seq<AuditEvent>, e: AuditEvent, c: Config)
    requires Link(events + [e], |events|, c.feature, c.env)
    ensures Record(e).Some? && LF !in Record(e).value
  {
  }

  lemma LinkIsNumbered(events: seq<AuditEvent>, e: AuditEvent, c: Config)
    requires Link(events + [e], |events|, c.feature, c.env)
    ensures e.sequence == |events| + 1
  {
  }

  /** Cutting the tail leaves the committed events and what is planned for them. */
  lemma TruncateKeeps(file: Bytes, d: Draft, plan: Plan, c: Config)
    requires FileOk(file, c) && PhaseOk(file, Truncating(d, plan), c)
    ensures var after := file[..AfterLastLF(file)];
            && FileOk(after, c) && Committed(after, c) == Committed(file, c)
            && PhaseOk(after, AfterPlan(d, plan), c)
  {
    hide FromDraft, Committed, Link, Record, AfterLastLF, ReadLines;
    CommittedShape(file, c);
    var events := Committed(file, c).value;
    assert Render(events) + [] == Render(events);
    CommittedOf(events, [], c);
  }

  /** The committed events after a step: the same ones, or one more. */
  predicate Grows(before: Option<seq<AuditEvent>>, after: Option<seq<AuditEvent>>)
  {
    before.Some? && after.Some? && before.value <= after.value && |after.value| <= |before.value| + 1
  }

  /** The locks exclude each other through every step. */
  lemma LocksStep(s: State, act: Action, c: Config)
    requires LocksOk(s) && Enabled(s, act, c)
    ensures LocksOk(Step(s, act, c))
  {
    hide PlanAppend, Recovered, AfterLastLF;
  }

  /** The one agent a step moves; a crash moves the threads of its process to Idle. */
  predicate Moves(act: Action, a: Agent)
  {
    match act
    case Crash(process) => a.process == process
    case _ => act.a == a
  }

  lemma OnlyMoverMoves(s: State, act: Action, b: Agent, c: Config)
    requires Enabled(s, act, c) && b in Step(s, act, c).phases && !Moves(act, b)
    ensures b in s.phases && Step(s, act, c).phases[b] == s.phases[b]
  {
    hide PlanAppend, Recovered, AfterLastLF;
  }

  /** Agents outside the system lock do not depend on the file. */
  lemma OutsidersKeep(file: Bytes, after: Bytes, p: Phase, c: Config)
    requires Committed(file, c).Some? && Committed(after, c).Some? && PhaseOk(file, p, c)
    requires after == file || !Critical(p)
    ensures PhaseOk(after, p, c)
  {
    hide FromDraft, Committed, Link, Record;
  }

  /** What a step does to the file, and where it takes its agent. */
  lemma FileStep(s: State, act: Action, c: Config)
    requires Sound(c) && Inv(s, c) && Enabled(s, act, c)
    ensures var t := Step(s, act, c);
            && FileOk(t.file, c) && Grows(Committed(s.file, c), Committed(t.file, c))
            && (forall a <- t.phases :: Moves(act, a) ==> PhaseOk(t.file, t.phases[a], c))
  {
    hide FromDraft, FileOk, PlanAppend, Link, Record, Recovered, StrictRead, Committed;
    FileOkCommitted(s.file, c);
    match act
    case Enter(a, op) => SimplePhases(s.file, op, c);
    case Lock(a) => SimplePhases(s.file, PhaseOf(s, a).op, c);
    case ReadFile(a) => AfterReadOk(s.file, PhaseOf(s, a).op, c);
    case Truncate(a) =>
      TruncateKeeps(s.file, PhaseOf(s, a).draft, PhaseOf(s, a).plan, c);
      FileOkCommitted(Step(s, act, c).file, c);
    case WriteSome(a, n) =>
      WriteKeeps(s.file, PhaseOf(s, a).draft, PhaseOf(s, a).event, PhaseOf(s, a).rest, n, c);
      FileOkCommitted(Step(s, act, c).file, c);
    case Release(a) =>
    case Raise(a) =>
    case Crash(_) =>
  }

  lemma FileOkCommitted(file: Bytes, c: Config)
    requires FileOk(file, c)
    ensures Committed(file, c).Some?
  {
  }

  lemma SimplePhases(file: Bytes, op: Op, c: Config)
    requires Committed(file, c).Some? && (op.Append? ==> ValidDraft(op.draft, c.env))
    ensures PhaseOk(file, HasThreadLock(op), c) && PhaseOk(file, Locked(op), c)
  {
  }

  /** The events of answers that stood before a step still stand. */
  lemma AnswersStay(s: State, act: Action, c: Config)
    requires Inv(s, c) && Enabled(s, act, c) && Committed(Step(s, act, c).file, c).Some?
    requires Committed(s.file, c).Some? && Committed(s.file, c).value <= Committed(Step(s, act, c).file, c).value
    ensures forall r :: r in s.returned ==>
              FromDraft(r.event, r.draft, c.env) && Stands(Committed(Step(s, act, c).file, c).value, r.event)
  {
    hide FileOk, Step, Enabled, LocksOk, PhaseOk, Committed, FromDraft;
  }

  /** Nobody else has just written while this agent holds the lock. */
  lemma OnlyWriter(s: State, a: Agent)
    requires LocksOk(s) && a in s.phases && Critical(s.phases[a])
    ensures forall b :: b in s.phases && s.phases[b].Written? ==> b == a
  {
  }

  lemma OneMoreAnswer(before: seq<Answer>, r: Answer)
    requires EventsApart(before) && forall q :: q in before ==> q.event != r.event
    ensures EventsApart(before + [r])
  {
    var after := before + [r];
    forall i, j | 0 <= i < j < |after| ensures after[i].event != after[j].event {
      if j == |before| { assert before[i] in before; }
    }
  }

  /** Leaving the lock moves one agent to Idle, and hands out what it had written. */
  lemma ReleaseStep(s: State, a: Agent, c: Config)
    requires LocksOk(s) && Enabled(s, Release(a), c)
    ensures var t := Step(s, Release(a), c);
            && a in s.phases && t.file == s.file && t.returned == s.returned + Answers(a, s.phases[a])
            && forall b :: b in t.phases ==> !t.phases[b].Written?
  {
    OnlyWriter(s, a);
  }

  lemma OneMoreAnswered(s: State, t: State, a: Agent, events: seq<AuditEvent>, c: Config)
    requires Answered(s, events, c) && a in s.phases && t.returned == s.returned + Answers(a, s.phases[a])
    requires s.phases[a].Written? ==>
               FromDraft(s.phases[a].event, s.phases[a].draft, c.env) && Stands(events, s.phases[a].event)
    requires forall b :: b in t.phases ==> !t.phases[b].Written?
    ensures Answered(t, events, c)
  {
    hide FromDraft, Stands, EventsApart;
    var p := s.phases[a];
    if p.Written? {
      OneMoreAnswer(s.returned, Answer(a, p.draft, p.event));
    } else {
      assert s.returned + [] == s.returned;
    }
  }

  /** A new answer is the event that its agent has just written. */
  lemma AnswerIsWritten(s: State, a: Agent, c: Config)
    requires Sound(c) && Inv(s, c) && Enabled(s, Release(a), c)
    ensures Committed(s.file, c).Some?
    ensures Answered(Step(s, Release(a), c), Committed(s.file, c).value, c)
  {
    hide FileOk, Committed, LocksOk, Step, Enabled, PhaseOk, Answered;
    FileOkCommitted(s.file, c);
    ReleaseStep(s, a, c);
    if s.phases[a].Written? {
      WrittenOk(s.file, s.phases[a], c);
    }
    OneMoreAnswered(s, Step(s, Release(a), c), a, Committed(s.file, c).value, c);
  }

  lemma WrittenOk(file: Bytes, p: Phase, c: Config)
    requires Committed(file, c).Some? && PhaseOk(file, p, c) && p.Written?
    ensures FromDraft(p.event, p.draft, c.env) && Stands(Committed(file, c).value, p.event)
  {
    hide Committed;
  }

  /** What append() has returned stays true and unrepeated through every step. */
  lemma ReturnedStep(s: State, act: Action, c: Config)
    requires Sound(c) && Inv(s, c) && Enabled(s, act, c) && Committed(Step(s, act, c).file, c).Some?
    requires Committed(s.file, c).value <= Committed(Step(s, act, c).file, c).value
    ensures ReturnedOk(Step(s, act, c), c)
  {
    hide FileOk, PlanAppend, Link, Record, Recovered, StrictRead, Committed, FromDraft;
    FileOkCommitted(s.file, c);
    if act.Release? {
      AnswerIsWritten(s, act.a, c);
    } else {
      var t := Step(s, act, c);
      AnswersStay(s, act, c);
      assert t.returned == s.returned;
      match act
      case WriteSome(a, n) =>
        WriteKeeps(s.file, PhaseOf(s, a).draft, PhaseOf(s, a).event, PhaseOf(s, a).rest, n, c);
      case ReadFile(a) =>
        assert !t.phases[a].Written?;
      case Truncate(a) =>
        assert !t.phases[a].Written?;
      case _ =>
    }
  }

  /** Every step of every agent keeps the invariant and never loses a committed event. */
  lemma StepKeepsInv(s: State, act: Action, c: Config)
    requires Sound(c) && Inv(s, c) && Enabled(s, act, c)
    ensures Inv(Step(s, act, c), c)
    ensures Grows(Committed(s.file, c), Committed(Step(s, act, c).file, c))
  {
    hide PhaseOk, FileOk, Step, Enabled, Committed, LocksOk, Moves, ReturnedOk;
    var t := Step(s, act, c);
    LocksStep(s, act, c);
    FileStep(s, act, c);
    FileOkCommitted(s.file, c);
    FileOkCommitted(t.file, c);
    ReturnedStep(s, act, c);
    forall b | b in t.phases ensures PhaseOk(t.file, t.phases[b], c) {
      if !Moves(act, b) {
        OnlyMoverMoves(s, act, b, c);
        FileChangesOnlyByHolder(s, act, b, c);
        OutsidersKeep(s.file, t.file, s.phases[b], c);
      }
    }
  }

  /** Two agents never change the file at once: whoever does not move is outside, or the file rests. */
  lemma FileChangesOnlyByHolder(s: State, act: Action, b: Agent, c: Config)
    requires LocksOk(s) && Enabled(s, act, c) && b in s.phases && !Moves(act, b)
    ensures Step(s, act, c).file == s.file || !Critical(s.phases[b])
  {
    hide PlanAppend, Recovered, AfterLastLF;
  }
}
