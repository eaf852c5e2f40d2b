/**
 * Alone, the steps of the two protocols do what the sequential methods do: every outcome of one append
 * and of one handoff is that of a run of their steps (audit_ledger.py, audit_sinks.py).
 */
module SoloRuns {
  import opened Prelude
  import opened AuditContracts
  import opened AuditEvents
  import opened AuditLedger
  import L = LedgerProtocol
  import R = LedgerRuns
  import S = SinkProtocol
  import AuditExport
  import opened AuditSinks

  // ---------- one append

  /** These actions lead from one state to the other. */
  predicate Leads(s: L.State, acts: seq<L.Action>, t: L.State, c: L.Config)
  {
    R.Legal(s, acts, c) && R.After(s, acts, c) == t
  }

  lemma One(s: L.State, act: L.Action, c: L.Config)
    requires L.Enabled(s, act, c)
    ensures Leads(s, [act], L.Step(s, act, c), c)
  {
    hide L.Enabled, L.Step;
    var t := L.Step(s, act, c);
    assert [act][1..] == [] && R.Legal(t, [], c) && R.After(t, [], c) == t;
  }

  lemma {:induction false} Then(s: L.State, acts: seq<L.Action>, t: L.State, more: seq<L.Action>, u: L.State,
                                c: L.Config)
    requires Leads(s, acts, t, c) && Leads(t, more, u, c)
    ensures Leads(s, acts + more, u, c)
    decreases |acts|
  {
    hide L.Enabled, L.Step;
    if |acts| == 0 {
      assert acts + more == more;
    } else {
      Then(L.Step(s, acts[0], c), acts[1..], t, more, u, c);
      assert (acts + more)[1..] == acts[1..] + more;
    }
  }

  /** Every action is a step of this agent. */
  predicate By(acts: seq<L.Action>, a: L.Agent)
  {
    forall act <- acts :: !act.Crash? && act.a == a
  }

  /** The state in which only the agent's phase and the file differ. */
  function With(s: L.State, a: L.Agent, phase: L.Phase, file: Bytes): L.State
  {
    s.(phases := s.phases[a := phase], file := file)
  }

  /** Inside the lock. */
  predicate Holds(s: L.State, a: L.Agent)
  {
    s.osLock == Some(a) && a.process in s.threadLocks && s.threadLocks[a.process] == a.thread
  }

  /** The agent has left the lock, with this file and these answers. */
  function Left(s: L.State, a: L.Agent, file: Bytes, answers: seq<L.Answer>): L.State
  {
    s.(threadLocks := s.threadLocks - {a.process}, osLock := None, phases := s.phases[a := L.Idle], file := file,
       returned := s.returned + answers)
  }

  lemma Raising(s: L.State, a: L.Agent, phase: L.Phase, file: Bytes, c: L.Config)
    requires Holds(s, a) && !phase.Idle?
    ensures Leads(With(s, a, phase, file), [L.Raise(a)], Left(s, a, file, []), c)
  {
    var t := With(s, a, phase, file);
    One(t, L.Raise(a), c);
    assert t.phases[a := L.Idle] == s.phases[a := L.Idle];
    assert s.returned + [] == s.returned;
  }

  lemma Releasing(s: L.State, a: L.Agent, phase: L.Phase, file: Bytes, c: L.Config)
    requires Holds(s, a) && (phase.Leaving? || phase.Written?)
    ensures Leads(With(s, a, phase, file), [L.Release(a)], Left(s, a, file, L.Answers(a, phase)), c)
  {
    var t := With(s, a, phase, file);
    One(t, L.Release(a), c);
    assert t.phases[a := L.Idle] == s.phases[a := L.Idle];
  }

  /** What an agent does after `n` of these bytes are written. */
  function Sent(d: Draft, e: AuditEvent, rest: Bytes, n: nat): L.Phase
    requires n <= |rest|
  {
    if n == |rest| then L.Written(d, e) else L.Writing(d, e, rest[n..])
  }

  lemma OneWrite(s: L.State, a: L.Agent, d: Draft, e: AuditEvent, file: Bytes, rest: Bytes, n: nat, c: L.Config)
    requires 0 < n <= |rest|
    ensures Leads(With(s, a, L.Writing(d, e, rest), file), [L.WriteSome(a, n)],
                  With(s, a, Sent(d, e, rest, n), file + rest[..n]), c)
  {
    var t := With(s, a, L.Writing(d, e, rest), file);
    One(t, L.WriteSome(a, n), c);
    assert t.phases[a := Sent(d, e, rest, n)] == s.phases[a := Sent(d, e, rest, n)];
  }

  lemma SentInTwo(d: Draft, e: AuditEvent, rest: Bytes, file: Bytes, now: nat, n: nat)
    requires now < |rest| && now <= n <= |rest|
    ensures Sent(d, e, rest[now..], n - now) == Sent(d, e, rest, n)
    ensures file + rest[..now] + rest[now..][..n - now] == file + rest[..n]
  {
    assert rest[now..][n - now..] == rest[n..];
    assert rest[..now] + rest[now..][..n - now] == rest[..n];
  }

  /** The writing steps that follow these results of the system's writes. */
  lemma {:induction false} Writing(s: L.State, a: L.Agent, d: Draft, e: AuditEvent, file: Bytes, rest: Bytes,
                                   writes: seq<nat>, c: L.Config)
    returns (acts: seq<L.Action>)
    requires |rest| > 0
    ensures By(acts, a)
    ensures var n := Transferred(|rest|, writes);
            Leads(With(s, a, L.Writing(d, e, rest), file), acts, With(s, a, Sent(d, e, rest, n), file + rest[..n]), c)
    decreases |writes|
  {
    hide With, Leads;
    acts := [];
    if |writes| == 0 || writes[0] == 0 {
      assert rest[0..] == rest && file + rest[..0] == file;
      Already(With(s, a, L.Writing(d, e, rest), file), c);
    } else {
      var now := if writes[0] < |rest| then writes[0] else |rest|;
      OneWrite(s, a, d, e, file, rest, now, c);
      acts := [L.WriteSome(a, now)];
      if now < |rest| {
        var more := Writing(s, a, d, e, file + rest[..now], rest[now..], writes[1..], c);
        var n := Transferred(|rest|, writes);
        SentInTwo(d, e, rest, file, now, n);
        var rested := With(s, a, L.Writing(d, e, rest[now..]), file + rest[..now]);
        Then(With(s, a, L.Writing(d, e, rest), file), acts, rested, more,
             With(s, a, Sent(d, e, rest, n), file + rest[..n]), c);
        acts := acts + more;
      }
    }
  }

  lemma Already(s: L.State, c: L.Config)
    ensures Leads(s, [], s, c)
  {
  }

  /** From the plan on: refuse, or write, and leave. */
  lemma Carried(s: L.State, a: L.Agent, d: Draft, plan: Plan, os: Os, file: Bytes, c: L.Config)
    returns (acts: seq<L.Action>)
    requires Holds(s, a) && (plan.Write? ==> |plan.bytes| > 0)
    ensures By(acts, a)
    ensures var sent := if plan.Write? && os.opens then Transferred(|plan.bytes|, os.writes) else 0;
            var done := plan.Write? && sent == |plan.bytes| && os.syncs;
            Leads(With(s, a, L.AfterPlan(d, plan), file), acts,
                  Left(s, a, if plan.Write? then file + plan.bytes[..sent] else file,
                       if done then [L.Answer(a, d, plan.event)] else []), c)
  {
    if plan.Refuse? {
      Releasing(s, a, L.Leaving, file, c);
      acts := [L.Release(a)];
    } else {
      var sent := if os.opens then Transferred(|plan.bytes|, os.writes) else 0;
      var phase := Sent(d, plan.event, plan.bytes, sent);
      acts := [];
      if os.opens {
        acts := Writing(s, a, d, plan.event, file, plan.bytes, os.writes, c);
      } else {
        assert plan.bytes[0..] == plan.bytes && file + plan.bytes[..0] == file;
        Already(With(s, a, L.AfterPlan(d, plan), file), c);
      }
      var after := file + plan.bytes[..sent];
      if sent == |plan.bytes| && os.syncs {
        Releasing(s, a, phase, after, c);
        Then(With(s, a, L.AfterPlan(d, plan), file), acts, With(s, a, phase, after), [L.Release(a)],
             Left(s, a, after, [L.Answer(a, d, plan.event)]), c);
        acts := acts + [L.Release(a)];
      } else {
        Raising(s, a, phase, after, c);
        Then(With(s, a, L.AfterPlan(d, plan), file), acts, With(s, a, phase, after), [L.Raise(a)],
             Left(s, a, after, []), c);
        acts := acts + [L.Raise(a)];
      }
    }
  }

  /** The locks as they were, with this file and these further answers. */
  function Free(s: L.State, a: L.Agent, file: Bytes, answers: seq<L.Answer>): L.State
  {
    s.(phases := s.phases[a := L.Idle], file := file, returned := s.returned + answers)
  }

  /** Entering, locking and reading. */
  lemma Entered(s: L.State, a: L.Agent, d: Draft, c: L.Config) returns (acts: seq<L.Action>, held: L.State)
    requires L.PhaseOf(s, a).Idle? && a.process !in s.threadLocks && s.osLock.None? && ValidDraft(d, c.env)
    ensures By(acts, a) && Holds(held, a)
    ensures Leads(s, acts, With(held, a, L.AfterRead(s.file, L.Append(d), c), s.file), c)
    ensures forall file, answers :: Left(held, a, file, answers) == Free(s, a, file, answers)
  {
    hide L.AfterRead, ValidDraft;
    var op := L.Append(d);
    var s1 := L.Step(s, L.Enter(a, op), c);
    var s2 := L.Step(s1, L.Lock(a), c);
    var s3 := L.Step(s2, L.ReadFile(a), c);
    One(s, L.Enter(a, op), c);
    One(s1, L.Lock(a), c);
    One(s2, L.ReadFile(a), c);
    Then(s, [L.Enter(a, op)], s1, [L.Lock(a)], s2, c);
    Then(s, [L.Enter(a, op)] + [L.Lock(a)], s2, [L.ReadFile(a)], s3, c);
    acts := [L.Enter(a, op)] + [L.Lock(a)] + [L.ReadFile(a)];
    held := s2;
    forall file, answers ensures Left(held, a, file, answers) == Free(s, a, file, answers) {
      assert held.threadLocks - {a.process} == s.threadLocks;
      assert held.phases[a := L.Idle] == s.phases[a := L.Idle];
    }
  }

  /**
   * Whatever one append may do and answer, under any answers of the operating system, some run of
   * its steps does and answers the same, and leaves both locks free.
   */
  lemma SoloAppend(s: L.State, a: L.Agent, d: Draft, os: Os, c: L.Config) returns (acts: seq<L.Action>)
    requires L.PhaseOf(s, a).Idle? && a.process !in s.threadLocks && s.osLock.None? && ValidDraft(d, c.env)
    ensures By(acts, a)
    ensures var (left, r) := AppendOutcome(s.file, c.feature, d, os, c.env);
            Leads(s, acts, Free(s, a, left, if r.Ok? then [L.Answer(a, d, r.value)] else []), c)
  {
    hide ValidDraft, PlanAppend, Recovered, RecoveringRead, StrictRead;
    var held;
    acts, held := Entered(s, a, d, c);
    var (left, r) := AppendOutcome(s.file, c.feature, d, os, c.env);
    var plan, kept := PlanAppend(s.file, c.feature, d, c.env), Recovered(s.file, c.env);
    PlanMeans(s.file, d, c);
    var cut := |s.file| <= MAX_LEDGER_BYTES && kept.Some? && kept.value != s.file;
    var start := With(held, a, L.AfterRead(s.file, L.Append(d), c), s.file);
    var last;
    if !cut {
      last := Carried(held, a, d, plan, os, s.file, c);
    } else {
      last := CutFirst(held, a, d, plan, os, s.file, kept.value, c);
    }
    Then(s, acts, start, last, Left(held, a, left, if r.Ok? then [L.Answer(a, d, r.value)] else []), c);
    acts := acts + last;
  }

  lemma PlanMeans(file: Bytes, d: Draft, c: L.Config)
    ensures var plan, kept := PlanAppend(file, c.feature, d, c.env), Recovered(file, c.env);
            && (plan.Write? ==> kept.Some? && plan.base == kept.value && |plan.bytes| > 0)
            && (plan.Refuse? ==>
                  plan.left == if |file| <= MAX_LEDGER_BYTES && kept.Some? then kept.value else file)
            && (plan.Write? ==> |file| <= MAX_LEDGER_BYTES)
            && (kept.Some? ==> kept.value == file || kept.value == file[..AfterLastLF(file)])
  {
    hide Create, Record, RecoveringRead, LoadBytes;
  }

  /** The torn tail is cut off first; the cut may fail, before or after it is made. */
  lemma CutFirst(s: L.State, a: L.Agent, d: Draft, plan: Plan, os: Os, file: Bytes, kept: Bytes, c: L.Config)
    returns (acts: seq<L.Action>)
    requires Holds(s, a) && kept == file[..AfterLastLF(file)] && (plan.Write? ==> |plan.bytes| > 0)
    ensures By(acts, a)
    ensures var sent := if plan.Write? && os.opens then Transferred(|plan.bytes|, os.writes) else 0;
            var done := plan.Write? && sent == |plan.bytes| && os.syncs;
            Leads(With(s, a, L.Truncating(d, plan), file), acts,
                  if !os.truncates then Left(s, a, file, [])
                  else if !os.cutSyncs then Left(s, a, kept, [])
                  else Left(s, a, if plan.Write? then kept + plan.bytes[..sent] else kept,
                            if done then [L.Answer(a, d, plan.event)] else []), c)
  {
    var t := With(s, a, L.Truncating(d, plan), file);
    if !os.truncates {
      Raising(s, a, L.Truncating(d, plan), file, c);
      acts := [L.Raise(a)];
    } else {
      One(t, L.Truncate(a), c);
      var phase := L.AfterPlan(d, plan);
      assert t.phases[a := phase] == s.phases[a := phase];
      assert L.Step(t, L.Truncate(a), c) == With(s, a, phase, kept);
      var more;
      if os.cutSyncs {
        more := Carried(s, a, d, plan, os, kept, c);
      } else {
        Raising(s, a, phase, kept, c);
        more := [L.Raise(a)];
      }
      Then(t, [L.Truncate(a)], With(s, a, phase, kept), more, R.After(With(s, a, phase, kept), more, c), c);
      acts := [L.Truncate(a)] + more;
    }
  }

  // ---------- one handoff

  predicate SinkLeads(s: S.State, acts: seq<S.Action>, t: S.State, env: Platform)
  {
    S.Legal(s, acts, env) && S.After(s, acts, env) == t
  }

  lemma OneStep(s: S.State, act: S.Action, env: Platform)
    requires S.Enabled(s, act, env)
    ensures SinkLeads(s, [act], S.Step(s, act, env), env)
  {
    hide S.Enabled, S.Step;
    var t := S.Step(s, act, env);
    assert [act][1..] == [] && S.Legal(t, [], env) && S.After(t, [], env) == t;
  }

  lemma {:induction false} ThenSteps(s: S.State, acts: seq<S.Action>, t: S.State, more: seq<S.Action>, u: S.State,
                                     env: Platform)
    requires SinkLeads(s, acts, t, env) && SinkLeads(t, more, u, env)
    ensures SinkLeads(s, acts + more, u, env)
    decreases |acts|
  {
    hide S.Enabled, S.Step;
    if |acts| == 0 {
      assert acts + more == more;
    } else {
      ThenSteps(S.Step(s, acts[0], env), acts[1..], t, more, u, env);
      assert (acts + more)[1..] == acts[1..] + more;
    }
  }

  predicate ByWriter(acts: seq<S.Action>, w: Writer)
  {
    forall act <- acts :: !act.Crash? && act.w == w
  }

  /** The state in which only the writer's phase and the directories differ. */
  function At(s: S.State, w: Writer, phase: S.Phase, dirs: map<Name, Dir>): S.State
  {
    s.(phases := s.phases[w := phase], dirs := dirs)
  }

  /** A step of the writer from one phase and tree to the next. */
  lemma Takes(s: S.State, w: Writer, phase: S.Phase, dirs: map<Name, Dir>, act: S.Action, next: S.Phase,
              after: map<Name, Dir>, env: Platform)
    requires S.Enabled(At(s, w, phase, dirs), act, env)
    requires S.Step(At(s, w, phase, dirs), act, env)
             == At(s, w, phase, dirs).(phases := At(s, w, phase, dirs).phases[w := next], dirs := after)
    ensures SinkLeads(At(s, w, phase, dirs), [act], At(s, w, next, after), env)
  {
    hide S.Enabled, S.Step;
    OneStep(At(s, w, phase, dirs), act, env);
    assert At(s, w, phase, dirs).phases[w := next] == s.phases[w := next];
  }

  lemma FileBegun(s: S.State, w: Writer, p: AuditExport.Package, dirs: map<Name, Dir>, i: nat, env: Platform)
    requires |p.manifest.chunks| == |p.contents| && i < FileCount(p) && S.Own(p, w) in dirs
    ensures var next := if |FileBytes(p, i)| == 0 then S.Creating(p, i + 1) else S.Filling(p, i, 0);
            SinkLeads(At(s, w, S.Creating(p, i), dirs), [S.CreateFile(w)],
                      At(s, w, next, dirs[S.Own(p, w) := dirs[S.Own(p, w)][FileName(p, i) := []]]), env)
  {
    hide FileBytes, FileName;
    var next := if |FileBytes(p, i)| == 0 then S.Creating(p, i + 1) else S.Filling(p, i, 0);
    var own := S.Own(p, w);
    Takes(s, w, S.Creating(p, i), dirs, S.CreateFile(w), next, dirs[own := dirs[own][FileName(p, i) := []]], env);
  }

  lemma FileFilled(s: S.State, w: Writer, p: AuditExport.Package, dirs: map<Name, Dir>, i: nat, env: Platform)
    requires |p.manifest.chunks| == |p.contents| && i < FileCount(p) && S.Own(p, w) in dirs && |FileBytes(p, i)| > 0
    ensures SinkLeads(At(s, w, S.Filling(p, i, 0), dirs), [S.WriteSome(w, |FileBytes(p, i)|)],
                      At(s, w, S.Creating(p, i + 1),
                         dirs[S.Own(p, w) := dirs[S.Own(p, w)][FileName(p, i) := FileBytes(p, i)]]), env)
  {
    hide FileBytes, FileName;
    var own, bytes := S.Own(p, w), FileBytes(p, i);
    assert bytes[..|bytes|] == bytes;
    Takes(s, w, S.Filling(p, i, 0), dirs, S.WriteSome(w, |bytes|), S.Creating(p, i + 1),
          dirs[own := dirs[own][FileName(p, i) := bytes]], env);
  }

  /** One file of the package: created and, unless empty, filled. */
  lemma OneFile(s: S.State, w: Writer, p: AuditExport.Package, dirs: map<Name, Dir>, i: nat, env: Platform)
    returns (acts: seq<S.Action>)
    requires |p.manifest.chunks| == |p.contents| && i < FileCount(p)
    requires S.Own(p, w) in dirs && dirs[S.Own(p, w)] == FirstFiles(p, i)
    ensures ByWriter(acts, w)
    ensures SinkLeads(At(s, w, S.Creating(p, i), dirs), acts,
                      At(s, w, S.Creating(p, i + 1), dirs[S.Own(p, w) := FirstFiles(p, i + 1)]), env)
  {
    hide FileBytes, FileName, At, SinkLeads;
    var own, bytes := S.Own(p, w), FileBytes(p, i);
    var begun := dirs[own := FirstFiles(p, i)[FileName(p, i) := []]];
    FileBegun(s, w, p, dirs, i, env);
    acts := [S.CreateFile(w)];
    if |bytes| == 0 {
      assert bytes == [];
    } else {
      FileFilled(s, w, p, begun, i, env);
      assert begun[own][FileName(p, i) := bytes] == FirstFiles(p, i + 1);
      assert begun[own := FirstFiles(p, i + 1)] == dirs[own := FirstFiles(p, i + 1)];
      ThenSteps(At(s, w, S.Creating(p, i), dirs), acts, At(s, w, S.Filling(p, i, 0), begun),
                [S.WriteSome(w, |bytes|)],
                At(s, w, S.Creating(p, i + 1), dirs[own := FirstFiles(p, i + 1)]), env);
      acts := acts + [S.WriteSome(w, |bytes|)];
    }
  }

  /** All files from the i-th on. */
  lemma {:induction false} AllFiles(s: S.State, w: Writer, p: AuditExport.Package, dirs: map<Name, Dir>, i: nat,
                                    env: Platform)
    returns (acts: seq<S.Action>)
    requires |p.manifest.chunks| == |p.contents| && i <= FileCount(p)
    requires S.Own(p, w) in dirs && dirs[S.Own(p, w)] == FirstFiles(p, i)
    ensures ByWriter(acts, w)
    ensures SinkLeads(At(s, w, S.Creating(p, i), dirs), acts,
                      At(s, w, S.Creating(p, FileCount(p)), dirs[S.Own(p, w) := DirOf(p)]), env)
    decreases FileCount(p) - i
  {
    hide FileBytes, FileName, FirstFiles, FileCount;
    var own := S.Own(p, w);
    if i == FileCount(p) {
      acts := [];
      assert dirs[own := DirOf(p)] == dirs;
    } else {
      var staged := dirs[own := FirstFiles(p, i + 1)];
      acts := OneFile(s, w, p, dirs, i, env);
      var more := AllFiles(s, w, p, staged, i + 1, env);
      assert staged[own := DirOf(p)] == dirs[own := DirOf(p)];
      ThenSteps(At(s, w, S.Creating(p, i), dirs), acts, At(s, w, S.Creating(p, i + 1), staged), more,
                At(s, w, S.Creating(p, FileCount(p)), dirs[own := DirOf(p)]), env);
      acts := acts + more;
    }
  }

  /** Meeting an export at the final path. */
  lemma Present(s: S.State, w: Writer, p: AuditExport.Package, env: Platform)
    requires S.PhaseOf(s, w).Idle? && GoodPackage(p, env) && |p.manifest.chunks| == |p.contents|
    requires Final(p.manifest.exportId) in s.dirs
    ensures var same := s.dirs[Final(p.manifest.exportId)] == DirOf(p);
            SinkLeads(s, [S.Begin(w, p)],
                      At(s, w, S.Idle, s.dirs)
                        .(receipts := s.receipts + if same then [S.Issued(w, p, AlreadyPresent)] else []), env)
  {
    hide GoodPackage, DirOf, Confirms;
    ConfirmsIff(s.dirs[Final(p.manifest.exportId)], p, env);
    OneStep(s, S.Begin(w, p), env);
    assert s.receipts + [] == s.receipts;
  }

  /** Clearing the staging names and making the staging directory. */
  lemma Staged(s: S.State, w: Writer, p: AuditExport.Package, env: Platform) returns (acts: seq<S.Action>)
    requires S.PhaseOf(s, w).Idle? && GoodPackage(p, env) && Final(p.manifest.exportId) !in s.dirs
    ensures ByWriter(acts, w)
    ensures var cleared := s.dirs - {Legacy(p.manifest.exportId), Staging(p.manifest.exportId, w)};
            SinkLeads(s, acts, At(s, w, S.Creating(p, 0), cleared[Staging(p.manifest.exportId, w) := map[]]), env)
  {
    hide GoodPackage, Confirms, At, SinkLeads;
    var own, legacy := Staging(p.manifest.exportId, w), Legacy(p.manifest.exportId);
    var s1 := At(s, w, S.ClearingLegacy(p), s.dirs);
    var s2 := At(s, w, S.ClearingOwn(p), s.dirs - {legacy});
    var s3 := At(s, w, S.Making(p), s.dirs - {legacy, own});
    var s4 := At(s, w, S.Creating(p, 0), (s.dirs - {legacy, own})[own := map[]]);
    Begun(s, w, p, env);
    LegacyCleared(s, w, p, s.dirs, env);
    OwnCleared(s, w, p, s.dirs - {legacy}, env);
    assert s.dirs - {legacy} - {own} == s.dirs - {legacy, own};
    DirectoryMade(s, w, p, s.dirs - {legacy, own}, env);
    ThenSteps(s, [S.Begin(w, p)], s1, [S.RemoveLegacy(w)], s2, env);
    ThenSteps(s, [S.Begin(w, p)] + [S.RemoveLegacy(w)], s2, [S.RemoveOwn(w)], s3, env);
    acts := [S.Begin(w, p)] + [S.RemoveLegacy(w)] + [S.RemoveOwn(w)];
    ThenSteps(s, acts, s3, [S.MakeDir(w)], s4, env);
    acts := acts + [S.MakeDir(w)];
  }

  lemma Begun(s: S.State, w: Writer, p: AuditExport.Package, env: Platform)
    requires S.PhaseOf(s, w).Idle? && GoodPackage(p, env) && Final(p.manifest.exportId) !in s.dirs
    ensures SinkLeads(s, [S.Begin(w, p)], At(s, w, S.ClearingLegacy(p), s.dirs), env)
  {
    hide GoodPackage, Confirms;
    OneStep(s, S.Begin(w, p), env);
  }

  lemma LegacyCleared(s: S.State, w: Writer, p: AuditExport.Package, dirs: map<Name, Dir>, env: Platform)
    ensures SinkLeads(At(s, w, S.ClearingLegacy(p), dirs), [S.RemoveLegacy(w)],
                      At(s, w, S.ClearingOwn(p), dirs - {Legacy(p.manifest.exportId)}), env)
  {
    Takes(s, w, S.ClearingLegacy(p), dirs, S.RemoveLegacy(w), S.ClearingOwn(p),
          dirs - {Legacy(p.manifest.exportId)}, env);
  }

  lemma OwnCleared(s: S.State, w: Writer, p: AuditExport.Package, dirs: map<Name, Dir>, env: Platform)
    ensures SinkLeads(At(s, w, S.ClearingOwn(p), dirs), [S.RemoveOwn(w)],
                      At(s, w, S.Making(p), dirs - {Staging(p.manifest.exportId, w)}), env)
  {
    Takes(s, w, S.ClearingOwn(p), dirs, S.RemoveOwn(w), S.Making(p),
          dirs - {Staging(p.manifest.exportId, w)}, env);
  }

  lemma DirectoryMade(s: S.State, w: Writer, p: AuditExport.Package, dirs: map<Name, Dir>, env: Platform)
    requires Staging(p.manifest.exportId, w) !in dirs
    ensures SinkLeads(At(s, w, S.Making(p), dirs), [S.MakeDir(w)],
                      At(s, w, S.Creating(p, 0), dirs[Staging(p.manifest.exportId, w) := map[]]), env)
  {
    Takes(s, w, S.Making(p), dirs, S.MakeDir(w), S.Creating(p, 0),
          dirs[Staging(p.manifest.exportId, w) := map[]], env);
  }

  /** Everything is written and nobody was faster: rename. */
  lemma Renamed(s: S.State, w: Writer, p: AuditExport.Package, dirs: map<Name, Dir>, env: Platform)
    requires |p.manifest.chunks| == |p.contents| && S.Own(p, w) in dirs && Final(p.manifest.exportId) !in dirs
    ensures SinkLeads(At(s, w, S.Creating(p, FileCount(p)), dirs), [S.CreateFile(w)],
                      At(s, w, S.Rechecking(p), dirs), env)
    ensures SinkLeads(At(s, w, S.Rechecking(p), dirs), [S.Recheck(w)], At(s, w, S.Renaming(p), dirs), env)
    ensures SinkLeads(At(s, w, S.Renaming(p), dirs), [S.Rename(w)],
                      At(s, w, S.Published(p),
                         (dirs - {S.Own(p, w)})[Final(p.manifest.exportId) := dirs[S.Own(p, w)]]), env)
  {
    hide FileBytes, FileName, Confirms;
    Takes(s, w, S.Creating(p, FileCount(p)), dirs, S.CreateFile(w), S.Rechecking(p), dirs, env);
    Takes(s, w, S.Rechecking(p), dirs, S.Recheck(w), S.Renaming(p), dirs, env);
    Takes(s, w, S.Renaming(p), dirs, S.Rename(w), S.Published(p),
          (dirs - {S.Own(p, w)})[Final(p.manifest.exportId) := dirs[S.Own(p, w)]], env);
  }

  lemma Confirmed(s: S.State, w: Writer, p: AuditExport.Package, dirs: map<Name, Dir>, env: Platform)
    requires GoodPackage(p, env) && |p.manifest.chunks| == |p.contents|
    requires Final(p.manifest.exportId) in dirs && dirs[Final(p.manifest.exportId)] == DirOf(p)
    ensures SinkLeads(At(s, w, S.Published(p), dirs), [S.Confirm(w)],
                      At(s, w, S.Idle, dirs).(receipts := s.receipts + [S.Issued(w, p, Accepted)]), env)
  {
    hide GoodPackage, DirOf, Confirms;
    ConfirmsIff(DirOf(p), p, env);
    var t := At(s, w, S.Published(p), dirs);
    OneStep(t, S.Confirm(w), env);
    assert t.phases[w := S.Idle] == s.phases[w := S.Idle];
  }

  /** Renaming the complete staging directory and confirming it. */
  lemma Published(s: S.State, w: Writer, p: AuditExport.Package, cleared: map<Name, Dir>, env: Platform)
    returns (acts: seq<S.Action>)
    requires GoodPackage(p, env) && |p.manifest.chunks| == |p.contents|
    requires Final(p.manifest.exportId) !in cleared && S.Own(p, w) !in cleared
    ensures ByWriter(acts, w)
    ensures SinkLeads(At(s, w, S.Creating(p, FileCount(p)), cleared[S.Own(p, w) := DirOf(p)]), acts,
                      At(s, w, S.Idle, cleared[Final(p.manifest.exportId) := DirOf(p)])
                        .(receipts := s.receipts + [S.Issued(w, p, Accepted)]), env)
  {
    hide GoodPackage, DirOf, FileCount, At, SinkLeads;
    var own, final := S.Own(p, w), Final(p.manifest.exportId);
    var staged, published := cleared[own := DirOf(p)], cleared[final := DirOf(p)];
    var s1, s2 := At(s, w, S.Creating(p, FileCount(p)), staged), At(s, w, S.Rechecking(p), staged);
    var s3, s4 := At(s, w, S.Renaming(p), staged), At(s, w, S.Published(p), published);
    Renamed(s, w, p, staged, env);
    assert staged - {own} == cleared;
    Confirmed(s, w, p, published, env);
    ThenSteps(s1, [S.CreateFile(w)], s2, [S.Recheck(w)], s3, env);
    ThenSteps(s1, [S.CreateFile(w)] + [S.Recheck(w)], s3, [S.Rename(w)], s4, env);
    acts := [S.CreateFile(w)] + [S.Recheck(w)] + [S.Rename(w)];
    ThenSteps(s1, acts, s4, [S.Confirm(w)],
              At(s, w, S.Idle, published).(receipts := s.receipts + [S.Issued(w, p, Accepted)]), env);
    acts := acts + [S.Confirm(w)];
  }

  /**
   * Whatever one handoff of a good package may do and answer, with or without room for it, some run
   * of its steps does and answers the same.
   */
  lemma SoloHandoff(s: S.State, w: Writer, p: AuditExport.Package, room: nat, env: Platform)
    returns (acts: seq<S.Action>)
    requires S.PhaseOf(s, w).Idle? && GoodPackage(p, env)
    ensures ByWriter(acts, w) && |p.manifest.chunks| == |p.contents|
    ensures var final := Final(p.manifest.exportId);
            var cleared := s.dirs - {Legacy(p.manifest.exportId), Staging(p.manifest.exportId, w)};
            var (dirs, answer) :=
              if final in s.dirs then (s.dirs, if s.dirs[final] == DirOf(p) then Some(AlreadyPresent) else None)
              else if TotalBytes(p, FileCount(p)) <= room then (cleared[final := DirOf(p)], Some(Accepted))
              else (cleared, None);
            SinkLeads(s, acts,
                      At(s, w, S.Idle, dirs)
                        .(receipts := s.receipts + if answer.Some? then [S.Issued(w, p, answer.value)] else []), env)
  {
    hide GoodPackage, DirOf, TotalBytes, FileCount, FirstFiles, At, SinkLeads;
    GoodSizes(p, env);
    var final, own := Final(p.manifest.exportId), Staging(p.manifest.exportId, w);
    if final in s.dirs {
      Present(s, w, p, env);
      acts := [S.Begin(w, p)];
    } else {
      var cleared := s.dirs - {Legacy(p.manifest.exportId), own};
      acts := Staged(s, w, p, env);
      var empty := At(s, w, S.Creating(p, 0), cleared[own := map[]]);
      if TotalBytes(p, FileCount(p)) <= room {
        NothingYet(p);
        var files := AllFiles(s, w, p, cleared[own := map[]], 0, env);
        var full := At(s, w, S.Creating(p, FileCount(p)), cleared[own := DirOf(p)]);
        assert cleared[own := map[]][own := DirOf(p)] == cleared[own := DirOf(p)];
        var last := Published(s, w, p, cleared, env);
        ThenSteps(s, acts, empty, files, full, env);
        var done := At(s, w, S.Idle, cleared[final := DirOf(p)]);
        ThenSteps(s, acts + files, full, last, done.(receipts := s.receipts + [S.Issued(w, p, Accepted)]), env);
        acts := acts + files + last;
      } else {
        GivenUp(s, w, p, cleared, env);
        ThenSteps(s, acts, empty, [S.Raise(w, None)], At(s, w, S.Idle, cleared).(receipts := s.receipts + []), env);
        acts := acts + [S.Raise(w, None)];
      }
    }
  }

  lemma GivenUp(s: S.State, w: Writer, p: AuditExport.Package, cleared: map<Name, Dir>, env: Platform)
    requires S.Own(p, w) !in cleared
    ensures SinkLeads(At(s, w, S.Creating(p, 0), cleared[S.Own(p, w) := map[]]), [S.Raise(w, None)],
                      At(s, w, S.Idle, cleared).(receipts := s.receipts + []), env)
  {
    var staged := cleared[S.Own(p, w) := map[]];
    assert staged - {S.Own(p, w)} == cleared && s.receipts + [] == s.receipts;
    Takes(s, w, S.Creating(p, 0), staged, S.Raise(w, None), S.Idle, cleared, env);
  }

  lemma NothingYet(p: AuditExport.Package)
    requires |p.manifest.chunks| == |p.contents|
    ensures FirstFiles(p, 0) == map[] && FirstFiles(p, FileCount(p)) == DirOf(p)
  {
  }

  // ---------- handoffs that do not publish

  /** Another writer was faster: the staging goes, and the receipt says so if it published the same package. */
  lemma LostRace(s: S.State, w: Writer, p: AuditExport.Package, env: Platform)
    requires S.PhaseOf(s, w) in {S.Rechecking(p), S.Renaming(p)} && S.Own(p, w) in s.dirs
    requires GoodPackage(p, env) && |p.manifest.chunks| == |p.contents| && Final(p.manifest.exportId) in s.dirs
    ensures var act := if S.PhaseOf(s, w).Rechecking? then S.Recheck(w) else S.Rename(w);
            S.Enabled(s, act, env) &&
            var t := S.Step(s, act, env);
            && t.dirs == s.dirs - {S.Own(p, w)} && t.phases == s.phases[w := S.Idle]
            && t.receipts == s.receipts + if s.dirs[Final(p.manifest.exportId)] == DirOf(p)
                                          then [S.Issued(w, p, AlreadyPresent)] else []
  {
    hide GoodPackage, DirOf, Confirms;
    ConfirmsIff(s.dirs[Final(p.manifest.exportId)], p, env);
  }

  /** A failing handoff gives no receipt; its staging directory, if any, is removed or left in some state. */
  lemma Failing(s: S.State, w: Writer, left: Option<Dir>, env: Platform)
    requires !S.PhaseOf(s, w).Idle?
    ensures var phase, act := S.PhaseOf(s, w), S.Raise(w, left);
            S.Enabled(s, act, env) &&
            var t := S.Step(s, act, env);
            && t.phases == s.phases[w := S.Idle] && t.receipts == s.receipts
            && t.dirs == if phase.ClearingLegacy? || phase.ClearingOwn? || phase.Making? || phase.Published? then s.dirs
                         else match left
                           case None => s.dirs - {S.Own(phase.p, w)}
                           case Some(dir) => s.dirs[S.Own(phase.p, w) := dir]
  {
  }
}
