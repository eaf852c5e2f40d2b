/**
 * Publication as a protocol: any number of concurrent handoffs stage a package under their own
 * name, write it byte by byte and rename it to the final path; a handoff may fail and a process
 * may die at any step.
 */
module SinkProtocol {
  import opened Prelude
  import opened AuditContracts
  import opened AuditExport
  import opened AuditSinks
  import AuditLedgerProofs
  import L = LedgerProtocol
  import R = LedgerRuns

  /** Where one handoff stands. */
  datatype Phase =
    | Idle
    | ClearingLegacy(p: Package)
    | ClearingOwn(p: Package)
    | Making(p: Package)
    | Creating(p: Package, i: nat)
    | Filling(p: Package, i: nat, sent: nat)
    | Rechecking(p: Package)
    | Renaming(p: Package)
    | Published(p: Package)

  datatype Issued = Issued(writer: Writer, p: Package, status: Status)

  /** The destination directory, the running handoffs, and the receipts returned so far. */
  datatype State = State(dirs: map<Name, Dir>, phases: map<Writer, Phase>, receipts: seq<Issued>)

  function PhaseOf(s: State, w: Writer): Phase
  {
    if w in s.phases then s.phases[w] else Idle
  }

  function Move(s: State, w: Writer, phase: Phase): State
  {
    s.(phases := s.phases[w := phase])
  }

  function Own(p: Package, w: Writer): Name
  {
    Staging(p.manifest.exportId, w)
  }

  function FinalOf(p: Package): Name
  {
    Final(p.manifest.exportId)
  }

  /** Meeting an export at the final path: a receipt if it is the same, an error if not. */
  function Meet(s: State, w: Writer, p: Package, status: Status, env: Platform): State
    requires FinalOf(p) in s.dirs
  {
    var t := Move(s, w, Idle);
    if Confirms(s.dirs[FinalOf(p)], p, env) then t.(receipts := s.receipts + [Issued(w, p, status)]) else t
  }

  /** Removing a directory and leaving the phase. */
  function Without(s: State, name: Name): State
  {
    s.(dirs := s.dirs - {name})
  }

  datatype Action =
    | Begin(w: Writer, p: Package)
    | RemoveLegacy(w: Writer)
    | RemoveOwn(w: Writer)
    | MakeDir(w: Writer)
    | CreateFile(w: Writer)
    | WriteSome(w: Writer, n: nat)
    | Recheck(w: Writer)
    | Rename(w: Writer)
    | Confirm(w: Writer)
    | Raise(w: Writer, left: Option<Dir>)
    | Crash(process: nat)

  /** A handoff that has a staging directory to remove when it fails. */
  predicate HasStaging(phase: Phase)
  {
    phase.Creating? || phase.Filling? || phase.Rechecking? || phase.Renaming?
  }

  predicate Enabled(s: State, act: Action, env: Platform)
  {
    match act
    case Begin(w, p) => PhaseOf(s, w).Idle? && GoodPackage(p, env)
    case RemoveLegacy(w) => PhaseOf(s, w).ClearingLegacy?
    case RemoveOwn(w) => PhaseOf(s, w).ClearingOwn?
    case MakeDir(w) => PhaseOf(s, w).Making? && Own(PhaseOf(s, w).p, w) !in s.dirs
    case CreateFile(w) =>
      var phase := PhaseOf(s, w);
      phase.Creating? && |phase.p.manifest.chunks| == |phase.p.contents| && Own(phase.p, w) in s.dirs
        && phase.i <= FileCount(phase.p)
    case WriteSome(w, n) =>
      var phase := PhaseOf(s, w);
      phase.Filling? && |phase.p.manifest.chunks| == |phase.p.contents| && Own(phase.p, w) in s.dirs &&
      phase.i < FileCount(phase.p) && 0 < n <= |FileBytes(phase.p, phase.i)| - phase.sent
    case Recheck(w) => PhaseOf(s, w).Rechecking?
    case Rename(w) => PhaseOf(s, w).Renaming? && Own(PhaseOf(s, w).p, w) in s.dirs
    case Confirm(w) => PhaseOf(s, w).Published? && FinalOf(PhaseOf(s, w).p) in s.dirs
    case Raise(w, left) => !PhaseOf(s, w).Idle?
    case Crash(_) => true
  }

  function Step(s: State, act: Action, env: Platform): State
    requires Enabled(s, act, env)
  {
    match act
    case Begin(w, p) => if FinalOf(p) in s.dirs then Meet(s, w, p, AlreadyPresent, env)
      else Move(s, w, ClearingLegacy(p))
    case RemoveLegacy(w) =>
      var p := PhaseOf(s, w).p;
      Move(Without(s, Legacy(p.manifest.exportId)), w, ClearingOwn(p))
    case RemoveOwn(w) =>
      var p := PhaseOf(s, w).p;
      Move(Without(s, Own(p, w)), w, Making(p))
    case MakeDir(w) =>
      var p := PhaseOf(s, w).p;
      Move(s, w, Creating(p, 0)).(dirs := s.dirs[Own(p, w) := map[]])
    case CreateFile(w) => CreateNext(s, w)
    case WriteSome(w, n) => WriteNext(s, w, n)
    case Recheck(w) =>
      var p := PhaseOf(s, w).p;
      if FinalOf(p) in s.dirs then Without(Meet(s, w, p, AlreadyPresent, env), Own(p, w)) else Move(s, w, Renaming(p))
    case Rename(w) =>
      var p := PhaseOf(s, w).p;
      if FinalOf(p) in s.dirs then Without(Meet(s, w, p, AlreadyPresent, env), Own(p, w))
      else Move(s, w, Published(p)).(dirs := (s.dirs - {Own(p, w)})[FinalOf(p) := s.dirs[Own(p, w)]])
    case Confirm(w) => Meet(s, w, PhaseOf(s, w).p, Accepted, env)
    case Raise(w, left) =>
      var phase := PhaseOf(s, w);
      if !HasStaging(phase) then Move(s, w, Idle)
      else if left.None? then Without(Move(s, w, Idle), Own(phase.p, w))
      else Move(s, w, Idle).(dirs := s.dirs[Own(phase.p, w) := left.value])
    case Crash(process) => s.(phases := map w | w in s.phases && w.process != process :: s.phases[w])
  }

  /** Open the next file exclusively, or finish when there is none. */
  function CreateNext(s: State, w: Writer): State
    requires var phase := PhaseOf(s, w);
             phase.Creating? && |phase.p.manifest.chunks| == |phase.p.contents| && Own(phase.p, w) in s.dirs
               && phase.i <= FileCount(phase.p)
  {
    var Creating(p, i) := PhaseOf(s, w);
    if i == FileCount(p) then Move(s, w, Rechecking(p))
    else
      var name := Own(p, w);
      var next := if |FileBytes(p, i)| == 0 then Creating(p, i + 1) else Filling(p, i, 0);
      Move(s, w, next).(dirs := s.dirs[name := s.dirs[name][FileName(p, i) := []]])
  }

  function WriteNext(s: State, w: Writer, n: nat): State
    requires var phase := PhaseOf(s, w);
             phase.Filling? && |phase.p.manifest.chunks| == |phase.p.contents| && Own(phase.p, w) in s.dirs &&
             phase.i < FileCount(phase.p) && 0 < n <= |FileBytes(phase.p, phase.i)| - phase.sent
  {
    var Filling(p, i, sent) := PhaseOf(s, w);
    var name, bytes := Own(p, w), FileBytes(p, i);
    var next := if sent + n == |bytes| then Creating(p, i + 1) else Filling(p, i, sent + n);
    Move(s, w, next).(dirs := s.dirs[name := s.dirs[name][FileName(p, i) := bytes[..sent + n]]])
  }

  // ---------- the invariant

  /** The final path holds a complete package of its own export. */
  predicate CompleteExport(id: string, dir: Dir, env: Platform)
  {
    LoadedFrom(dir, env).Some? && LoadedFrom(dir, env).value.manifest.exportId == id
  }

  /** What a handoff has done so far is exactly what its phase says. */
  predicate PhaseOk(dirs: map<Name, Dir>, w: Writer, phase: Phase, env: Platform)
  {
    phase.Idle? ||
    (&& GoodPackage(phase.p, env) && |phase.p.manifest.chunks| == |phase.p.contents|
     && match phase
        case Creating(p, i) => i <= FileCount(p) && Own(p, w) in dirs && dirs[Own(p, w)] == FirstFiles(p, i)
        case Filling(p, i, sent) =>
          && i < FileCount(p) && sent < |FileBytes(p, i)| && Own(p, w) in dirs
          && dirs[Own(p, w)] == FirstFiles(p, i)[FileName(p, i) := FileBytes(p, i)[..sent]]
        case Rechecking(p) => Own(p, w) in dirs && dirs[Own(p, w)] == DirOf(p)
        case Renaming(p) => Own(p, w) in dirs && dirs[Own(p, w)] == DirOf(p)
        case Published(p) => FinalOf(p) in dirs && dirs[FinalOf(p)] == DirOf(p)
        case _ => true)
  }

  /** A returned receipt is for the package that stands at its final path. */
  predicate ReceiptOk(dirs: map<Name, Dir>, r: Issued, env: Platform)
  {
    && GoodPackage(r.p, env) && |r.p.manifest.chunks| == |r.p.contents|
    && FinalOf(r.p) in dirs && dirs[FinalOf(r.p)] == DirOf(r.p)
  }

  /** At most one handoff of an export has renamed it: it is still to confirm, or was accepted. */
  predicate OnePublisher(s: State)
  {
    && (forall i, j :: 0 <= i < j < |s.receipts| && s.receipts[i].status.Accepted? && s.receipts[j].status.Accepted? ==>
          s.receipts[i].p.manifest.exportId != s.receipts[j].p.manifest.exportId)
    && (forall i, w ::
       0 <= i < |s.receipts| && w in s.phases && s.receipts[i].status.Accepted? && s.phases[w].Published? ==>
          s.receipts[i].p.manifest.exportId != s.phases[w].p.manifest.exportId)
    && (forall v, w :: v in s.phases && w in s.phases && v != w && s.phases[v].Published? && s.phases[w].Published? ==>
          s.phases[v].p.manifest.exportId != s.phases[w].p.manifest.exportId)
  }

  ghost predicate Inv(s: State, env: Platform)
  {
    && (forall id: string :: Final(id) in s.dirs ==> CompleteExport(id, s.dirs[Final(id)], env))
    && (forall w <- s.phases :: PhaseOk(s.dirs, w, s.phases[w], env))
    && (forall r <- s.receipts :: ReceiptOk(s.dirs, r, env))
    && OnePublisher(s)
  }

  /** Once an export is at its final path it stays there unchanged. */
  ghost predicate FinalsStay(before: map<Name, Dir>, after: map<Name, Dir>)
  {
    forall id: string :: Final(id) in before ==> Final(id) in after && after[Final(id)] == before[Final(id)]
  }

  /** The writer a step moves; a crash moves the writers of its process. */
  predicate Moves(act: Action, w: Writer)
  {
    match act
    case Crash(process) => w.process == process
    case _ => act.w == w
  }

  /** A step changes only its writer's staging, the legacy name, and an absent final path. */
  lemma DirsStep(s: State, act: Action, env: Platform)
    requires Enabled(s, act, env)
    ensures var t := Step(s, act, env);
            && FinalsStay(s.dirs, t.dirs)
            && (forall id, w :: !Moves(act, w) ==>
                  (Staging(id, w) in t.dirs <==> Staging(id, w) in s.dirs) &&
                  (Staging(id, w) in s.dirs ==> t.dirs[Staging(id, w)] == s.dirs[Staging(id, w)]))
  {
    hide Step, Enabled, FinalsStay;
    FinalsStep(s, act, env);
    forall id, w | !Moves(act, w)
      ensures var t := Step(s, act, env);
              && (Staging(id, w) in t.dirs <==> Staging(id, w) in s.dirs)
              && (Staging(id, w) in s.dirs ==> t.dirs[Staging(id, w)] == s.dirs[Staging(id, w)])
    {
      OthersStep(s, act, id, w, env);
    }
  }

  lemma FinalsStep(s: State, act: Action, env: Platform)
    requires Enabled(s, act, env)
    ensures FinalsStay(s.dirs, Step(s, act, env).dirs)
  {
    hide Confirms, FileBytes, FileName, GoodPackage, FileCount;
  }

  lemma OthersStep(s: State, act: Action, id: string, w: Writer, env: Platform)
    requires Enabled(s, act, env) && !Moves(act, w)
    ensures var t := Step(s, act, env);
            && (Staging(id, w) in t.dirs <==> Staging(id, w) in s.dirs)
            && (Staging(id, w) in s.dirs ==> t.dirs[Staging(id, w)] == s.dirs[Staging(id, w)])
  {
    hide Confirms, FileBytes, FileName, GoodPackage, FileCount;
  }

  lemma OnlyMoverMoves(s: State, act: Action, v: Writer, env: Platform)
    requires Enabled(s, act, env) && v in Step(s, act, env).phases && !Moves(act, v)
    ensures v in s.phases && Step(s, act, env).phases[v] == s.phases[v]
  {
    hide Confirms, FileBytes, FileName, GoodPackage, FileCount;
  }

  /** A handoff that does not move keeps what it has done. */
  lemma OthersKeep(before: map<Name, Dir>, after: map<Name, Dir>, v: Writer, phase: Phase, env: Platform)
    requires PhaseOk(before, v, phase, env) && FinalsStay(before, after)
    requires forall id: string :: (Staging(id, v) in before
             ==> Staging(id, v) in after && after[Staging(id, v)] == before[Staging(id, v)])
    ensures PhaseOk(after, v, phase, env)
  {
    hide GoodPackage, FirstFiles, FileName, FileBytes, FileCount, DirOf;
    if !phase.Idle? {
      assert FinalOf(phase.p) in before ==>
               FinalOf(phase.p) in after && after[FinalOf(phase.p)] == before[FinalOf(phase.p)];
    }
  }

  /** Creating or writing advances the staged files exactly. */
  lemma WriteSomeOk(s: State, act: Action, env: Platform)
    requires Enabled(s, act, env) && act.WriteSome?
    requires act.w in s.phases && PhaseOk(s.dirs, act.w, s.phases[act.w], env)
    ensures PhaseOk(Step(s, act, env).dirs, act.w, Step(s, act, env).phases[act.w], env)
  {
    hide GoodPackage, FileBytes, FileName;
    var p := s.phases[act.w].p;
    var Filling(_, i, sent) := s.phases[act.w];
    var bytes := FileBytes(p, i);
    assert bytes[..|bytes|] == bytes;
    assert FirstFiles(p, i)[FileName(p, i) := bytes[..sent]][FileName(p, i) := bytes[..sent + act.n]]
        == FirstFiles(p, i)[FileName(p, i) := bytes[..sent + act.n]];
    assert FirstFiles(p, i + 1) == FirstFiles(p, i)[FileName(p, i) := bytes];
  }

  lemma CreateFileOk(s: State, act: Action, env: Platform)
    requires Enabled(s, act, env) && act.CreateFile?
    requires act.w in s.phases && PhaseOk(s.dirs, act.w, s.phases[act.w], env)
    ensures PhaseOk(Step(s, act, env).dirs, act.w, Step(s, act, env).phases[act.w], env)
  {
    hide GoodPackage, FileBytes, FileName;
    var p, i := s.phases[act.w].p, s.phases[act.w].i;
    if i < FileCount(p) {
      var bytes := FileBytes(p, i);
      assert bytes[..0] == [];
      assert FirstFiles(p, i + 1) == FirstFiles(p, i)[FileName(p, i) := bytes];
    }
  }

  /** Where a step takes its own writer. */
  lemma MoverOk(s: State, act: Action, env: Platform)
    requires Inv(s, env) && Enabled(s, act, env) && !act.Crash?
    ensures var t := Step(s, act, env); act.w in t.phases && PhaseOk(t.dirs, act.w, t.phases[act.w], env)
  {
    hide GoodPackage, FirstFiles, FileBytes, FileName, Confirms, CompleteExport, ReceiptOk, OnePublisher,
         FileCount, DirOf;
    if act.WriteSome? {
      WriteSomeOk(s, act, env);
    } else if act.CreateFile? {
      CreateFileOk(s, act, env);
    } else if act.Begin? {
      PackageSizes(act.p, env);
    } else if act.MakeDir? {
      NoFilesYet(PhaseOf(s, act.w).p);
    }
  }

  lemma PackageSizes(p: Package, env: Platform)
    requires GoodPackage(p, env)
    ensures |p.manifest.chunks| == |p.contents|
  {
  }

  lemma NoFilesYet(p: Package)
    requires |p.manifest.chunks| == |p.contents|
    ensures FirstFiles(p, 0) == map[] && 0 <= FileCount(p)
  {
  }

  /** The only new final directory is a complete package. */
  lemma FinalsOk(s: State, act: Action, id: string, env: Platform)
    requires Inv(s, env) && Enabled(s, act, env) && Final(id) in Step(s, act, env).dirs
    ensures CompleteExport(id, Step(s, act, env).dirs[Final(id)], env)
  {
    hide GoodPackage, FirstFiles, FileBytes, FileName, Confirms, ReceiptOk, OnePublisher, FileCount, DirOf, LoadedFrom;
    if act.Rename? {
      var p := s.phases[act.w].p;
      assert PhaseOk(s.dirs, act.w, s.phases[act.w], env);
      LoadsIff(DirOf(p), p, env);
    }
  }

  /** The receipt a step adds, if any, is backed by the final directory. */
  lemma ReceiptsOk(s: State, act: Action, r: Issued, env: Platform)
    requires Inv(s, env) && Enabled(s, act, env) && r in Step(s, act, env).receipts
    ensures ReceiptOk(Step(s, act, env).dirs, r, env)
  {
    hide GoodPackage, FirstFiles, FileBytes, FileName, Confirms, CompleteExport, OnePublisher, FileCount, DirOf,
         LoadedFrom;
    DirsStep(s, act, env);
    if r in s.receipts {
      assert FinalOf(r.p) in s.dirs;
    } else {
      var p := if act.Begin? then act.p else PhaseOf(s, act.w).p;
      assert !act.Begin? ==> PhaseOk(s.dirs, act.w, s.phases[act.w], env);
      ConfirmsIff(s.dirs[FinalOf(p)], p, env);
    }
  }

  /** Steps that accept nothing and publish nothing. */
  ghost predicate Quiet(s: State, t: State)
  {
    && (forall v <- t.phases :: t.phases[v].Published? ==> v in s.phases && s.phases[v] == t.phases[v])
    && (t.receipts == s.receipts || exists r: Issued :: !r.status.Accepted? && t.receipts == s.receipts + [r])
  }

  lemma QuietKeepsPublisher(s: State, t: State)
    requires OnePublisher(s) && Quiet(s, t)
    ensures OnePublisher(t)
  {
  }

  lemma QuietStep(s: State, act: Action, env: Platform)
    requires Enabled(s, act, env) && !act.Confirm? && (act.Rename? ==> FinalOf(PhaseOf(s, act.w).p) in s.dirs)
    ensures Quiet(s, Step(s, act, env))
  {
    hide GoodPackage, FileBytes, FileName, Confirms, FileCount;
    var t := Step(s, act, env);
    if t.receipts != s.receipts {
      var p := if act.Begin? then act.p else PhaseOf(s, act.w).p;
      assert t.receipts == s.receipts + [Issued(act.w, p, AlreadyPresent)];
    }
  }

  /** Only a rename to an absent final path makes a publisher, and only a publisher is accepted. */
  lemma OnePublisherStep(s: State, act: Action, env: Platform)
    requires Inv(s, env) && Enabled(s, act, env)
    ensures OnePublisher(Step(s, act, env))
  {
    hide GoodPackage, FileBytes, FileName, Confirms, CompleteExport, PhaseOk, ReceiptOk, Quiet;
    PublishersHaveFinals(s, env);
    var t := Step(s, act, env);
    if !act.Confirm? && (act.Rename? ==> FinalOf(PhaseOf(s, act.w).p) in s.dirs) {
      QuietStep(s, act, env);
      QuietKeepsPublisher(s, t);
    }
  }

  lemma PublishersHaveFinals(s: State, env: Platform)
    requires Inv(s, env)
    ensures forall w <- s.phases :: s.phases[w].Published? ==> FinalOf(s.phases[w].p) in s.dirs
    ensures forall i :: 0 <= i < |s.receipts| ==> FinalOf(s.receipts[i].p) in s.dirs
  {
    hide GoodPackage, FirstFiles, FileBytes, FileName, CompleteExport, OnePublisher, FileCount, DirOf;
    forall w | w in s.phases && s.phases[w].Published? ensures FinalOf(s.phases[w].p) in s.dirs {
      assert PhaseOk(s.dirs, w, s.phases[w], env);
    }
    forall i | 0 <= i < |s.receipts| ensures FinalOf(s.receipts[i].p) in s.dirs {
      assert s.receipts[i] in s.receipts;
    }
  }

  /** Every step of every handoff keeps the invariant, and what is published stays as it is. */
  lemma StepKeepsInv(s: State, act: Action, env: Platform)
    requires Inv(s, env) && Enabled(s, act, env)
    ensures Inv(Step(s, act, env), env) && FinalsStay(s.dirs, Step(s, act, env).dirs)
  {
    hide PhaseOk, CompleteExport, ReceiptOk, OnePublisher, Enabled, Step, Moves;
    var t := Step(s, act, env);
    DirsStep(s, act, env);
    OnePublisherStep(s, act, env);
    forall id: string | Final(id) in t.dirs ensures CompleteExport(id, t.dirs[Final(id)], env) {
      FinalsOk(s, act, id, env);
    }
    forall r | r in t.receipts ensures ReceiptOk(t.dirs, r, env) {
      ReceiptsOk(s, act, r, env);
    }
    forall w | w in t.phases ensures PhaseOk(t.dirs, w, t.phases[w], env) {
      if Moves(act, w) {
        CrashLeavesNone(s, act, w, env);
        MoverOk(s, act, env);
      } else {
        OnlyMoverMoves(s, act, w, env);
        OthersKeep(s.dirs, t.dirs, w, s.phases[w], env);
      }
    }
  }

  lemma CrashLeavesNone(s: State, act: Action, w: Writer, env: Platform)
    requires Enabled(s, act, env) && Moves(act, w) && w in Step(s, act, env).phases
    ensures !act.Crash? && act.w == w
  {
  }

  // ---------- whole runs

  predicate Legal(s: State, acts: seq<Action>, env: Platform)
    decreases |acts|
  {
    |acts| > 0 ==> Enabled(s, acts[0], env) && Legal(Step(s, acts[0], env), acts[1..], env)
  }

  function After(s: State, acts: seq<Action>, env: Platform): State
    requires Legal(s, acts, env)
    decreases |acts|
  {
    if |acts| == 0 then s else After(Step(s, acts[0], env), acts[1..], env)
  }

  /** A start: no handoff runs, and whatever is already published is complete. */
  ghost predicate Start(s: State, env: Platform)
  {
    && s.phases == map[] && s.receipts == []
    && forall id: string :: Final(id) in s.dirs ==> CompleteExport(id, s.dirs[Final(id)], env)
  }

  lemma {:induction false} RunKeepsInv(s: State, acts: seq<Action>, env: Platform)
    requires Inv(s, env) && Legal(s, acts, env)
    ensures Inv(After(s, acts, env), env) && FinalsStay(s.dirs, After(s, acts, env).dirs)
    decreases |acts|
  {
    hide Inv, Step, Enabled;
    if |acts| > 0 {
      StepKeepsInv(s, acts[0], env);
      RunKeepsInv(Step(s, acts[0], env), acts[1..], env);
    }
  }

  /**
   * Publication is atomic, final and counted: after any run of concurrent handoffs with failures
   * and crashes, a final path is absent or holds a complete package of its export; every receipt
   * was given for exactly the package found there; and no export was accepted twice.
   */
  lemma PublicationSafety(s: State, acts: seq<Action>, env: Platform)
    requires Start(s, env) && Legal(s, acts, env)
    ensures var t := After(s, acts, env);
            && (forall id: string :: Final(id) in t.dirs ==> CompleteExport(id, t.dirs[Final(id)], env))
            && (forall r <- t.receipts :: ReceiptOk(t.dirs, r, env))
            && (forall i, j ::
               0 <= i < j < |t.receipts| && t.receipts[i].status.Accepted? && t.receipts[j].status.Accepted? ==>
                  t.receipts[i].p.manifest.exportId != t.receipts[j].p.manifest.exportId)
            && FinalsStay(s.dirs, t.dirs)
  {
    hide CompleteExport, ReceiptOk, PhaseOk, Step, Enabled, Legal, After;
    assert Inv(s, env);
    RunKeepsInv(s, acts, env);
  }

  // ---------- delivery from a ledger that is in use

  /** The identity of a package's ledger. */
  function ManifestSnapshot(p: Package): R.Snapshot
    requires p.manifest.eventCount >= 0
  {
    R.Snapshot(p.manifest.eventCount, p.manifest.head, p.manifest.exportSha256)
  }

  /** The checks of handoff_audit_export before and after the sink is called. */
  predicate DeliveryChecks(p: Package, before: Bytes, after: Bytes, c: L.Config)
  {
    && p.manifest.featureId == c.feature && p.manifest.eventCount >= 0
    && R.Verify(before, c) == Some(ManifestSnapshot(p)) && R.Verify(after, c) == Some(ManifestSnapshot(p))
  }

  /** The checks pass exactly when both files verify as the ledger that the manifest names. */
  lemma DeliveryMeans(s: L.State, acts: seq<L.Action>, i: nat, j: nat, p: Package, c: L.Config)
    requires L.Sound(c) && R.Start(s, c) && R.Legal(s, acts, c) && i <= j <= |acts|
    ensures var file := R.FileAt(s, acts, i, c);
            DeliveryChecks(p, file, R.FileAt(s, acts, j, c), c) <==>
              && p.manifest.featureId == c.feature && R.FileAt(s, acts, j, c) == file
              && exists v :: R.Verify(file, c) == Some(v) && p.manifest.eventCount == v.eventCount
                             && p.manifest.head == v.head && p.manifest.exportSha256 == v.exportSha256
  {
    hide R.Start, R.Legal, R.FileAt, R.Verify;
    if DeliveryChecks(p, R.FileAt(s, acts, i, c), R.FileAt(s, acts, j, c), c) {
      R.SnapshotSandwich(s, acts, i, i, j, c);
    }
  }

  /**
   * A delivery that passes its checks during any run of the ledger describes one state that did
   * not change meanwhile, and the delivered bytes are that ledger's own, short of a collision.
   */
  lemma DeliveryDescribesLedger(s: L.State, acts: seq<L.Action>, i: nat, j: nat, p: Package, c: L.Config)
    requires L.Sound(c) && R.Start(s, c) && R.Legal(s, acts, c) && i <= j <= |acts|
    requires GoodPackage(p, c.env) && DeliveryChecks(p, R.FileAt(s, acts, i, c), R.FileAt(s, acts, j, c), c)
    ensures var file := R.FileAt(s, acts, i, c);
            && R.FileAt(s, acts, j, c) == file
            && (Concat(p.contents) == file || AuditLedgerProofs.IsCollision(Concat(p.contents), file, c.env))
  {
    hide R.Start, R.Legal, R.FileAt, R.Verify, ValidManifest, Concat, ContentMatches, CanonicalJsonl;
    var file := R.FileAt(s, acts, i, c);
    R.VerifyNeedsRead(file, c);
    R.SnapshotSandwich(s, acts, i, i, j, c);
    R.ExportIsFile(file, c);
  }
}
