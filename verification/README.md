# A verified model of the audit ledger, its exports, the artifact engine and the architecture checks

This project models the parts of the `sdai` package whose correctness is hardest to see by reading,
and proves what they promise.

| part | source | files here |
|---|---|---|
| Canonical JSON and UTF-8 | `audit_contracts.py` | `Prelude`, `Utf8`, `Json`, `JsonProofs`, `AuditContracts`, `JsonTerms` |
| The hash-chained audit ledger, crashes and recovery, the second reader | `audit_provenance.py`, `audit_ledger.py`, `audit_readonly.py` | `AuditEvents`, `AuditEventProofs`, `AuditLedger`, `AuditLedgerProofs`, `AuditReadOnly`, `LedgerProtocol`, `LedgerRuns`, `EventTerms` |
| Export packages, reports, publication by rename | `audit_export.py`, `audit_report.py`, `audit_sinks.py` | `AuditExport`, `AuditExportProofs`, `AuditSinks`, `SinkProtocol`, `SoloRuns`, `LedgerTerms` |
| Layered artifact schemas, freshness, recording, directory hashes | `artifact_schemas.py`, `artifact_state.py` | `ArtifactGraphs`, `ArtifactSchemas`, `ArtifactFreshness`, `ArtifactEvaluation`, `ArtifactRecording`, `DirectoryHash`, `SchemaTerms`, `ArtifactTerms` |
| Architecture drift and trust boundaries | `architecture_drift.py`, `architecture_security_drift.py` | `FactAttributes`, `ArchitectureDrift`, `ObservationBodies`, `TrustBoundary`, `TrustCrossings`, `TrustEvaluation`, `TrustSecurity`, `DerivedFacts`, `TrustReport`, `SecurityRefusals`, `DriftTerms`, `SecurityTerms` |
| Comment, literal and brace scanners | `architecture_dependency_observer.py`, `architecture_data_observer.py`, `architecture_deployment_observer.py` | `Masking`, `CommentScanners`, `LineNumbers`, `SqlScanner`, `HclResources`, `LexerTerms`, `CommentTerms` |

Code that changes state is a class or a method with loops, specified by functions and predicates about
which the lemmas speak: the ledger file (`EventsFile`), the sink's directory tree (`Destination`), the
depth-first sorter (`Sorter`), the JSON node counter (`NodeCounter`). The ledger and the sink are also
state machines over the steps of any number of agents, where each step may be the last one of a thread
or a process; `SoloRuns` proves that the steps of one agent alone do exactly what the methods do.

The modules whose names end in `Terms` say once more, over the fields of records and the characters of
texts and apart from the definitions of the model, what the words of the main theorems mean: when a crossing
is mediated, an artifact fresh, a layer's overlay acceptable, a record sound, a quote masked.

Library behaviour is a parameter. `Platform` holds SHA-256, timestamp parsing, `str.casefold`, the
`repr` of floats and `str()`; `Lawful` says what is needed of them (digests are hexadecimal, the
normalizers idempotent). Nothing assumes that SHA-256 is injective: wherever equality of digests
matters, the theorem exhibits the two colliding inputs.

Findings, where a tempting property fails and the exact condition is proved instead:

- Recovery of a torn first record: with no complete record the truncating append raises once on the
  empty remainder and leaves an empty file, on which the next append works (`CrashPoint`, `NextAppendRecovers`).
- A record complete but for its LF is valid JSON, so recovery refuses it and the ledger fails closed for
  good (`FailsClosedForever`).
- `_sql_statements` reports the line on which the text after the previous semicolon starts, not the line of
  the statement; they agree exactly when no newline stands between (`StatementLineIff`, `SecondStatementLine`).
- Comment stripping keeps newlines, but its callers number lines with `str.splitlines`, and other line
  ends become spaces inside comments. Lines counted by newline always survive (`MaskKeepsLines`); lines
  counted by `splitlines` survive exactly when no other line end is blanked, the CR of a CRLF aside
  (`LineSurvivesIff`, `StrippedLinesIff`), and `LineMovesUp` is a text where one does not.
- Attributes are frozen when a fact is built and again when a finding is, and a frozen mapping cannot be
  written as JSON: a fact with a mapping among its attributes can be observed and approved but not reported,
  and any such observed fact ends the security evaluation with a type error (`FrozenTwice`,
  `CompareArchitecture`, `DeriveCrossings`; failing inputs `SchemaUnreportable`, `NestedEvidenceRefused`).
- The finding about missing controls names them all in a message of at most 4096 characters, so judging
  refuses when they do not fit (`JudgeCrossing`, `UnspeakableIff`): never with fifteen controls
  (`FifteenControlsFit`), but with sixteen long ones (`SixteenControlsRefused`).
- Observations are digested before they are compared, so one that exceeds the JSON limits as a whole is
  refused although each of its facts was accepted (`ObservedGroups`, `ModestHashable`, `TooLargeIff`).
- Colliding semantic keys aside, derived trust-boundary facts can only be disputed by an observation that
  already states one of them with another record of the same location (`DerivedNeverDispute`).

`dafny verify dfyconfig.toml` checks the project.

## Model

| member | source | states |
|---|---|---|
| `Utf8.DecodeEncode` | src/sdai/audit_ledger.py:230-257 | strict UTF-8 decoding of an encoded text gives the text back, for every string |
| `Utf8.DecodeTorn` | src/sdai/audit_ledger.py:211-228 | cutting encoded text anywhere leaves bytes that either do not decode or decode to a proper prefix of the text |
| `Utf8.EncodeHasNoLF` | src/sdai/audit_ledger.py:211-257 | a text without newline encodes to bytes without LF, so splitting at LF never cuts a record |
| `Utf8.EncodeInjective` | src/sdai/artifact_state.py:315-342 | different relative paths have different UTF-8 forms |
| `JsonProofs.LoadsDumps` | src/sdai/audit_contracts.py:107-118 | parsing canonical JSON text gives back exactly the value that was written: every escape, number form, nesting and key order |
| `JsonProofs.TornObject` | src/sdai/audit_ledger.py:211-228 | no proper prefix of a canonical object is valid JSON |
| `JsonProofs.ValueExtends` | src/sdai/audit_ledger.py:211-228 | a value parsed from a prefix of a text is parsed the same from the whole text, unless a number could go on |
| `JsonProofs.DumpsHasNoNewline` | src/sdai/audit_contracts.py:107-118 | canonical text never contains a raw newline, whatever the strings hold |
| `JsonProofs.ValueReadable` | src/sdai/audit_export.py:73-93 | whatever JSON text is accepted, the value has sorted unique keys and normal floats, so canonicalizing it is well defined |
| `JsonProofs.LoadsDumpsLine` | src/sdai/audit_contracts.py:107-118 | the manifest form, canonical text and one newline, also parses back to its value |
| `Prelude.TerminatedSplit` | src/sdai/audit_ledger.py:230-232 | splitting at LF and terminating every piece again loses nothing |
| `Prelude.SplitTerminated` | src/sdai/audit_ledger.py:230-232 | LF-free records written with their LF are exactly what split gives back |
| `AuditContracts.LoadCanonical` | src/sdai/audit_contracts.py:107-118 | reading the canonical bytes of any well-formed value gives the value |
| `AuditContracts.CanonicalHasNoLF` | src/sdai/audit_contracts.py:107-118 | canonical bytes are one non-empty line |
| `AuditContracts.TornCanonical` | src/sdai/audit_ledger.py:211-228 | a canonical object torn at any byte, inside a character or not, does not load |
| `AuditContracts.GitCommitIdempotent` | src/sdai/audit_contracts.py:251-258 | a normalized commit is a fixed point of the normalizer |
| `AuditContracts.FreezeJson` | src/sdai/audit_contracts.py:146-188 | the recursive walk with its shared counter accepts exactly the values without secret keys, non-finite numbers or excessive depth that fit what is left of the node budget, returns them unchanged and charges one per node |
| `AuditEvents.SortBindingsSorts` | src/sdai/audit_provenance.py:206-216 | the binding sort orders by (kind, source, digest) and neither adds nor drops a binding |
| `AuditEvents.SortedIsFixed` | src/sdai/audit_provenance.py:206-216 | sorted bindings are left alone |
| `AuditEventProofs.MakeExecutionIdempotent` | src/sdai/audit_provenance.py:106-122 | what the execution constructor returns it leaves alone, as event creation expects of its argument |
| `AuditEventProofs.CreateIff` | src/sdai/audit_provenance.py:250-310 | creation succeeds exactly for a positive sequence, a known category, valid feature and time, distinct bindings, admissible metadata and a well-formed previous digest; the digest it computes never makes it fail |
| `EventTerms.CreateMeans` | src/sdai/audit_provenance.py:250-310 | the same said over the characters of feature, category and time, the pairs of bindings, the paths into the metadata and the characters of the digest |
| `AuditEventProofs.CreateIsSatisfiable` | src/sdai/audit_provenance.py:250-310 | the laws assumed of the library can hold, and an event can then be created |
| `AuditEventProofs.ConstructIdempotent` | src/sdai/audit_provenance.py:191-222 | constructing an event from a constructed event changes nothing: every normalizer is idempotent |
| `AuditEventProofs.CreateSettles` | src/sdai/audit_provenance.py:250-310 | a created event is normalized, carries the asked sequence and previous digest, feature and metadata, and its own digest covers its body |
| `AuditEventProofs.CreatedFromDraft` | src/sdai/audit_provenance.py:250-310 | the event created from a draft has its actor, action, execution, category and metadata unchanged, its time normalized, its bindings all and in ascending order of kind and source, and an identity made of feature, colon and the sequence number in at least eight digits |
| `AuditEventProofs.SettledReadsBack` | src/sdai/audit_provenance.py:312-347 | the JSON form of a settled event maps back to the event |
| `AuditEventProofs.CreatedReadsBack` | src/sdai/audit_provenance.py:241-347 | canonical round trip: the record of any created event is one line and reads back as that event, digest check included |
| `AuditEventProofs.BodyIgnoresDigest` | src/sdai/audit_provenance.py:225-240 | what the digest covers does not contain the digest |
| `AuditEventProofs.SameBodySameRecord` | src/sdai/audit_provenance.py:225-247 | equal body bytes and equal digests give byte-identical records |
| `AuditEventProofs.RecordText` | src/sdai/audit_provenance.py:241-247 | a record is its body with the digest as last key |
| `AuditLedger.EventsFile.WriteAll` | src/sdai/audit_ledger.py:48-54 | the short-write loop appends a prefix of the bytes, and all of them exactly when it reports success |
| `AuditLedger.EventsFile.Truncate` | src/sdai/audit_ledger.py:259-271 | the file is cut to the given size unless the cut itself fails, and a cut whose synchronization fails is reported as a failure |
| `AuditLedger.EventsFile.ReadLocked` | src/sdai/audit_ledger.py:195-274 | the result and the bytes left behind by a locked read, with or without tail recovery, size bound included |
| `AuditLedger.EventsFile.Append` | src/sdai/audit_ledger.py:296-347 | the result and the file after an append: recover, read, create, bound checks, write, whatever the operating system does |
| `AuditLedger.ParseLines` | src/sdai/audit_ledger.py:230-257 | the chain loop accepts exactly the lines that read one after the other |
| `AuditLedgerProofs.AcceptedIff` | src/sdai/audit_ledger.py:211-294 | a file reads as a list of events exactly when they form a valid chain from sequence 1 and the file is their rendering, byte for byte |
| `EventTerms.AcceptedMeans` | src/sdai/audit_ledger.py:211-257 | the accepted files spelled out: at most 64 MiB and 100,000 events, the canonical texts of sound events of the feature, numbered from 1, each naming the digest before it |
| `EventTerms.RecordMeans` | src/sdai/audit_provenance.py:191-347 | a record reads back as its event exactly when every field of the event is sound and its metadata is a JSON object |
| `EventTerms.SettledMeans` | src/sdai/audit_provenance.py:191-222 | which events are sound, field by field, over the characters of their texts |
| `EventTerms.ReadIsSettled` | src/sdai/audit_provenance.py:312-347 | whatever event is read from a record, whoever wrote it, is normalized and valid in every part |
| `EventTerms.MappingMeans` | src/sdai/audit_provenance.py:312-347 | an event is read only from an object with exactly its names and version, which says all that the event says, the parts that reading normalizes included |
| `EventTerms.ExecutionMeans` | src/sdai/audit_provenance.py:106-122 | an execution is accepted exactly with identifiers, a hexadecimal commit and a portable workspace, and keeps all it was given, its commit folded |
| `EventTerms.TextMeans` | src/sdai/audit_contracts.py:199-214 | texts are non-empty, bounded in bytes, without surrounding white space and without control characters but tabs |
| `EventTerms.IdentifierMeans` | src/sdai/audit_contracts.py:217-223 | identifiers are one to 256 letters, digits and marks, the first no mark |
| `EventTerms.ReferenceMeans` | src/sdai/audit_contracts.py:226-236 | references have no backslash, root or drive, and no segment between slashes is empty, one dot or two |
| `JsonTerms.FreezableMeans` | src/sdai/audit_contracts.py:146-188 | metadata is accepted exactly with at most 50,000 values, none deeper than 32 levels, and without a non-finite number or a secret's name on any path |
| `JsonTerms.NodesMeans` | src/sdai/audit_contracts.py:146-188 | what the shared counter counts is the number of paths into the value |
| `JsonTerms.SecretKeyMeans` | src/sdai/audit_contracts.py:120-143 | a name is a secret's exactly when its letters and digits, folded, end with a secret word or are one of four further words |
| `LedgerTerms.EventFields` | src/sdai/audit_provenance.py:225-244 | which field of an event a record holds under which name: what happened |
| `LedgerTerms.EventPlace` | src/sdai/audit_provenance.py:225-244 | the same for its place and time in the chain |
| `LedgerTerms.ExecutionFields` | src/sdai/audit_provenance.py:123-131 | the same for the parts of its execution |
| `AuditLedgerProofs.PlannedEvent` | src/sdai/audit_ledger.py:296-347 | an append to an accepted ledger writes the next link of the chain, the event of its own draft, within all bounds, and no proper prefix of its record loads |
| `AuditLedgerProofs.PlannedIff` | src/sdai/audit_ledger.py:296-347 | an append to an accepted ledger writes exactly when the draft has a known category, a readable time, distinct bindings and admissible metadata, and count, record and file stay within their bounds |
| `AuditLedgerProofs.AppendAnswers` | src/sdai/audit_ledger.py:296-347 | whenever an append returns an event, it is the event of the caller's draft, and the file reads as the events kept by recovery and this one |
| `AuditLedgerProofs.AppendAccepted` | src/sdai/audit_ledger.py:296-347 | after a completed append the file reads as the old events and the new one |
| `AuditLedgerProofs.TornFile` | src/sdai/audit_ledger.py:211-228 | a torn append is refused by a strict read, and the last LF is exactly where the accepted ledger ended |
| `AuditLedgerProofs.CrashPoint` | src/sdai/audit_ledger.py:211-257 | the crash-point theorem: after any number k of the bytes of an append, which reads succeed, with which events, and what recovery keeps |
| `AuditLedgerProofs.NextAppendRecovers` | src/sdai/audit_ledger.py:211-347 | the append after a torn write acts as on the undamaged file; with no complete record left it raises once and leaves an empty file |
| `AuditLedgerProofs.FailsClosedForever` | src/sdai/audit_ledger.py:211-228 | a complete record without its LF fails closed: no sequence of later appends succeeds or changes a byte |
| `AuditLedgerProofs.DifferentChainsCollide` | src/sdai/audit_provenance.py:312-347 | from two different valid chains with one head digest, walking backwards finds two different bodies with one digest |
| `AuditLedgerProofs.TamperEvidence` | src/sdai/audit_ledger.py:230-257 | two different files that verify as non-empty ledgers of one feature with one head digest yield an explicit digest collision |
| `AuditReadOnly.VerifyLines` | src/sdai/audit_readonly.py:162-188 | the second verification loop accepts the same lines with the same events as the ledger's |
| `AuditReadOnly.ReadVerifiedAudit` | src/sdai/audit_readonly.py:113-206 | acceptance, status, tail size, selection, the bound on returned events, head and export digest of the view |
| `LedgerTerms.SelectMeans` | src/sdai/audit_readonly.py:82-87 | the selection holds exactly the events of the asked run and the asked task, where one is asked for, in their order |
| `AuditReadOnly.ReadersAgree` | src/sdai/audit_readonly.py:90-206 | on every byte string the read-only verifier and the ledger agree on acceptance, events and what recovery truncates |
| `AuditReadOnly.SameExportDigest` | src/sdai/audit_readonly.py:202 | where the strict read accepts, the view's export digest is that of the ledger's export |
| `LedgerProtocol.LocksStep` | src/sdai/audit_ledger.py:75-157 | thread lock and file lock keep excluding each other through every step, exceptions and crashes included |
| `LedgerProtocol.FileChangesOnlyByHolder` | src/sdai/audit_ledger.py:75-157 | no agent's step changes the file while another is in its critical section |
| `LedgerProtocol.PlanOnTorn` | src/sdai/audit_ledger.py:211-347 | planning on a torn file is planning on the file without its tail |
| `LedgerProtocol.AfterReadOk` | src/sdai/audit_ledger.py:259-347 | whatever an agent does after its read is consistent with the file |
| `LedgerProtocol.WriteKeeps` | src/sdai/audit_ledger.py:48-54 | a partial write leaves the committed events alone and the last byte commits exactly the new one |
| `LedgerProtocol.TruncateKeeps` | src/sdai/audit_ledger.py:259-271 | cutting the tail keeps every committed event and the plan |
| `LedgerProtocol.StepKeepsInv` | src/sdai/audit_ledger.py:75-347 | every step of every agent keeps the whole invariant and only extends the committed events |
| `LedgerProtocol.ReturnedStep` | src/sdai/audit_ledger.py:296-347 | no step makes an event that append() returned disappear or be returned again |
| `LedgerRuns.RunKeepsInv` | src/sdai/audit_ledger.py:75-347 | the same over any sequence of steps |
| `LedgerRuns.RunSafety` | src/sdai/audit_ledger.py:75-347 | in every interleaving with crashes the file is a rendered chain numbered 1..n and at most one torn record, and committed events stay in place byte for byte |
| `LedgerRuns.ReturnedEventsStand` | src/sdai/audit_ledger.py:296-347 | every event that an append returned in a run is the event of the draft with which that agent called it, and stands at its sequence number at every later moment; none was returned twice |
| `LedgerRuns.CommittedWereRequested` | src/sdai/audit_ledger.py:296-347 | every event that a run commits is the event of a draft that some agent asked to append |
| `SoloRuns.SoloAppend` | src/sdai/audit_ledger.py:195-347 | the steps of the protocol do what the sequential append does: for every file, draft and behaviour of the operating system, a run of one agent's steps leaves the same file, returns the same answer and frees both locks |
| `LedgerRuns.ChainNumbers` | src/sdai/audit_ledger.py:230-257 | sequence numbers are exactly 1..n |
| `LedgerRuns.LockFreeReaderSeesCommitted` | src/sdai/audit_readonly.py:90-206 | a reader without the lock sees exactly the committed events and the size of the torn record, or refuses because only the LF is missing |
| `LedgerRuns.ExportIsFile` | src/sdai/audit_ledger.py:280-294 | for every accepted file the export is the file's own bytes and verify reports their digest |
| `LedgerRuns.VerifyMeans` | src/sdai/audit_ledger.py:280-294 | what a verification reports: the number of events read, the last digest or zeros, and the digest of the file |
| `LedgerRuns.SnapshotSandwich` | src/sdai/audit_export.py:325-341 | equal event counts at two moments of any run mean that every successful read between them saw one file |
| `LedgerRuns.ReportIsOneState` | src/sdai/audit_report.py:351-390 | a published report describes one real ledger state |
| `LedgerRuns.ReportMeans` | src/sdai/audit_report.py:351-390 | a report needs two equal verifications around a read of as many events with the same last digest, and holds just those |
| `LedgerRuns.ReportInRun` | src/sdai/audit_report.py:351-390 | during any run a report is published exactly when its three reads succeed and see one file, and it holds that file's events and digests |
| `AuditExport.CheckManifest` | src/sdai/audit_export.py:164-200 | the manifest checks accept exactly the valid manifests: bounds, total, contiguity, derived identity |
| `LedgerTerms.ManifestMeans` | src/sdai/audit_export.py:103-200 | a manifest is valid exactly when its fields are, and its chunks are numbered from 0 under their names, each starting where the one before ends, none empty or too long, the last ending at the announced length |
| `AuditExport.ValidatePackage` | src/sdai/audit_export.py:293-309 | validation accepts exactly the packages whose chunks, digests, concatenation and records match the manifest |
| `AuditExport.ValidateJsonl` | src/sdai/audit_export.py:73-93 | accepts exactly LF-terminated canonical records in the stated number |
| `LedgerTerms.JsonlMeans` | src/sdai/audit_export.py:73-93 | bytes are accepted as JSONL exactly when they are the canonical texts, each with its newline, of the announced number of JSON values |
| `AuditExport.CutChunks` | src/sdai/audit_export.py:343-356 | the slicing loop produces the pieces of the data with their descriptors |
| `AuditExport.BuildPackage` | src/sdai/audit_export.py:312-366 | building equals the verify, export, verify again procedure on the three states it reads |
| `LedgerTerms.PackageMeans` | src/sdai/audit_export.py:312-366 | a built package names feature, chunk size, length, event count, head and digests of the verified ledger, and chunk j is the j-th stretch of the exported bytes, under its number, offset, length and digest |
| `LedgerTerms.ManifestFields` | src/sdai/audit_export.py:150-208 | which field of a manifest its text holds under which name |
| `LedgerTerms.ManifestRead` | src/sdai/audit_export.py:248-279 | a manifest is read only from its version with exactly its names, its sizes and digests as written and the right number of chunks |
| `AuditExportProofs.PiecesReassemble` | src/sdai/audit_export.py:343-356 | concatenation restores the bytes; every chunk but the last is full and none is empty |
| `AuditExportProofs.PieceCount` | src/sdai/audit_export.py:343-356 | there are ceil(n / size) chunks |
| `AuditExportProofs.ChunkNamesDistinct` | src/sdai/audit_export.py:343-356 | no two chunks share a name, and none is called like the manifest |
| `AuditExportProofs.AcceptedIsCanonicalJsonl` | src/sdai/audit_export.py:73-93 | every accepted ledger passes the export's JSONL validation with its own event count |
| `AuditExportProofs.PackagedSame` | src/sdai/audit_export.py:312-366 | packaging a stable accepted file always succeeds and always validates |
| `AuditExportProofs.PackagedInRun` | src/sdai/audit_export.py:312-366 | during any run a package exists exactly when size, snapshots and export are fine; it then holds one real ledger state, and the digest mismatch branch is never taken |
| `AuditExportProofs.ManifestRoundTrip` | src/sdai/audit_export.py:207-279 | reading the text of a valid manifest gives the manifest |
| `AuditExportProofs.ToJsonInjective` | src/sdai/audit_export.py:202-209 | different valid manifests have different texts |
| `AuditExportProofs.SameExportIdOrCollision` | src/sdai/audit_export.py:64-71 | two accepted packages with one export id hold the same bytes, however they are cut, for one feature, head digest and event count, or exhibit a collision of their identities or of their bytes |
| `AuditSinks.LoadsIff` | src/sdai/audit_sinks.py:261-291 | a directory loads as a package exactly when it is that good package's own directory, file for file |
| `LedgerTerms.DirectoryMeans` | src/sdai/audit_sinks.py:261-291 | a package's own directory holds its manifest's text and each chunk under its name, and nothing else |
| `AuditSinks.ConfirmsIff` | src/sdai/audit_sinks.py:261-297 | an existing export is confirmed exactly when its directory is the expected package's |
| `AuditSinks.Destination.WriteExclusive` | src/sdai/audit_sinks.py:98-122 | an existing name or a missing directory is refused and nothing changes; a new file gets all its bytes, or a prefix when the space runs out |
| `AuditSinks.Destination.RemoveStaging` | src/sdai/audit_sinks.py:124-135 | exactly that staging directory disappears |
| `AuditSinks.Destination.WriteFiles` | src/sdai/audit_sinks.py:316-319 | on success the staging directory is the package's directory; nothing else changes |
| `AuditSinks.Destination.StageAndPublish` | src/sdai/audit_sinks.py:307-341 | both staging directories are gone at the end, and the complete package stands at the final path exactly when there was room for every byte |
| `AuditSinks.Destination.Handoff` | src/sdai/audit_sinks.py:299-341 | outcome and directory tree of one handoff in every case: invalid, present and equal, present and different, room or no room |
| `AuditSinks.ReceiptBinds` | src/sdai/audit_sinks.py:344-353 | a receipt that verifies for another package means equal manifests, or exhibits a collision |
| `LedgerTerms.ReceiptMeans` | src/sdai/audit_sinks.py:344-353 | a receipt verifies exactly for its own sink and for a package with its export identity, manifest digest and chunk digests |
| `SinkProtocol.StepKeepsInv` | src/sdai/audit_sinks.py:299-341 | every step of any number of concurrent handoffs keeps the invariant, and published directories never change |
| `SinkProtocol.OnePublisherStep` | src/sdai/audit_sinks.py:299-341 | only a rename to an absent path makes a publisher, so at most one handoff of an export is accepted |
| `SinkProtocol.PublicationSafety` | src/sdai/audit_sinks.py:250-341 | after any run with failures and crashes a final path is absent or complete, each receipt matches what stands there, and no export was accepted twice |
| `SoloRuns.SoloHandoff` | src/sdai/audit_sinks.py:299-341 | the steps of the protocol do what the sequential handoff does: for every good package, tree and room, a run of one writer's steps leaves the same directories and returns the same receipt |
| `SoloRuns.LostRace` | src/sdai/audit_sinks.py:320-341 | a handoff that finds the export published when it is about to rename removes its staging and gives a receipt exactly if the same package stands there |
| `SinkProtocol.DeliveryDescribesLedger` | src/sdai/audit_sinks.py:356-396 | a delivery that passes its checks describes one unchanged ledger state, and its bytes are the ledger's or collide with them |
| `SinkProtocol.DeliveryMeans` | src/sdai/audit_sinks.py:367-396 | the checks around a delivery pass exactly when the ledger is the feature's and verifies as the manifest says, before and after, unchanged |
| `ArtifactGraphs.TopologicalOrder` | src/sdai/artifact_schemas.py:612-645 | succeeds exactly on resolved acyclic graphs, with a topological order; otherwise names a really missing dependency or a genuine cycle; order and cycle are those of the depth-first search in ascending id order |
| `ArtifactGraphs.Sorter.Visit` | src/sdai/artifact_schemas.py:627-641 | visiting an artifact extends the result and restores the path, or returns a genuine cycle, exactly as the ascending depth-first search does |
| `ArtifactGraphs.Sorter.VisitAll` | src/sdai/artifact_schemas.py:637-638 | the loop over the sorted dependencies does the same for each of them |
| `ArtifactGraphs.Sorter.Finish` | src/sdai/artifact_schemas.py:639-641 | an artifact whose dependencies are visited joins the result and leaves the path |
| `ArtifactGraphs.TopologicalIsAcyclic` | src/sdai/artifact_schemas.py:612-645 | a graph with a topological order has no cycle and no missing dependency |
| `ArtifactGraphs.SortKeeps` | src/sdai/artifact_schemas.py:637 | sorting dependency ids keeps exactly the same ids |
| `ArtifactGraphs.SortSorts` | src/sdai/artifact_schemas.py:637 | and leaves them in ascending order |
| `ArtifactSchemas.ParseManifest` | src/sdai/artifact_schemas.py:307-415 | the parsing loop returns the first fault of a file, repeated artifacts included |
| `ArtifactSchemas.LoadGraph` | src/sdai/artifact_schemas.py:648-699 | loading succeeds exactly when every overlay merges and the result is resolved and acyclic; otherwise with the error that reading file by file meets first |
| `SchemaTerms.LoadsIff` | src/sdai/artifact_schemas.py:503-699 | the overlays load exactly when each has legal fields for its layer, which has not spoken about the artifact before, does not touch a locked definition, disables nothing the organization requires, and otherwise leaves the artifact with path and type, required where it must be, and with all demanded dependencies |
| `SchemaTerms.LoadErrorMeans` | src/sdai/artifact_schemas.py:503-699 | otherwise loading reports the first overlay at which one of these fails, with that failure's error |
| `SchemaTerms.ParseCheckMeans` | src/sdai/artifact_schemas.py:307-415 | which fields are legal on which layer, and which error an illegal one gives: authority, a dependency on itself, or a malformed value |
| `SchemaTerms.StandsAs` | src/sdai/artifact_schemas.py:503-699 | what stands in the loaded graph is exactly what the overlays since the last disabling say |
| `ArtifactSchemas.ManifestsAreOverlays` | src/sdai/artifact_schemas.py:661-691 | parsing each file whole before merging it changes neither whether loading succeeds nor its result |
| `ArtifactSchemas.MergeHonours` | src/sdai/artifact_schemas.py:503-609 | one merge never drops what the organization mandates |
| `ArtifactSchemas.HonoursStep` | src/sdai/artifact_schemas.py:678-691 | loading one more overlay keeps all mandates honoured |
| `ArtifactSchemas.MandatesOfOverlays` | src/sdai/artifact_schemas.py:678-681 | the accumulated mandate is exactly what the organization overlays said |
| `ArtifactSchemas.OrganizationAuthority` | src/sdai/artifact_schemas.py:648-699 | in every graph that loads, organization-required artifacts are present and required, and organization dependencies are kept and resolved, even after disabling and adding again |
| `ArtifactSchemas.LayersAddUp` | src/sdai/artifact_schemas.py:503-699 | an artifact is in the graph exactly when some overlay spoke about it since it was last disabled, and each field has the last value given since, else its default |
| `ArtifactSchemas.LockedIsFinal` | src/sdai/artifact_schemas.py:503-609 | a definition once locked is identical in the final graph |
| `ArtifactSchemas.OneVoicePerLayer` | src/sdai/artifact_schemas.py:669-676 | no layer overlays one artifact twice |
| `ArtifactFreshness.ActiveGraph` | src/sdai/artifact_state.py:617-641 | the worklist stops at exactly the artifacts that a root of the risk reaches, in an order that is still topological |
| `ArtifactFreshness.Closure` | src/sdai/artifact_state.py:622-631 | the worklist loop terminates in the least dependency-closed set |
| `ArtifactFreshness.AddDependencies` | src/sdai/artifact_state.py:628-631 | the dependencies of one artifact join the set and the queue, and nothing inactive does |
| `ArtifactFreshness.FilterTopological` | src/sdai/artifact_state.py:636-641 | a dependency-closed part of a topological order is topological |
| `ArtifactEvaluation.CheckContents` | src/sdai/artifact_state.py:659-674 | the first loop raises exactly when some path cannot be rendered, some content is undecodable or of the wrong form, or some record does not load |
| `ArtifactEvaluation.EvaluateOne` | src/sdai/artifact_state.py:676-774 | one artifact's state from its dependencies' states, and its reasons: each reason is given exactly for its cause |
| `ArtifactEvaluation.EvaluateStates` | src/sdai/artifact_state.py:644-782 | the single pass computes every artifact's state and gives each reason exactly for its cause, or raises exactly when a path, a content, a record or a bound evidence source cannot be used; every lookup of a dependency's state succeeds |
| `ArtifactEvaluation.RecordReasons` | src/sdai/artifact_state.py:706-753 | there is no reason exactly when the record matches and no dependency is stale; path, definition, content, dependency and evidence reasons are given exactly when that part of the record is out of date |
| `ArtifactEvaluation.RecordReasonsMean` | src/sdai/artifact_state.py:706-753 | the meaning of each reason over the fields of the record and the files, a deleted evidence source included |
| `ArtifactTerms.FreshMeans` | src/sdai/artifact_state.py:676-774 | fresh exactly when everything reached is up to date: content, and a record whose path, definition hash, content hash, dependency hashes and every evidence source's hash are those of the files |
| `ArtifactTerms.EvidenceMatters` | src/sdai/artifact_state.py:587-614 | a record with an evidence source that is missing or has another hash is never fresh |
| `ArtifactTerms.StateMeans` | src/sdai/artifact_state.py:676-774 | the state of an artifact over files, records and what it reaches: missing content, a missing dependency, everything reached up to date, or stale |
| `ArtifactTerms.EvaluableMeans` | src/sdai/artifact_state.py:659-674 | an artifact can be evaluated exactly when its path renders, what stands there has its form, its record loads, and the record's evidence sources can be hashed |
| `ArtifactTerms.PathRenders` | src/sdai/artifact_state.py:282-302 | for every path template made of text and slots: it renders exactly without a domain slot or with a domain given, each slot replaced and everything else kept; the record is kept per domain exactly where the template has the slot |
| `ArtifactTerms.ContentMeans` | src/sdai/artifact_state.py:345-370 | the hash that counts is that of the file or directory at the rendered path, and nothing else |
| `ArtifactEvaluation.GoneIff` | src/sdai/artifact_state.py:686-705 | missing or blocked exactly when a missing artifact can be reached |
| `ArtifactEvaluation.BlockedIff` | src/sdai/artifact_state.py:686-705 | blocked exactly when the artifact has content and a missing one can be reached; missing exactly without content |
| `ArtifactEvaluation.FreshIff` | src/sdai/artifact_state.py:659-774 | fresh exactly when the artifact and all its transitive dependencies have content and a matching record |
| `ArtifactEvaluation.ExactInvalidation` | src/sdai/artifact_state.py:676-774 | from all-fresh, any edits and deletions of artifacts and evidence sources make exactly the described artifacts missing, blocked and stale; restoring restores |
| `ArtifactRecording.BindEvidence` | src/sdai/artifact_state.py:805-836 | the binding loop refuses exactly repeats, unusable inputs and missing sources, and returns the rest, none added or dropped, in strictly ascending order |
| `ArtifactTerms.BindMeans` | src/sdai/artifact_state.py:785-836 | binding refuses exactly an input of unknown kind, without identity, or with a source that is illegal, missing or unusable, and two inputs that mean one kind and identity; otherwise each input gives its own binding with the source's hash |
| `ArtifactRecording.SortEvidenceSorts` | src/sdai/artifact_state.py:834-836 | the final sort orders bindings by kind, id and source |
| `ArtifactRecording.RecordState` | src/sdai/artifact_state.py:868-954 | recording succeeds exactly when artifact, dependencies and evidence allow it, and writes exactly one record |
| `ArtifactTerms.RecordedMeans` | src/sdai/artifact_state.py:868-954 | recording writes one record, with the artifact's path, definition and content hashes, exactly its dependencies' content hashes, and the bound evidence in order; every other record and every file stays |
| `ArtifactRecording.CurrentIsGood` | src/sdai/artifact_state.py:905-954 | the record just written matches its artifact |
| `ArtifactRecording.RecordedGood` | src/sdai/artifact_state.py:868-954 | recording changes for no other artifact whether its record matches |
| `ArtifactRecording.RecordingOnlyImproves` | src/sdai/artifact_state.py:868-954 | the recorded artifact is fresh; any other state stays, or a stale dependent becomes fresh |
| `ArtifactRecording.RecordingAllFreshensAll` | src/sdai/artifact_state.py:868-954 | with all content present and usable, recording in topological order never fails and ends all fresh and evaluable |
| `DirectoryHash.HashDirectory` | src/sdai/artifact_state.py:315-342 | the loop refuses symlinks and otherwise digests the framing of the regular files in path order |
| `DirectoryHash.UnframeFrame` | src/sdai/artifact_state.py:315-342 | decoding inverts the length-prefixed framing for all file lists with lengths below 2^64 |
| `DirectoryHash.SamePreimageIff` | src/sdai/artifact_state.py:315-342 | two directories share a pre-image exactly when they hold the same paths with the same bytes |
| `DirectoryHash.SameHashOrCollision` | src/sdai/artifact_state.py:315-342 | equal directory hashes mean equal files, or exhibit a collision |
| `FactAttributes.FrozenOnce` | src/sdai/architecture_drift.py:178-205 | valid attributes are accepted when a fact is built, and thawing what the fact keeps gives them back |
| `FactAttributes.FrozenTwice` | src/sdai/architecture_drift.py:178-205 | what a fact keeps is accepted again, as building a finding requires, exactly when no attribute is or holds a mapping |
| `FactAttributes.AttributesDumpable` | src/sdai/architecture_security_drift.py:123-132 | copying a fact's attributes through JSON works exactly when no attribute is or holds a mapping |
| `JsonTerms.ValidJsonMeans` | src/sdai/architecture_drift.py:120-173 | JSON is within the limits exactly with at most 500,000 values, none deeper than 32 levels, and without a non-finite number or an empty name on any path |
| `DriftTerms.NestedMeans` | src/sdai/architecture_drift.py:178-205 | attributes cannot be taken over exactly when some path into them leads to a mapping |
| `ArchitectureDrift.MergeProvenance` | src/sdai/architecture_security_drift.py:135-158 | each location of the input once, with the first-ranked of its competing records |
| `ArchitectureDrift.MergesUnique` | src/sdai/architecture_security_drift.py:135-158 | which records survive does not depend on the order of the input |
| `DriftTerms.MergedMeans` | src/sdai/architecture_security_drift.py:135-158 | of several records of one line the one with the least digest and then the least detail is kept, each line once |
| `ArchitectureDrift.StrictProvenance` | src/sdai/architecture_drift.py:424-447 | refuses exactly conflicting records of one location, otherwise keeps all |
| `ArchitectureDrift.ObservedGroups` | src/sdai/architecture_drift.py:977-992 | refuses exactly repeated observers and observations whose body exceeds the limits on JSON, otherwise groups every observed fact under its key |
| `ArchitectureDrift.DeclaredFacts` | src/sdai/architecture_drift.py:1007-1041 | one finding for each required fact not observed and each forbidden fact observed, in fact order, with all the places where it was observed; it refuses exactly disputed provenance and such a fact with a nested mapping |
| `ArchitectureDrift.UndeclaredFacts` | src/sdai/architecture_drift.py:1043-1070 | one finding for each observed key without approved fact, in key order, with every place of that key once; it refuses exactly such a key with disputed provenance or whose first fact has a nested mapping |
| `ArchitectureDrift.CompareArchitecture` | src/sdai/architecture_drift.py:995-1077 | the findings are the differences between truth and observations, each reported once and in order; it refuses exactly repeated observers, observations beyond the limits on JSON, disputed provenance, and a difference whose fact has a nested mapping |
| `ArchitectureDrift.DifferencesCover` | src/sdai/architecture_drift.py:995-1077 | every finding has the cause that its code names, and every difference is reported |
| `ArchitectureDrift.NoDifferencesIff` | src/sdai/architecture_drift.py:995-1077 | no finding exactly when all required facts are observed, no forbidden one is, and every observed one is declared |
| `DriftTerms.ConformsMeans` | src/sdai/architecture_drift.py:995-1077 | conformance said over kinds, ends, attributes and modes of the facts |
| `DriftTerms.DriftMeans` | src/sdai/architecture_drift.py:1007-1041 | a finding about an approved fact has its kind, ends and id, and either no observation agrees with it and it is required, or it is forbidden and the finding has exactly the places where it was seen |
| `DriftTerms.UnexpectedMeans` | src/sdai/architecture_drift.py:1043-1070 | a finding about an undeclared fact has the kind and ends of one observed, which agrees with no approved fact, and exactly the places where it was seen |
| `ObservationBodies.BodyNodes` | src/sdai/architecture_drift.py:120-173 | the number of values that the limit counts in an observation's body is five more than the sum over its facts |
| `ObservationBodies.ModestHashable` | src/sdai/architecture_drift.py:120-173 | where no fact's attributes break a limit on their own, an observation can be digested exactly when its body has at most 500,000 values |
| `DriftTerms.HashableMeans` | src/sdai/architecture_drift.py:120-173 | an observation can be digested exactly when its facts together have at most 499,995 values and no attribute value is nested deeper than 29 levels, non-finite, not text, or under an empty name |
| `DriftTerms.ObservedFields` | src/sdai/architecture_drift.py:757-765 | what the digested body of an observed fact holds under which name |
| `ObservationBodies.SchemaUnreportable` | src/sdai/architecture_drift.py:878-897 | a contract fact with a mapping for its schema that is accepted, digested and undisputed, and that the comparison refuses all the same |
| `TrustBoundary.ReadBoundaryFacts` | src/sdai/architecture_security_drift.py:188-271 | the first loop refuses exactly malformed boundary facts, with the failure of the first of them, and collects memberships and rules |
| `TrustBoundary.SettleMemberships` | src/sdai/architecture_security_drift.py:273-287 | refuses exactly subjects with two zones or descriptions, otherwise one membership a subject |
| `TrustBoundary.ParseTopology` | src/sdai/architecture_security_drift.py:188-304 | accepts exactly the sound topologies, names the failure of the first malformed fact or else an ambiguity, and returns memberships and rules |
| `SecurityTerms.BoundaryFactMeans` | src/sdai/architecture_security_drift.py:188-271 | which boundary facts are valid, field by field |
| `SecurityTerms.SoundMeans` | src/sdai/architecture_security_drift.py:273-304 | valid boundary facts make a sound topology exactly when no subject is declared in two ways and every gateway is a member of its rule's target zone |
| `SecurityTerms.RulesMean` | src/sdai/architecture_security_drift.py:221-271 | the rules are read off the boundary-rule facts field by field |
| `TrustCrossings.ZoneForIff` | src/sdai/architecture_security_drift.py:360-376 | the lookup through both dictionaries finds a zone exactly when the subject is outside, a member, or owned by a member |
| `SecurityTerms.ZoneMeans` | src/sdai/architecture_security_drift.py:360-376 | the zone of a subject said over the facts: outside, declared, or that of the owner of its data |
| `TrustCrossings.OwnershipMap` | src/sdai/architecture_security_drift.py:325-338 | refuses exactly ambiguous ownership, otherwise maps each subject to its owner |
| `TrustCrossings.ResolveEdges` | src/sdai/architecture_security_drift.py:416-533 | every considered edge becomes a missing-zone finding, an edge inside a zone, or a crossing, and nothing else does; it fails exactly on a fact with a nested mapping or unusable evidence, in the way the first of them does |
| `SecurityTerms.EdgeMeans` | src/sdai/architecture_security_drift.py:470-533 | which edge each kind of observed fact stands for, inbound traffic turned around |
| `SecurityTerms.EvidenceMeans` | src/sdai/architecture_security_drift.py:470-533 | which observed facts are usable evidence |
| `SecurityTerms.LostMeans` | src/sdai/architecture_security_drift.py:416-453 | a missing-zone finding has the ends and evidence of its edge and names the first end without a zone |
| `TrustCrossings.MergedTwice` | src/sdai/architecture_security_drift.py:535-567 | merging merged provenance keeps every location of the evidence with its first-ranked record |
| `TrustCrossings.MergeCrossings` | src/sdai/architecture_security_drift.py:535-567 | merging drops no route, repeats none and loses no evidence location |
| `TrustCrossings.DeriveCrossings` | src/sdai/architecture_security_drift.py:406-567 | when and how derivation fails, and what crossings and missing-zone findings it returns otherwise |
| `TrustEvaluation.ControlAttestations` | src/sdai/architecture_security_drift.py:341-357 | fails exactly on a boundary fact with a nested mapping or a malformed attestation, in the way the first of them does, otherwise collects all attestations |
| `SecurityTerms.AttestationsMean` | src/sdai/architecture_security_drift.py:341-357 | which observed facts attest which control for which target |
| `SecurityTerms.AttestableMeans` | src/sdai/architecture_security_drift.py:341-357 | which observed facts the loop can read |
| `TrustEvaluation.MediatedIff` | src/sdai/architecture_security_drift.py:640-727 | the staged checks together are mediation by every matching rule |
| `SecurityTerms.MediatedMeans` | src/sdai/architecture_security_drift.py:570-581 | mediation said over the fields of rules and edge: some rule agrees in zones, evidence, direction and, where it has them, protocol and access, and every rule that does allows the crossing, names no other gateway, permits its data and has its control attested |
| `SecurityTerms.OtherRulesDoNotMatter` | src/sdai/architecture_security_drift.py:570-581 | a rule that differs in one of these fields can be added or removed without changing mediation |
| `SecurityTerms.WitnessedMeans` | src/sdai/architecture_security_drift.py:777-802 | a required rule is witnessed exactly by a crossing that agrees in these fields and leads into its gateway |
| `SecurityTerms.ForbiddenMeans` | src/sdai/architecture_security_drift.py:641-654 | a forbidden crossing is blamed on the first rule about it that forbids it |
| `SecurityTerms.PermittedMeans` | src/sdai/architecture_security_drift.py:656-727 | gateway, data and control findings are made only where a rule about the crossing allows it and none forbids it, in this order of precedence |
| `SecurityTerms.GatewayBypassMeans` | src/sdai/architecture_security_drift.py:661-688 | a bypass names the gateway of a rule about the crossing and blames the first rule that has one |
| `SecurityTerms.SensitiveMeans` | src/sdai/architecture_security_drift.py:690-706 | a data finding is about a sensitive target and blames the first rule that does not permit its data |
| `SecurityTerms.ControlMissingMeans` | src/sdai/architecture_security_drift.py:708-726 | exactly the required and unattested controls are named, in order, and the first of them is blamed |
| `SecurityTerms.UnruledMeans` | src/sdai/architecture_security_drift.py:729-775 | without a rule about the crossing, the direction is blamed if a rule agrees in all else, then exposure to the outside, then the missing approval |
| `SecurityTerms.ConflictMeans` | src/sdai/architecture_security_drift.py:661-668 | gateways conflict exactly when two rules about a permitted crossing name different ones |
| `TrustEvaluation.JudgeCrossing` | src/sdai/architecture_security_drift.py:640-775 | one crossing: a refusal exactly on conflicting gateways or on missing controls whose names do not fit into a finding, no finding exactly when mediated, otherwise the verdict with the right code, rule and controls |
| `TrustEvaluation.UnspeakableIff` | src/sdai/architecture_security_drift.py:707-725 | whether the finding about missing controls can be made is decided by the missing controls alone |
| `SecurityTerms.MessageMeans` | src/sdai/architecture_security_drift.py:707-726 | the finding can be made exactly when its 65 characters, the names and two characters between any two of them are at most 4096 |
| `TrustEvaluation.JudgePermitted` | src/sdai/architecture_security_drift.py:656-727 | the branch with a permissive rule: gateway, then data, then controls and the length of their message |
| `TrustEvaluation.VerdictMeansUnmediated` | src/sdai/architecture_security_drift.py:638-775 | a finding is never given to a mediated crossing |
| `TrustEvaluation.VerdictUnique` | src/sdai/architecture_security_drift.py:638-775 | the verdict on a crossing is determined down to rule and named controls |
| `TrustEvaluation.SortedAscends` | src/sdai/architecture_security_drift.py:708-709 | sorted sets are strictly ascending |
| `TrustSecurity.JudgeCrossings` | src/sdai/architecture_security_drift.py:638-775 | one verdict for each unmediated crossing in order, or the refusal of the first crossing with conflicting gateways or unspeakable controls |
| `TrustSecurity.JudgementsUnique` | src/sdai/architecture_security_drift.py:638-775 | there is only one list of verdicts |
| `TrustSecurity.RequiredRules` | src/sdai/architecture_security_drift.py:777-802 | one finding for each required rule that no crossing along its dimensions and into its gateway witnesses |
| `SecurityTerms.MissingMeans` | src/sdai/architecture_security_drift.py:777-802 | the finding about an unwitnessed rule has its zones and its id |
| `TrustSecurity.CrossingsCoverEdges` | src/sdai/architecture_security_drift.py:535-567 | judging merged crossings is judging every edge |
| `TrustSecurity.CompleteMediation` | src/sdai/architecture_security_drift.py:406-804 | no security finding exactly when every considered edge has both zones and is mediated and every required rule is witnessed, said of the inputs alone |
| `TrustSecurity.AddingForbidden` | src/sdai/architecture_security_drift.py:632-655 | adding a forbidden rule anywhere never clears a flagged edge |
| `TrustSecurity.RulesStaySorted` | src/sdai/architecture_security_drift.py:304 | rules read from facts in id order are in id order |
| `DerivedFacts.RoutesApart` | src/sdai/architecture_security_drift.py:96-116 | different routes between two endpoints derive different facts |
| `SecurityTerms.DerivedFactMeans` | src/sdai/architecture_security_drift.py:96-116 | a derived fact holds its crossing's ends, zones, evidence, direction, and protocol, access and sensitivity where there are any, and nothing else |
| `DerivedFacts.EvidenceIsFirstRanked` | src/sdai/architecture_security_drift.py:535-567 | the provenance of a derived fact is exactly the first-ranked evidence for its route, said of the inputs alone |
| `DerivedFacts.DerivedSizeUnique` | src/sdai/architecture_security_drift.py:841-845 | however the derived facts and their evidence are listed, the observation that carries them has one size |
| `DerivedFacts.TooLargeIff` | src/sdai/architecture_security_drift.py:841-845 | whether the derived observation can be digested is decided by topology and observations alone |
| `DerivedFacts.UnreportableIff` | src/sdai/architecture_security_drift.py:841-846 | without nested evidence, the comparison meets an unreportable difference exactly when an approved fact with a nested mapping drifts |
| `DerivedFacts.IncomparableIff` | src/sdai/architecture_security_drift.py:841-845 | everything that makes the comparison with the derived facts refuse (too many, too large, disputed, unreportable) is decided by topology and observations alone |
| `DerivedFacts.DerivedNeverDispute` | src/sdai/architecture_security_drift.py:839-845 | unless two different facts of the evaluation share a semantic key, derived facts never dispute each other: the comparison is disputed exactly when the observations already are, or one of them states a derived fact with a rival record of a location |
| `TrustReport.CheckObservations` | src/sdai/architecture_security_drift.py:307-318 | refuses exactly repeated observers, the reserved observer of the derived facts, and observations beyond the limits on JSON |
| `TrustReport.EvaluateSecurity` | src/sdai/architecture_security_drift.py:833-859 | refuses exactly on inputs that cannot be judged or compared; otherwise the report is the other differences, the lost edges, the verdicts and the unwitnessed rules of one derivation, and has no boundary finding exactly under complete mediation |
| `TrustReport.ReportMediation` | src/sdai/architecture_security_drift.py:833-859 | a report has no boundary finding exactly when every considered edge has both zones and is mediated and every required rule is witnessed |
| `TrustReport.OthersAreDifferences` | src/sdai/architecture_security_drift.py:850-858 | unless facts of different kinds share a semantic key, adding derived facts and dropping boundary findings changes nothing for the other kinds: every such finding has its cause among the inputs, and every such difference is reported |
| `SecurityRefusals.NestedEvidenceRefused` | src/sdai/architecture_security_drift.py:471-472 | an observed fact of no security relevance, valid in every respect, on which the evaluation ends in a type error |
| `SecurityRefusals.SixteenControlsRefused` | src/sdai/architecture_security_drift.py:707-725 | a sound topology and a valid observation where sixteen unattested controls make the evaluation refuse |
| `SecurityRefusals.FifteenControlsFit` | src/sdai/architecture_security_drift.py:707-725 | up to fifteen missing controls of a sound topology never do |
| `Masking.ScanMasks` | src/sdai/architecture_data_observer.py:163-238 | any scanner made of kept and blanked tokens keeps length, every kept character, and every newline in place |
| `Masking.ScanAt` | src/sdai/architecture_dependency_observer.py:240-291 | what a scan leaves at a position is decided by whether the token there is kept |
| `Masking.ScanTwice` | src/sdai/architecture_data_observer.py:163-238 | masking twice is masking once, for any scanner whose kept tokens do not depend on what is blanked behind them |
| `Masking.MaskKeepsLines` | src/sdai/architecture_data_observer.py:163-258 | every position of a masked text has as many newlines before it as it had |
| `LineNumbers.PositionInLine` | src/sdai/architecture_dependency_observer.py:294-297 | numbering by line ends is what enumerating splitlines does: every position off the line ends is in the line its number names |
| `LineNumbers.LineSurvivesIff` | src/sdai/architecture_dependency_observer.py:240-297 | in any masked text a position keeps its splitlines number exactly when no line end but the CR of a CRLF was blanked before it |
| `LineNumbers.StrippedLinesIff` | src/sdai/architecture_dependency_observer.py:240-297 | a text keeps all its line numbers under comment stripping exactly when every line end in its comments is a newline or the CR before one |
| `LineNumbers.LineMovesUp` | src/sdai/architecture_dependency_observer.py:240-297 | a concrete text whose identifier moves from line 2 to line 1 |
| `CommentScanners.StripCFamily` | src/sdai/architecture_dependency_observer.py:240-291 | the scanning loop computes the reference lexer of comments and strings |
| `CommentScanners.StripCTwice` | src/sdai/architecture_dependency_observer.py:240-291 | C-family stripping keeps positions and newlines and is idempotent |
| `CommentTerms.CString` | src/sdai/architecture_dependency_observer.py:240-291 | a quoted string is kept to its closing quote or the end of the text, escapes and comment marks in it included |
| `CommentTerms.CLineComment` | src/sdai/architecture_dependency_observer.py:240-291 | a line comment is blanked up to its newline, which stays |
| `CommentTerms.CBlockComment` | src/sdai/architecture_dependency_observer.py:240-291 | a block comment is blanked up to its first end or the end of the text, newlines kept |
| `CommentTerms.CKeeps` | src/sdai/architecture_dependency_observer.py:240-291 | any other character is kept |
| `CommentScanners.StripHcl` | src/sdai/architecture_deployment_observer.py:616-666 | the HCL loop computes its reference lexer |
| `CommentScanners.StripHclTwice` | src/sdai/architecture_deployment_observer.py:616-666 | HCL stripping keeps positions and newlines and is idempotent |
| `CommentTerms.HclString` | src/sdai/architecture_deployment_observer.py:616-666 | a quoted string is kept to its closing quote or the end of the text |
| `CommentTerms.HclLineComment` | src/sdai/architecture_deployment_observer.py:616-666 | hash and double-slash comments are blanked up to their newline |
| `CommentTerms.HclBlockComment` | src/sdai/architecture_deployment_observer.py:616-666 | a block comment is blanked up to its first end or the end of the text, newlines kept |
| `CommentTerms.HclKeeps` | src/sdai/architecture_deployment_observer.py:616-666 | any other character is kept |
| `SqlScanner.MaskSql` | src/sdai/architecture_data_observer.py:163-238 | the SQL loop computes its reference lexer, dollar quotes included |
| `SqlScanner.MaskSqlTwice` | src/sdai/architecture_data_observer.py:163-238 | SQL masking keeps positions and newlines and is idempotent |
| `LexerTerms.SqlDollarQuote` | src/sdai/architecture_data_observer.py:188-224 | for every legal name, empty included, a dollar quote is blanked from its tag to the next same tag, or to the end of the text |
| `LexerTerms.SqlLiteral` | src/sdai/architecture_data_observer.py:183-238 | a quoted literal with its doubled quotes is blanked to its closing quote or the end of the text |
| `LexerTerms.SqlLineComment` | src/sdai/architecture_data_observer.py:173-206 | a line comment is blanked up to its newline, which stays |
| `LexerTerms.SqlBlockComment` | src/sdai/architecture_data_observer.py:178-215 | a block comment is blanked up to its first end or the end of the text, newlines kept |
| `LexerTerms.SqlKeeps` | src/sdai/architecture_data_observer.py:172-198 | any other character of code is kept |
| `SqlScanner.TagMasked` | src/sdai/architecture_data_observer.py:188-195 | a dollar tag that shows through a mask was a tag of the text |
| `SqlScanner.SqlStatements` | src/sdai/architecture_data_observer.py:241-258 | the result is the non-blank pieces between unquoted semicolons, each with the original line on which its piece starts |
| `SqlScanner.SplitUnique` | src/sdai/architecture_data_observer.py:241-258 | a text splits at its semicolons in one way only, so the statements are determined |
| `SqlScanner.StatementLineIff` | src/sdai/architecture_data_observer.py:241-258 | the reported line is the statement's own exactly when the text has no newline between the previous semicolon and the first character of the statement |
| `SqlScanner.SecondStatementLine` | src/sdai/architecture_data_observer.py:241-258 | a concrete text where the second statement is reported one line too early |
| `HclResources.MatchingBrace` | src/sdai/architecture_deployment_observer.py:669-691 | returns the first brace outside strings that brings the depth back to zero, or none exists |
| `CommentTerms.BraceCounts` | src/sdai/architecture_deployment_observer.py:669-691 | outside strings an opening brace adds one, a closing brace takes one, any other character nothing |
| `CommentTerms.StringDoesNotCount` | src/sdai/architecture_deployment_observer.py:669-691 | a quoted string counts for nothing, whatever braces and escapes it holds |
| `HclResources.BlockBalanced` | src/sdai/architecture_deployment_observer.py:669-691 | what lies between matched braces is balanced outside strings |
| `HclResources.IsOpening` | src/sdai/architecture_deployment_observer.py:703-704 | the brace found from the start of a header is the header's own |
| `HclResources.ReadBlock` | src/sdai/architecture_deployment_observer.py:700-708 | one header gives its block with the original line number, or its braces never match |
| `CommentTerms.HeaderMeans` | src/sdai/architecture_deployment_observer.py:694-704 | what a resource header is, said over literal text, and the two names it gives |
| `HclResources.TfResources` | src/sdai/architecture_deployment_observer.py:694-711 | the blocks are disjoint, in order, balanced, with original line numbers, and no header is skipped; refusal means one block too many, or that the first header after those blocks never closes |
| `HclResources.ExtractionUnique` | src/sdai/architecture_deployment_observer.py:694-711 | resources and refusal are determined by the text |

## Left out

- SHA-256, timestamp parsing, `casefold`, float `repr` and `str()`: parameters, see above; Python's recursion limit and its limit on digits in integers are not modelled.
- `json.loads` on bytes also accepts UTF-16 and UTF-32; manifests are read as UTF-8 here.
- AuditEvents.Create and AuditEvents.FromMapping: which of the record error codes is raised is not modelled, only that one is.
- Paths, symlink checks, `fsync`, file permissions and platform flags: the file system is bytes and maps with exclusive creation, prefix writes and atomic rename; the lock file itself is not modelled, only which agent holds which lock.
- LedgerProtocol.StepKeepsInv: a step is one system call on shared state; the operating system's guarantee that a lock is released when its process dies is part of the step relation.
- LedgerRuns.LockFreeReaderSeesCommitted: the unlocked read of the whole file is one atomic look at it; a read that the operating system splits into several calls while an append goes on is not modelled.
- LedgerRuns.ReportIsOneState: a report is its events and snapshot; report bodies, selectors and relationship summaries only reformat the events and are left out.
- AuditSinks.ReceiptBinds: receipt ids are derived fields and are not modelled; the registry of sinks is left out.
- Schema manifests as YAML, path portability rules, `_external_paths` and layer file discovery: files arrive as lists of typed entries, in the order they are read.
- ArtifactSchemas: an artifact's contribution history and its description fields are left out; organization dependencies are a set, their order in serialized output is not modelled.
- ArtifactGraphs.TopologicalOrder: which missing dependency is named follows dictionary order in the source and is any genuine one here.
- ArtifactEvaluation.EvaluateStates: which of the error codes is raised is not modelled; that a record or an evidence source cannot be read is part of the given world, and how a record is parsed is left out.
- ArtifactFreshness: evidence sources are a map of their own beside artifact contents and records; an edit of a file that is both is a change of both. State records are keyed by artifact and domain, not by file name.
- DirectoryHash.UnframeFrame: lengths of 2^64 and more, on which the length prefix cannot be written, are excluded.
- ArchitectureDrift: facts arrive as their constructors accept them, each observation and the list of observations sorted; the final sort of findings, observations and provenance, finding messages, severities and attributes beyond the named subject, gateway and controls; the semantic key is a parameter, so facts are compared by key.
- ArchitectureDrift.MergeProvenance: an absent digest or detail is the empty text, which a present one never is.
- TrustCrossings.MergeCrossings: routes come in order of first observation instead of sorted order, which the report's own sort hides.
- TrustReport.EvaluateSecurity: which of the error codes is raised is not stated; deriving the boundary facts without evaluating them, which refuses when an edge is lost, is left out.
- DerivedFacts.DerivedNeverDispute: the semantic key, in the source a digest of the fact's four fields, is a parameter; that no two different facts among those approved, observed and derived share a key is a hypothesis.
- TrustBoundary.ParseTopology: facts arrive validated and sorted by unique id, as the topology's constructor leaves them; loading and approval of the topology file are left out.
- HclResources.TfResources: the word-character test of the header's word boundary is a parameter; deployment facts built from resource bodies are left out.
- SqlScanner.SqlStatements: recognition of SQL commands by regular expression is left out.
- Regular-expression observers (HTTP routes, ORM mappings, imports), Python `ast` walking, OpenAPI, AsyncAPI, JSON Schema and protobuf comparison, Kubernetes and Compose readers: library behaviour or parts without a sharp law.
- Command line, printing, human-readable reports, completion barrier, convergence, orchestration, trace graph, policy merges and the condition language: user interface, parts whose state lives elsewhere, or easy members.
