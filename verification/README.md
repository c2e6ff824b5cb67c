# Harness memory: a verified model

A Dafny model of the stateful and algorithmic core of the harness memory service, with proofs of what
its documentation and comments promise. `dafny verify dfyconfig.toml` checks everything.

| files | what they model |
|---|---|
| `HookRequests`, `HookProtocol`, `HookFencing`, `HookProcesses`, `HookFairness` | background dispatch: immutable request files, one exclusively created lock file as a lease, detached workers that serve, retire and hand off |
| `NativeCleanup`, `NativeCleanupClaims`, `NativeCleanupSaga` | removal of native transcripts: rename to a claim, check against the preview, then restore or delete |
| `ReferenceClosure`, `Payloads`, `HardDelete`, `HardDeleteScope`, `HardDeleteRun`, `WriteAheadLog` | erasure of a scope: reference closure, deletion, a second closure as verification, durable receipts |
| `ProcessedCleanup`, `ProcessedCleanupScope`, `ProcessedCleanupRun` | cleanup of processed sources, which keeps governed truth |
| `TranscriptChunking`, `TranscriptReconstruction` | lossless chunking and its inverse |
| `RelationPaths`, `RelationPathResults`, `RelationPathOrder` | bounded relation tracing |
| `MarkdownEscape`, `LexicographicOrder`, `OutlineRenderer`, `OutlineReader`, `OutlineOrder` | the knowledge outline, and a reader for it |
| `PrivateText`, `PrivateSpans`, `PrivateRedaction`, `PrivateTrees`, `CaptureLines` | redaction of private spans in text, decoded JSON and JSONL captures |
| `ContextBudget`, `ContextReceipt` | the budgeted context projection and its receipt |
| `Wrappers`, `Sequences`, `StableSort` | optional values, lists without repetition, the built-in stable sort |

Code that works step by step is modelled by methods and classes whose contracts tie the new state to the
old one or to a specification function; the properties are proved about those functions, or as invariants
of the classes. A transition system stands for the processes of the dispatch protocol, and the sequential
methods of `HookProcesses.Process` are shown to produce its runs while other processes move between any
two of their file operations. I/O, clocks, host activity and failures are parameters or arbitrary choices.

Where the code does something other than its documentation or the obvious reading says, the model
follows the code and a lemma shows the case:

- a newline-mode chunk may be one character longer than `max_chars` (`TranscriptChunking.ChunkSizes`);
- the hard-delete plan for a session *together with* a source does not follow the session id, its
  verification does, so verification can fail although the plan was carried out
  (`HardDelete.CombinedScopeDisagrees`); for an empty session id without a revision it takes every record
  that lacks a session id in one of its places for one of that session (`EmptySessionDisagrees`, `EmptySessionExactly`). The
  exact condition for any scope is in `DeletionAndVerificationAgree`;
- a worker that cannot be spawned can leave its request waiting for the next hook
  (`HookProtocol.FailedSpawnStrands`; `StepAwakeIff` says exactly which faults strand work, and
  `NextHookWakes` what ends that);
- the lease is checked once, before the unlinks: a worker that loses its lock after the check still
  removes files under the new lock (`HookProtocol.TakeoverBreaksTheFence`);
- a lease is the generation of a request, and a finishing worker creates the next lock for whatever
  request is next, so a lease can come back: a worker that was superseded while at work then passes the
  check and releases the lock of the worker that serves its own request
  (`HookFencing.HandOffRevivesLease`). `HookFencing.StepGuardedIff` gives the exact steps that endanger
  the fence, and in all runs without them a superseded worker removes and releases nothing;
- an application that gives up after the primary check restores the primary claim only: companion claims
  left by an earlier, interrupted application stay where they are and the result does not report them
  (`NativeCleanupSaga.CompanionStaysBehind`). Undisturbed, this happens exactly if the primary object is
  there and does not match (`NativeCleanupClaims.QuietEnd`, in the contract of `Apply`); started without
  claims, an application leaves none (`LeftStanding`, `FullyRestored`);
- module paths deeper than five labels cannot be told apart in the outline (`OutlineReader.DeepPathsCollide`);
- an empty entity name is no filter in relation listings, so a trace from or through it need not be a
  chain (`RelationPathResults.EmptyNameIsNotChained`; `ChainedExactly` and `TracedChainedExactly` say for
  which queries it is).

## Model

| member | source | states |
|---|---|---|
| `HookRequests.Choose` | harness_mem/hook_background.py:119-162 | the request returned is the last one of the eligible session whose earliest request waits longest; nothing is returned exactly when no session is eligible |
| `HookRequests.Worker.Load` | harness_mem/hook_background.py:119-162 | the same choice, and the snapshot kept for the returned generation is the set of its session's files; a generation loaded before keeps its first snapshot |
| `HookRequests.ReadySessions` | harness_mem/hook_background.py:137-149 | one pass over the files finds exactly the sessions whose last request has waited 30 seconds or was cancelled by a later user turn |
| `HookRequests.Extreme` | harness_mem/hook_background.py:154-158 | min and max by (requested_at, generation), whatever the order of the listing |
| `HookRequests.IdleWindowRespected` | harness_mem/hook_background.py:137-149 | a request served out of an idle window is the newest of its session, and 30 seconds old or cancelled |
| `HookRequests.ServedIsUnique` | harness_mem/hook_background.py:152-162 | queue and eligible sessions determine the served request |
| `HookRequests.OrderIsTotal` | harness_mem/hook_background.py:252-253 | the request order is total, asymmetric and transitive |
| `HookRequests.SessionsAreConversations` | harness_mem/hook_background.py:256-261 | two requests share a session if and only if they have the same source and the same trigger id, which is not empty and not one of the three adapter defaults |
| `HookRequests.SnapshotIsConversation` | harness_mem/hook_background.py:154-161 | what is taken along with a request is exactly what is pending of its conversation |
| `HookRequests.OldestConversationFirst` | harness_mem/hook_background.py:152-158 | the request served is the newest of its conversation, and that conversation holds the request that has waited longest among those that compete, by time and then by generation |
| `HookRequests.WhoCompetes` | harness_mem/hook_background.py:137-149 | out of an idle window, exactly the conversations whose newest request is 30 seconds old or was followed by a user turn in that conversation; otherwise all |
| `HookProtocol.NoLostWakeup` | harness_mem/hook_background.py:72-116 | in every reachable state of any number of processes, as long as no fault strands work (runs without a crash or a failed spawn are among those): a lock has a live process responsible for it, and a queue without a lock has a live process about to act on it |
| `HookProtocol.StepAwakeIff` | harness_mem/hook_background.py:100-111 | one step takes that away if and only if it is the crash of the only process responsible for the lock or about to act on a waiting queue, or a failed spawn with requests waiting and nobody else about to act on them; takeovers are harmless |
| `HookProtocol.QuiescentMeansServed` | harness_mem/hook_background.py:288-334 | when every process is done and no fault stranded work, no request and no lock is left |
| `HookProtocol.FailedSpawnStrands` | harness_mem/hook_background.py:106-111 | such a fault: a spawn failure leaves the request with nobody to serve it |
| `HookProtocol.RetirementIsSafe` | harness_mem/hook_background.py:303-319 | over all runs, also with crashes and takeovers: a request disappears only through a retirement whose list was taken after the request was written, by the same session, for a served request ordered no earlier; so what arrives after the listing survives, whatever its timestamp |
| `HookProtocol.RetiredWithItsConversation` | harness_mem/hook_background.py:256-261 | in every run, a request removed while another one was served has the same source and the same real trigger id as that one; a request without a usable identity is removed only when it was itself served |
| `HookProtocol.LoadTakesItsConversation` | harness_mem/hook_background.py:154-161 | in every run, a request loaded for the first time takes along exactly what is pending of its conversation |
| `HookProtocol.StepExclusiveIff` | harness_mem/hook_background.py:425-445 | one step keeps at most one process relying on the lock if and only if it does not reclaim the lock of a live process; what the lease check protects beyond that is in HookFencing |
| `HookProtocol.OneWorkerPerProject` | harness_mem/hook_background.py:414-422 | in every run without such a takeover, one process at a time relies on the lock, and each file is removed while the lock carries the lease of the remover |
| `HookProtocol.TakeoverBreaksTheFence` | harness_mem/hook_background.py:425-438 | a run in which a slow worker removes its file under a later request's lock |
| `HookFencing.StepGuardedIff` | harness_mem/hook_background.py:301-318 | the guard (whoever retires files owns the lock, and nobody shares the lease that is in it) survives a step if and only if the step is none of these: an unlink as stale or after a failed spawn while somebody is between lease check and release, or the creation of a lock for a generation that a live process still holds as its lease |
| `HookFencing.RemovalsAreFenced` | harness_mem/hook_background.py:303-318 | in every run without such a step, with any number of takeovers of workers at work, each file is removed while the lock carries the lease of its remover, and each worker releases only its own lock |
| `HookFencing.SupersededDoesNothing` | harness_mem/hook_background.py:301-302 | from the moment a worker lost its lock, it only loads, finds its lease lost, or crashes: it removes no file and leaves the lock alone, whatever comes after |
| `HookFencing.ExclusiveIsGuarded` | harness_mem/hook_background.py:414-422 | runs without takeovers are a special case |
| `HookFencing.HandOffRevivesLease` | harness_mem/hook_background.py:319-334 | why lock creation is in that list: a run in which a hand-off creates a lock with the lease of a superseded worker, which then passes the check and releases it, leaving a worker without a lock and its request pending |
| `HookProcesses.Process.DispatchPostTurn` | harness_mem/hook_background.py:72-116 | the request is persisted first; then come only lock steps, and a spawn exactly if the lock was acquired; every interleaving is a protocol run |
| `HookProcesses.Process.AcquireLock` | harness_mem/hook_background.py:425-445 | exclusive creation, staleness probe, unlink and second creation as separate steps; true exactly when this process now holds the lock |
| `HookProcesses.Process.LoadBackgroundRequest` | harness_mem/hook_background.py:119-162 | a load is one protocol step whose request becomes current and has a snapshot; an empty result changes nothing |
| `HookProcesses.Process.FinishBackgroundWorker` | harness_mem/hook_background.py:288-334 | either the lease did not match and nothing was touched, or files are retired, then the lock is released, and only then the queue is listed and competed for |
| `HookProcesses.Process.HandOff` | harness_mem/hook_background.py:319-334 | an empty queue ends the worker; otherwise it competes for the lock on behalf of the next request, and true means a worker was spawned |
| `HookProcesses.EveryInterleavingIsSafe` | harness_mem/hook_background.py:288-334 | whatever the environment does between the file operations of these methods, the protocol's guarantees hold |
| `HookFairness.LoadPaysOff` | harness_mem/hook_background.py:152-162 | whatever a worker loads while a request waits, fresh or with a list kept from before, its list holds a request ordered no later than the waiting one |
| `HookFairness.StepKeepsDebt` | harness_mem/hook_background.py:288-334 | no step of any process adds to the serves a waiting request may still have to see, and every release of the lock pays one off |
| `HookFairness.OvertakingIsBounded` | harness_mem/hook_background.py:119-162 | in every run without takeovers of live locks and with later arrivals ordered later, a waiting request is gone after as many serves as there were requests ahead of it, its own, and one by a worker already at work; crashes and failed spawns included |
| `NativeCleanup.ManifestFixesContent` | harness_mem/native_source_cleanup.py:865-922 | equal manifests mean the same entries with the same file contents, at every path inside |
| `NativeCleanup.ManifestExactly` | harness_mem/native_source_cleanup.py:865-922 | a manifest records kind, size, time and, for files, digest of the object and of every entry inside, and there is none of an object of the wrong kind or with a link inside |
| `NativeCleanup.PrimaryActionIndex` | harness_mem/native_source_cleanup.py:753-765 | the first action that is, or is a directory around, the verification path |
| `NativeCleanup.FirstCovering` | harness_mem/native_source_cleanup.py:753-765 | no earlier action covers the verification path, and None means none does |
| `NativeCleanupClaims.PrimaryIsFirst` | harness_mem/native_source_cleanup.py:753-765 | a plan has a primary action if and only if the target of some action is the verification path or a directory strictly around it, and the first such action is the primary one |
| `NativeCleanupSaga.Saga.Interfere` | harness_mem/native_source_cleanup.py:394-402 | between file operations the host may change all original names and write into the claims that are still open to it, each unless it is said to keep quiet there, but cannot move claims; what it writes into claims is an event of the history, and nothing else is; the process may stop |
| `NativeCleanupSaga.Saga.ClaimAction` | harness_mem/native_source_cleanup.py:776-788 | taken: the claim stands and the original name is free; absent: neither exists; failed: nothing changed |
| `NativeCleanupSaga.Saga.Claim` | harness_mem/native_source_cleanup.py:787-787 | the rename moves the object to a free claim name, so nothing is overwritten |
| `NativeCleanupSaga.Saga.Restore` | harness_mem/native_source_cleanup.py:933-936 | the rename back, onto a free original name |
| `NativeCleanupSaga.Saga.RestoreClaims` | harness_mem/native_source_cleanup.py:925-937 | without a reported conflict exactly the given claims are gone again; claims outside the list stay; whatever a claim held it still holds, or was renamed back unchanged, or was written to by the host, also when the host takes original names into use again |
| `NativeCleanupClaims.NothingIsLost` | harness_mem/native_source_cleanup.py:925-937 | in any orderly history, in which the host may also write into claims: what a claim holds at any moment it holds at the end, unless it was renamed back as it was, or it was (what was left of) an object with the previewed manifest when it or something of it was removed, or the host made something else of it |
| `NativeCleanupClaims.RemovedAsPreviewed` | harness_mem/native_source_cleanup.py:541-575 | every removal in an orderly history takes, out of what the claim holds at that moment, a file with the previewed size, time and digest, a previewed directory inside a claimed one, or an emptied claimed directory, and takes the primary object only when no other claim stands |
| `NativeCleanupClaims.PrimaryHeldTheSource` | harness_mem/native_source_cleanup.py:802-821 | for every removal of or in the primary object, the object verified held at the verification path a file with the digest and the modification time of the plan |
| `NativeCleanupClaims.ClaimedGoesBack` | harness_mem/native_source_cleanup.py:489-534 | an object claimed in an application that removed nothing was renamed back as it was, or stands at its claim as it was and more claims stand than before, or the host wrote into it |
| `NativeCleanupSaga.Saga.SourceMismatch` | harness_mem/native_source_cleanup.py:802-821 | no mismatch means the claimed source is a regular file with the previewed digest and modification time; unless an operation raises, the reason is the exact one |
| `NativeCleanupClaims.ChangedSourceIsReported` | harness_mem/native_source_cleanup.py:802-821 | a source file that differs from the plan in digest or time is reported as changed, and only such a one; no regular file there is reported as that |
| `NativeCleanupSaga.Saga.ActionMismatch` | harness_mem/native_source_cleanup.py:840-852 | no mismatch means the claimed object has exactly the previewed manifest |
| `NativeCleanupSaga.Saga.FinalMismatch` | harness_mem/native_source_cleanup.py:522-530 | no mismatch means all claims match at the same time; while the check is under way the host may still write into claims whose own check has not begun |
| `NativeCleanupSaga.Saga.Preflight` | harness_mem/native_source_cleanup.py:940-965 | no reason exactly when every present target and claim is of its kind, free of links, and not both are present |
| `NativeCleanupClaims.ProblemsExactly` | harness_mem/native_source_cleanup.py:940-965 | a link, at the top or anywhere in a directory, and an object of the other kind are each rejected as such |
| `NativeCleanupSaga.Saga.TakePrimary` | harness_mem/native_source_cleanup.py:458-500 | either the primary object is claimed and has the previewed digest, modification time and manifest, or it is back and the reason reported; companion claims of an earlier application are left alone |
| `NativeCleanupSaga.Saga.TakeCompanions` | harness_mem/native_source_cleanup.py:502-507 | if nothing failed, the claims of the plan that stand are exactly those collected |
| `NativeCleanupSaga.Saga.DeleteClaim` | harness_mem/native_source_cleanup.py:562-575 | removes one verified claim, a directory entry by entry; whatever happens no other claim changes |
| `NativeCleanupSaga.Saga.DeleteClaims` | harness_mem/native_source_cleanup.py:541-575 | companions first, and the primary claim only when all of them are gone; success leaves no claim |
| `NativeCleanupSaga.Saga.CheckAndDelete` | harness_mem/native_source_cleanup.py:522-600 | deletes only after the check of all claims; otherwise restores, with nothing removed and every claimed object renamed back unchanged, still at its claim, or written to by the host; a reported mismatch leaves no claim |
| `NativeCleanupSaga.Saga.Apply` | harness_mem/native_source_cleanup.py:394-600 | after any number of applications, stops and host interference the history of claims, restores, removals and host writes is orderly and yields exactly what the claims hold, so everything ever removed was at that moment what the plan previewed, the primary object with its digest and after its companions. Short of deletion nothing is removed, and every object claimed is renamed back unchanged, or stands unchanged at its claim and the conflict is reported, or was written to by a host that is not said to keep quiet there. The plan is refused for want of an action exactly if no target is the verification path or a directory around it. A settled refusal adds no claim, and after a mismatch leaves either none or all companion claims of earlier applications; undisturbed, the latter exactly if the primary object does not match, and then with the reason for it. Left alone, a matching plan is carried through however often it is stopped |
| `NativeCleanupSaga.CompanionStaysBehind` | harness_mem/native_source_cleanup.py:489-500 | the unreported companion claim: from this state every application that is not stopped reports the mismatch of the primary object and leaves the claim |
| `NativeCleanupClaims.EffectOnPlan` | harness_mem/native_source_cleanup.py:776-788 | claiming keeps a plan that can be carried through, and never makes a target stand under both names |
| `NativeCleanupClaims.ClaimingKeepsResumable` | harness_mem/native_source_cleanup.py:776-788 | claiming one object keeps a plan that can be carried through |
| `NativeCleanupClaims.DroppingKeepsResumable` | harness_mem/native_source_cleanup.py:562-575 | so does deleting a companion claim |
| `NativeCleanupClaims.FullyRestored` | harness_mem/native_source_cleanup.py:489-497 | with no claims before and after, what was not lost is under its original name again |
| `NativeCleanupClaims.SoundIsClear` | harness_mem/native_source_cleanup.py:940-965 | an object with the previewed manifest passes preflight |
| `ReferenceClosure.Saturate` | harness_mem/data_lifecycle.py:603-634 | the fixpoint loop ends, with the least selection that holds the preselection and is closed under direct linkage and references to linked ids |
| `ReferenceClosure.LeastIsUnique` | harness_mem/data_lifecycle.py:603-634 | so the order of collections and records does not matter |
| `ReferenceClosure.LeastIsReachable` | harness_mem/data_lifecycle.py:603-634 | a record is selected exactly when a reference chain leads to it from a directly linked record or a preselected id |
| `ReferenceClosure.NothingLeftToSelect` | harness_mem/data_lifecycle.py:862-879 | a second closure over the survivors, seeded with no more than the first plus the deleted ids, selects nothing |
| `Payloads.ReferencesAreFields` | harness_mem/data_lifecycle.py:637-697 | the ids found by the recursive visit are those of identifier fields at any depth, and only those |
| `Payloads.TextsExactly` | harness_mem/data_lifecycle.py:614-615 | a text stands for itself; what is missing, null, empty or false reads as the empty text |
| `Payloads.LookupExactly` | harness_mem/data_lifecycle.py:614-615 | the value under a name is that of the field with that name, and null without one |
| `HardDelete.LinkedStructuredRecords` | harness_mem/data_lifecycle.py:578-634 | returns that least selection for the records of one project |
| `HardDelete.PlanHardDelete` | harness_mem/data_lifecycle.py:51-159 | an invalid scope is refused; otherwise the plan holds the scope's revisions, jobs and observations and the least closure over the records |
| `HardDelete.VerifyHardDelete` | harness_mem/data_lifecycle.py:777-879 | counts what remains of the old plan and of a fresh one, with the closure seeded again from both |
| `HardDelete.EraseKeepsTheRest` | harness_mem/data_lifecycle.py:346-357 | erasing the planned keys removes exactly the records with those keys |
| `HardDelete.NothingLeftToPlan` | harness_mem/data_lifecycle.py:777-879 | after the deletion a fresh plan finds no revision, session, job or observation |
| `HardDelete.SurvivorsStayUnlinked` | harness_mem/data_lifecycle.py:777-879 | and no surviving record is linked again |
| `HardDelete.DeletionAndVerificationAgree` | harness_mem/data_lifecycle.py:777-879 | deleting exactly the plan passes the verification if and only if no surviving record of the project names the scope's session by its id alone |
| `HardDelete.WholeSessionAgrees` | harness_mem/data_lifecycle.py:80-84 | for a session alone, or without a session, verification always passes; an empty session id needs a revision of that session for this |
| `HardDelete.EmptySessionExactly` | harness_mem/data_lifecycle.py:846-850 | without one, it passes if and only if no record of the project lacks a session id in one of the places where one may stand |
| `HardDelete.EmptySessionDisagrees` | harness_mem/data_lifecycle.py:846-850 | a store with one record, without a session id, for which it fails |
| `HardDelete.CombinedScopeDisagrees` | harness_mem/data_lifecycle.py:846-850 | for a session together with a source it fails for a record that names the session: the plan does not follow the session id, the verification does |
| `HardDeleteScope.SparingIsIsolation` | harness_mem/storage/transcript_store.py:1126-1150 | with unique keys, whatever spares what the plan does not name leaves alone every revision that misses one of the given restrictions (project, session, source, captured before), the jobs over such revisions, all observations of other projects or tied to no revision in scope, and all records of other projects |
| `HardDeleteScope.PlanIsComplete` | harness_mem/data_lifecycle.py:51-159 | carrying out the plan leaves no revision that meets all restrictions, no job over one, no observation of the project tied to one, and no record of the project that names, in an identifier field at any depth, a job, observation or record that is gone |
| `HardDeleteScope.ErasedIsTied` | harness_mem/data_lifecycle.py:578-634 | a record goes only if it mentions the id of a job or observation of the scope, of a session to be erased as a whole, or of another record that goes |
| `HardDeleteScope.DirectlyTiedGoes` | harness_mem/data_lifecycle.py:578-634 | a record of the project that names a job or observation of the scope, or a session to be erased as a whole, in one of the direct places goes; an empty session id counts if the ledger has a revision in scope |
| `HardDeleteScope.CleanMeansGone` | harness_mem/data_lifecycle.py:777-879 | over any store, a verification that finds nothing means that nothing planned and nothing in scope is left |
| `WriteAheadLog.PrefixDisciplined` | harness_mem/data_lifecycle.py:250-259 | a crash leaves a prefix of the log, still without a removal ahead of a durable receipt and without success that no clean verification precedes |
| `HardDeleteRun.Backend.DeletePlanned` | harness_mem/data_lifecycle.py:346-371 | without an exception the store is exactly the erased one; with one, a receipt in progress is durable |
| `HardDeleteRun.Backend.Attempt` | harness_mem/data_lifecycle.py:318-405 | the receipt becomes succeeded exactly when verification found nothing, over exactly the erased store |
| `HardDeleteRun.Backend.Run` | harness_mem/data_lifecycle.py:162-457 | no removal before a durable in-progress receipt, even when a delete or a save raises; success is returned exactly when a succeeded receipt is durable, and then the verification found nothing; without faults it is returned exactly when no survivor names the session and no native source is kept; whatever raises, everything outside the scope is still there, and without faults nothing of the scope is |
| `ProcessedCleanup.JudgementIsExact` | harness_mem/processed_source_cleanup.py:467-493 | with unique ids the first loop sorts exactly the job's candidates, each by its own status, whatever the order of collections |
| `ProcessedCleanup.PlanStructuredCleanup` | harness_mem/processed_source_cleanup.py:447-544 | the plan: truth kept, rejected candidates and the least closure of auxiliary records deleted, unresolved candidates blocking |
| `ProcessedCleanup.KindsAreDisjoint` | harness_mem/processed_source_cleanup.py:458-544 | retained, deleted and blocking records are pairwise disjoint, and no retained id is one that deletion spreads from |
| `ProcessedCleanup.AuxiliaryDeletedByChain` | harness_mem/processed_source_cleanup.py:512-544 | an auxiliary record is deleted exactly when a chain of auxiliary records leads from it to a match, the job, an observation or a rejected candidate |
| `ProcessedCleanup.TruthDoesNotSpread` | harness_mem/processed_source_cleanup.py:512-544 | a record that refers only to retained truth survives |
| `ProcessedCleanupScope.MatchesExactly` | harness_mem/processed_source_cleanup.py:853-927 | a record is taken for evidence if and only if it names the job, its source, its revision together with that source, or one of that revision's observations, or a session that belongs to that source alone |
| `ProcessedCleanupScope.EvidenceFate` | harness_mem/processed_source_cleanup.py:447-544 | evidence goes if it is auxiliary or rejected, stays if it is truth or confirmed, and blocks otherwise |
| `ProcessedCleanupScope.DerivedTruthIsKept` | harness_mem/processed_source_cleanup.py:495-512 | a confirmed record derived from an output of the job or from governed evidence stays |
| `ProcessedCleanupScope.OthersAreLeftAlone` | harness_mem/processed_source_cleanup.py:447-544 | a record that is neither evidence nor output of the job, derives from none of its candidates and refers to nothing that goes is neither deleted nor retained nor blocking: evidence of another revision, or of another source in a shared session, survives |
| `ProcessedCleanupScope.OtherProjectsAreLeftAlone` | harness_mem/processed_source_cleanup.py:475-476 | whatever is planned belongs to the project of the job |
| `ProcessedCleanupRun.Backend.Begin` | harness_mem/processed_source_cleanup.py:744-790 | true exactly when the in-progress receipt is durable, for a completed job only; otherwise nothing happened |
| `ProcessedCleanupRun.Backend.SanitizeTruth` | harness_mem/processed_source_cleanup.py:547-612 | retained truth loses its raw provenance and nothing else changes |
| `ProcessedCleanupRun.Backend.DeleteObservations` | harness_mem/processed_source_cleanup.py:374-388 | an observation of another revision is never deleted |
| `ProcessedCleanupRun.Backend.VerifyCleanup` | harness_mem/processed_source_cleanup.py:615-648 | the counts are all zero exactly if nothing to be deleted is left and all retained truth is there without raw provenance |
| `ProcessedCleanupRun.Backend.FinishFailure` | harness_mem/processed_source_cleanup.py:670-711 | a failure never becomes a success, whichever of its two writes raises |
| `ProcessedCleanupRun.Backend.CleanupProcessedSource` | harness_mem/processed_source_cleanup.py:177-444 | success exactly with a succeeded receipt, and only over a store verified clean against the plan of the planner; blocked or natively unfinished jobs remove nothing; jobs that are not there or not completed, and receipts that are not in progress, change nothing; retained truth is there on every exit |
| `ProcessedCleanupRun.Backend.PlanIsDisjoint` | harness_mem/processed_source_cleanup.py:458-544 | what the run deletes and what it must keep are disjoint, for the plan the planner made |
| `ProcessedCleanupRun.Backend.Retry` | harness_mem/processed_source_cleanup.py:57-174 | the native source is touched only behind a durable receipt; a source that must stay gets no receipt, and an unsupported one is not touched and only gets its outcome recorded; success again means a verified clean store |
| `TranscriptChunking.ValidationIsExact` | harness_mem/transcript_chunking.py:203-228 | units are accepted exactly when they partition the transcript under distinct ids |
| `TranscriptChunking.ValidateLogicalUnits` | harness_mem/transcript_chunking.py:203-228 | the loop reports the first problem, or none |
| `TranscriptChunking.ComplaintIsFirst` | harness_mem/transcript_chunking.py:203-228 | a complaint is about the first unit that breaks a rule, and names the first rule it breaks |
| `TranscriptChunking.ChunkTranscriptText` | harness_mem/transcript_chunking.py:75-200 | every error and empty case, and otherwise exactly the chunks of the greedy cut |
| `TranscriptChunking.CutEnd` | harness_mem/transcript_chunking.py:121-169 | every cut is past its start and within the transcript |
| `TranscriptChunking.CutAtUnits` | harness_mem/transcript_chunking.py:121-157 | the logical-unit branch of the loop computes that cut |
| `TranscriptChunking.CutAtNewline` | harness_mem/transcript_chunking.py:158-168 | so does the newline branch |
| `TranscriptChunking.ChunksTile` | harness_mem/transcript_chunking.py:106-200 | the chunks are consecutive, gapless slices of the whole transcript, numbered from zero |
| `TranscriptChunking.ChunkSizes` | harness_mem/transcript_chunking.py:107-169 | a chunk exceeds the limit only in newline mode, by one character, and exactly when the character just past the limit is a newline |
| `TranscriptChunking.NewlineCuts` | harness_mem/transcript_chunking.py:158-166 | without units, a chunk takes the rest if it fits, else ends behind the last newline after its first character and up to just past the limit, else at the limit; strategy and boundary flags say which |
| `TranscriptChunking.UnitCuts` | harness_mem/transcript_chunking.py:121-157 | with units, a chunk ends at the last unit end within the limit, else at the limit; strategy and boundary flags say which |
| `TranscriptChunking.ChunksNameTheirUnits` | harness_mem/transcript_chunking.py:121-157 | a chunk names exactly the units it overlaps, and its continuation flags say exactly whether it starts or ends inside one |
| `TranscriptChunking.CutsOnlyOversizedUnits` | harness_mem/transcript_chunking.py:121-145 | a cut falls inside a unit only if that unit alone exceeds the limit |
| `TranscriptChunking.FittingUnitsStayWhole` | harness_mem/transcript_chunking.py:121-145 | every unit within the limit lies in one chunk |
| `TranscriptChunking.GreedyStaysAhead` | harness_mem/transcript_chunking.py:121-145 | from any unit on, no grouping of whole units that starts no later needs fewer groups |
| `TranscriptChunking.GreedyIsOptimal` | harness_mem/transcript_chunking.py:121-145 | when all units fit, the number of chunks is the minimum over all groupings of consecutive whole units |
| `TranscriptChunking.AppendStable` | harness_mem/transcript_chunking.py:106-169 | extending a transcript leaves range and content of every chunk but the last unchanged |
| `TranscriptReconstruction.ReconstructTranscript` | harness_mem/transcript_chunking.py:231-264 | the loop accepts or refuses as specified, with the first problem in index order |
| `TranscriptReconstruction.AcceptanceIsTiling` | harness_mem/transcript_chunking.py:231-264 | a result is accepted exactly when the sorted chunks tile it, each slice equal to its chunk, and the expected digest matches |
| `TranscriptReconstruction.RefusalIsFirst` | harness_mem/transcript_chunking.py:231-264 | a refusal is about the first chunk in index order that does not continue those before it, and names the first thing wrong with it, or the digest of the whole |
| `TranscriptReconstruction.RoundTrip` | harness_mem/transcript_chunking.py:75-264 | any permutation of the chunks of a transcript, in either mode, reconstructs exactly that transcript |
| `RelationPaths.ListingIsSound` | harness_mem/storage/structured_store_truth.py:376-430 | a listed fact is a readable row that passes the entity and type filters |
| `RelationPaths.ListingIsComplete` | harness_mem/storage/structured_store_truth.py:376-430 | and every such row is listed if no more than the limit are selected |
| `RelationPaths.TraceRelationPaths` | harness_mem/read_api.py:247-304 | the depth errors, and otherwise the first `limit` walks in level order, sorted by path score; the loop ends because paths grow or the queue shrinks |
| `RelationPaths.Visit` | harness_mem/read_api.py:289-302 | appends the continuations of one path up to the limit and queues each that may be extended |
| `RelationPaths.Continuations` | harness_mem/read_api.py:273-288 | filters by confidence and unseen targets, best first |
| `RelationPaths.LevelIsExact` | harness_mem/read_api.py:271-302 | a level of the enumeration holds exactly the paths of that length |
| `RelationPaths.UpToIsExact` | harness_mem/read_api.py:271-302 | what is enumerated is exactly the simple, filtered walks from the source of depth 1 to the limit |
| `RelationPathResults.TracedAreWalks` | harness_mem/read_api.py:264-304 | every result is such a walk, and there are at most `limit` |
| `RelationPathResults.TracedOnce` | harness_mem/read_api.py:264-304 | no path is returned twice |
| `RelationPathResults.DroppedOnlyForShallower` | harness_mem/read_api.py:291-303 | a walk is left out only when the limit is used up by paths that are no deeper |
| `RelationPathResults.AllWalksReturned` | harness_mem/read_api.py:264-304 | when there are at most `limit` walks, all are returned |
| `RelationPathResults.TracedSorted` | harness_mem/read_api.py:303-304 | results are ordered by path score |
| `RelationPathResults.WalksAreSimple` | harness_mem/read_api.py:279-282 | a walk never returns to an entity |
| `RelationPathResults.ChainedExactly` | harness_mem/storage/structured_store_truth.py:403-408 | all walks within the depth limit join up if and only if none, short of that limit, ends at the empty name with somebody else's fact to continue it |
| `RelationPathResults.TracedChainedExactly` | harness_mem/read_api.py:264-304 | the same for the paths returned, if there are no more than `limit` walks to return |
| `RelationPathResults.NamedWalksAreChained` | harness_mem/read_api.py:264-304 | from a named source, over readable facts with named targets, every walk joins up |
| `RelationPathResults.EmptyNameIsNotChained` | harness_mem/storage/structured_store_truth.py:403-408 | a trace from the empty name that returns another entity's fact |
| `RelationPathResults.ListingsComplete` | harness_mem/read_api.py:273-279 | when no entity on the way has more rows than a listing returns, walks range over all readable facts |
| `RelationPathOrder.ListingExactly` | harness_mem/storage/structured_store_truth.py:402-429 | a fact is listed if and only if its row is readable and among the first `limit` rows that pass the filters |
| `RelationPathOrder.WalkExactly` | harness_mem/read_api.py:271-302 | a path is a walk if and only if each of its facts is listed for the entity reached before it, meets the confidence bar, and leads to an entity not on the path so far |
| `RelationPathOrder.BetterWalksAreKept` | harness_mem/read_api.py:282-304 | when the limit cuts paths off, the better ones stay: a walk that parts from a returned one of its depth with a strictly better fact is returned too |
| `MarkdownEscape.EscapeIsOnePass` | harness_mem/knowledge_renderer.py:11-17 | the four replacements in a row escape each special character exactly once |
| `MarkdownEscape.ReadsBack` | harness_mem/knowledge_renderer.py:11-17 | unescaping inverts them on every string, and stops at the first star that was not escaped |
| `OutlineRenderer.RenderKnowledgeMarkdown` | harness_mem/knowledge_renderer.py:51-117 | the two errors exactly, and otherwise the lines of the specification |
| `OutlineRenderer.Group` | harness_mem/knowledge_renderer.py:76-78 | groups by module path, in order of first appearance and keeping entry order |
| `OutlineRenderer.RenderHeadings` | harness_mem/knowledge_renderer.py:92-104 | headings for the labels not shared with the previous module, one joined heading from the sixth label on |
| `OutlineReader.BodyReads` | harness_mem/knowledge_renderer.py:80-116 | a heading-stack reader finds every printed entry under its module, if no path is printed after one of its extensions |
| `OutlineReader.NotBelow` | harness_mem/knowledge_renderer.py:82-85 | the case-folded sort puts a path before everything below it |
| `OutlineReader.RoundTrip` | harness_mem/knowledge_renderer.py:51-117 | from the text alone every entry is recovered exactly once under its own module path, if and only if no path is deeper than five labels |
| `OutlineReader.DeepPathsCollide` | harness_mem/knowledge_renderer.py:95-102 | beyond that, different paths are printed alike, so no reader could tell |
| `OutlineReader.OrderDoesNotMatter` | harness_mem/knowledge_renderer.py:69-116 | the outline does not depend on the order of the entries given |
| `OutlineOrder.OutlineIsOrdered` | harness_mem/knowledge_renderer.py:20-26 | entries are read back in order: modules by folded path, and the entries of a module by folded title, then by folded statement |
| `OutlineOrder.TitleNamesProject` | harness_mem/knowledge_renderer.py:81-81 | the first line is a first-level heading that reads back as the project name with the fixed suffix |
| `OutlineOrder.BodyBlank` | harness_mem/knowledge_renderer.py:92-104 | every heading stands behind an empty line |
| `PrivateText.RedactionIsComplete` | harness_mem/capture_policy.py:25-25 | after one pass no private span is left, not even one made up of what stood around the redacted ones |
| `PrivateText.CleanIsUntouched` | harness_mem/capture_policy.py:103-106 | the count is zero exactly when there is no span, and then nothing changes |
| `PrivateText.SecondPassChangesNothing` | harness_mem/capture_policy.py:103-106 | a second pass counts zero and changes nothing |
| `PrivateText.FirstSpanIsReplaced` | harness_mem/capture_policy.py:103-106 | the leftmost span is replaced as a whole, text before it stays, and the count goes up by one |
| `PrivateText.OpenerBeforeSpan` | harness_mem/capture_policy.py:25-25 | an opening tag with a whole span behind it opens a span itself |
| `PrivateSpans.SpanExactly` | harness_mem/capture_policy.py:25-25 | a span is, character by character, an opening tag with a word boundary and up to its first bracket, and then everything up to the end of the earliest closing tag behind it |
| `PrivateSpans.CleanExactly` | harness_mem/capture_policy.py:25-25 | a text is clean if and only if no such span begins at any position |
| `PrivateSpans.RedactionMarksSpans` | harness_mem/capture_policy.py:103-106 | redaction puts the marker in the place of the spans, found from left to right, keeps all other text in order, and counts them |
| `PrivateSpans.SpansExist` | harness_mem/capture_policy.py:103-106 | every text has such a list of spans |
| `PrivateRedaction.RedactCaptureValue` | harness_mem/capture_policy.py:192-248 | the first problem on the way through the tree, or the tree with every string and name redacted and the number of spans |
| `PrivateRedaction.ProblemIsExact` | harness_mem/capture_policy.py:192-248 | there is no problem exactly for trees of depth at most 64, without refused fields, and without names of one object that redaction makes equal |
| `PrivateRedaction.RedactObject` | harness_mem/capture_policy.py:222-239 | the loop over the fields, with ambiguous names refused |
| `PrivateRedaction.RedactedTreeIsClean` | harness_mem/capture_policy.py:192-248 | no string or name anywhere in the result holds a span |
| `PrivateRedaction.CleanTreeIsUntouched` | harness_mem/capture_policy.py:192-248 | the count is zero exactly for clean trees, which stay as they are |
| `PrivateRedaction.SecondWalkChangesNothing` | harness_mem/capture_policy.py:192-248 | a second walk counts zero and changes nothing |
| `PrivateTrees.RedactedPlaceByPlace` | harness_mem/capture_policy.py:192-248 | no place in the value appears or disappears, and at each stands what stood there with its text and names redacted |
| `PrivateTrees.SpansAddUp` | harness_mem/capture_policy.py:192-248 | every text and every name counts with its spans, once |
| `PrivateTrees.AcceptableExactly` | harness_mem/capture_policy.py:192-248 | a value is accepted if and only if no place in it is deeper than 64 and at every place the names are distinct after redaction and announce no refused encoding |
| `PrivateTrees.ProblemIsSomewhere` | harness_mem/capture_policy.py:192-248 | the problem reported stands at some place of the value: too deep, two names redacted to the same, or a refused encoding |
| `PrivateRedaction.RedactCaptureJsonl` | harness_mem/capture_policy.py:160-189 | fails with the problem of the first bad line; otherwise line by line, with only lines that held spans written anew, and their total |
| `PrivateRedaction.LinesAcceptable` | harness_mem/capture_policy.py:160-189 | it is accepted exactly when every line is blank or an acceptable record |
| `PrivateRedaction.PublicCaptureIsUntouched` | harness_mem/capture_policy.py:160-189 | with count zero the capture is returned character for character, line breaks included |
| `CaptureLines.RedactedCaptureIsClean` | harness_mem/capture_policy.py:160-189 | if redacted records read back from the line they are written to, their fields in any order, every line of an accepted capture after redaction is blank or decodes to a record without a private span, which redaction would accept |
| `CaptureLines.SecondRunIsAccepted` | harness_mem/capture_policy.py:160-189 | if redacted records read back, redacting an accepted and redacted capture once more meets no problem |
| `CaptureLines.SecondRunFindsNothing` | harness_mem/capture_policy.py:160-189 | such a second run counts no spans |
| `CaptureLines.SecondRunChangesNothing` | harness_mem/capture_policy.py:160-189 | and returns the redacted capture character for character |
| `CaptureLines.SameTreeIsAcceptable` | harness_mem/capture_policy.py:183-185 | what redaction asks of a record does not depend on the order in which its fields are written, at any depth |
| `CaptureLines.SeparateLinesAreRead` | harness_mem/capture_policy.py:160-189 | joined lines are split at the same places again, carriage returns included |
| `CaptureLines.RedactedLineFrame` | harness_mem/capture_policy.py:178-186 | a line with spans is written anew between the byte order mark and the line breaks it had; any other stays as it is |
| `CaptureLines.FirstBadLine` | harness_mem/capture_policy.py:160-175 | a capture is refused for its first bad line, and the error says whether that is no record, no object, or an object that redaction refuses |
| `ContextBudget.TruncateToCharBudget` | harness_mem/context_assembly.py:88-95 | within the limit; what is cut is marked and the rest is the beginning of the text |
| `ContextBudget.TruncationExactly` | harness_mem/context_assembly.py:88-95 | of a text that is too long, as much of the beginning is left as there is room for before the mark, less white space at its end |
| `ContextBudget.ApplyBudget` | harness_mem/context_assembly.py:380-453 | each candidate meets the fate it deserves given the text chosen before it, and chosen, lost and truncated ids are exactly those of the fates |
| `ContextBudget.Judge` | harness_mem/context_assembly.py:401-432 | one turn of the loop; the counter always holds the limit less the text chosen so far, and zero after a cut |
| `ContextReceipt.FitsTheBudget` | harness_mem/context_assembly.py:380-453 | the chosen text with its separators stays within max_chars, the number of entries within max_entries |
| `ContextReceipt.NothingAfterACut` | harness_mem/context_assembly.py:421-432 | at most one summary is truncated, and none is kept after it |
| `ContextReceipt.CutOnlyWhatDoesNotFit` | harness_mem/context_assembly.py:416-432 | a summary is cut only if it would not have fitted whole |
| `ContextReceipt.NothingLostExactly` | harness_mem/context_assembly.py:380-453 | nothing is cut or dropped if and only if everything fits |
| `ContextReceipt.FateExactly` | harness_mem/context_assembly.py:401-432 | a candidate is dropped when the entries are used up, after a cut, or without room for one character; it is cut when it is longer than the room there is; otherwise it is kept |
| `ContextReceipt.ChosenAndLost` | harness_mem/context_assembly.py:401-432 | chosen and lost entries are the candidates, divided, each in order |
| `ContextReceipt.DistinctIsExact` | harness_mem/context_assembly.py:111-118 | the specification of the de-duplicating loop holds each non-empty value once, and no others |
| `ContextReceipt.DistinctKeepsOrder` | harness_mem/context_assembly.py:111-118 | values stand in the order of their first occurrence |
| `ContextReceipt.CutIdsExactly` | harness_mem/context_assembly.py:425-432 | the ids traced as truncated are exactly those of the entries that were cut |
| `ContextReceipt.Dedupe` | harness_mem/context_assembly.py:111-118 | the loop computes it: first occurrences, in order |
| `ContextReceipt.ProjectionReceipt` | harness_mem/context_assembly.py:220-245 | kept ids are those of the chosen entries; evicted ids are the traced ones that are kept nowhere; the outcome says which happened |
| `ContextReceipt.ReceiptAccountsForAll` | harness_mem/context_assembly.py:220-232 | across all layers kept and evicted ids are disjoint and together exactly the ids of the candidates |

## Left out

- HookFairness.OvertakingIsBounded: for clients without an idle window, and for workers that finish only with a request they have loaded; that somebody keeps serving is not claimed.
- HookProtocol.NoLostWakeup: that a stale lock is found in time is not claimed; generations are fresh numbers, listing the directory is one step, and the rename of the legacy request slot, unreadable request files and leases without a token are not modelled; the waiting loop and the heartbeat thread appear only as the absence of takeovers.
- HookRequests.Choose: time stamps are reals and generations are ordered as numbers; a trigger id that equals the generation of another request is not modelled.
- NativeCleanupSaga.Saga.Apply: an existence check and the rename after it are one step, targets are distinct and not nested, allowed-root containment and the activity probes are inputs, and the order in which a directory is emptied is arbitrary. For plans with directories, carrying on after a stop inside a half-emptied directory is not claimed: the code then finds a changed manifest and restores what is left.
- NativeCleanupSaga.Saga.FinalMismatch: once the last check of a claim has begun, the host no longer writes into that claim; for the primary claim that is from its source check on.
- NativeCleanupSaga.Saga.CheckPrimary: between the two reads of the primary claim, for its digest and for its manifest, the host does not write into it; it may change everything else.
- Planning of native cleanup (which targets, allowed roots, shapes of sources): configuration.
- HardDeleteRun.Backend.Run: counts of removed items and index artifacts, chunks, semantic projections and the text of receipts are not modelled; saving a receipt and deleting ledger revisions are transactions.
- ProcessedCleanup.KindsAreDisjoint: assumes, like the lemmas around it, that ids are unique across the collections of a project and differ from those of the job and its observations.
- ProcessedCleanupRun.Backend.CleanupProcessedSource: a backend holds one job, one receipt and one plan, made when the backend is set up rather than after the native removal, over records that nothing changes in between; counts and the text of receipts are not modelled, nor is a second run after an outcome was recorded.
- ProcessedCleanupRun.Backend.SanitizeTruth: raw provenance is one flag per record.
- ProcessedCleanupRun.Backend.Retry: one job; which jobs are due, their order and the check of the source revision are not modelled.
- TranscriptChunking.ChunkTranscriptText: SHA-256 and uuid5 are injective functions; byte sizes are not modelled.
- RelationPaths.TraceRelationPaths: scores are given orders, since ranking is floating-point arithmetic; status and validity filters are part of the list of rows.
- OutlineRenderer.RenderKnowledgeMarkdown: only the projection without details; case folding is an arbitrary function, and the project name is given without surrounding white space.
- OutlineReader.RoundTrip: asks for a project name on one line; every entry's project name is, but an empty list of entries does not check the argument.
- PrivateText.RedactionIsComplete: which characters are word characters, white space or case variants of a letter is a parameter, with the two facts about brackets that the proof needs.
- PrivateRedaction.RedactCaptureValue: the Cursor record format and base64 attachments are not modelled.
- PrivateRedaction.RedactCaptureJsonl: decoding and encoding of JSON are parameters.
- CaptureLines.SecondRunIsAccepted: the second run is one that does not refuse encoded fields; redaction may make a name look like one.
- ContextReceipt.ProjectionReceipt: token counts, observed usage, drill-down pointers and the source revision are not modelled.
- Host adapters, command line, search ranking, configuration, the maintenance lock, event log and health reports: no part of this model.
