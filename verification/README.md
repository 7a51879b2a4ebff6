# Proofs about the Chameleon key vault

This project models the deletion side of the key vault and the registers around it, and proves what
they guarantee: the deletion-request protocol under any interleaving, the certificate hash chain and
the signer's own gate, the key registry and the ciphertexts it serves, and the smaller stateful parts
(janitor, signing-key caches, sync runs, watermarks, the PII registry and the coverage score).
`dafny verify dfyconfig.toml` checks all of it.

## How it is laid out

**The deletion protocol, at three levels.** `DeletionSteps` takes every repository call as one step:
any number of `advanceRequest` calls, cascade handlers and certificate reads, each a thread with its
own program counter, interleave over one request document, one user's key and one tenant's chain
length. What the outside world answers (a plan, wipe outcomes, a failing call) comes with each step,
so a run is a sequence of actions and every lemma about `Run` is about all interleavings.
`DeletionSafety`, `DeletionProgress` and `CertificateGate` hold the guarantees, `DeletionRaces` the runs
that show where they stop, and `DeletionLimits` the exact conditions under which they do not.
`TransitionRules` says which calls are accepted, what each leads to and what a completed request has
behind it, pair by pair and outcome by outcome, without the table or the service's own predicates.
`DeletionCalls` takes each call as one step, and a dispatched cascade as a later one.
`SoloRefinement` connects the two: a thread that is not interrupted does exactly what the call-level
model says, so every call-level run is a run of the step model. `DeletionService` is the service as a
class over the stored documents of `DeletionRepository`, the keys of `KeyRegistry`, the chain of
`CertificateChain` and the signer of `CertificateClaims`; its methods are proved to do the
call-level step, so what `DeletionCalls` proves about runs is about them.

**Certificates.** `CertificateChain` has the repository class and a model of concurrent optimistic
transactions whose attempts may be repeated. `CertificateClaims` is `generateClaims` with its
destination labels. `SigningKeys` has the version lists, the three caches and the rotation.

**Keys and ciphertexts.** `KeyRegistry`, `Ciphertexts`, `CryptoRoutes`.

**Cascade work.** `Connectors`, `Janitor`, `SourceRedaction`.

**Registers and calculations.** `SyncRuns`, `PiiEntries`, `Declarations`, `PiiAssembly`,
`PiiRegistry`, `PiiPolicy`, `Coverage`.

## What is assumed

Document writes succeed, and a transaction or a single write is one step. AES-GCM opens what it sealed
(NIST SP 800-38D), base64 and UTF-8 decode what they encoded and base64 text has no colon, SHA-256 does
not collide, the JSON and base64url forms of different claims differ and have no dot (RFC 7515,
section 7.1), `encodeURIComponent` loses nothing, and KMS gives every key version a name of its own. Each
is a stated law on a parameter (`Lawful`, `LawfulEncoding`, `Distinct`), never a fact about an
implementation. Clocks are parameters.

## Where the code and its comments part ways

The code is what is modelled. These are the places where a comment or a natural reading promises more.

- The rollback after a failed key destruction is said to race with nothing
  (`src/services/deletion-request-service.ts:119-125`). Another call can move the request on between the
  claim and the rollback, which then overwrites its progress: `RollbackCanOverwriteProgress`. It never
  does if and only if the claim still stands, no other thread in flight can move the request out of
  KEY_DESTROYED, and routes will not ask for a status that follows it: `RollbackSafeExactlyWhen`.
- A certificate is said never to be issued twice for one transition
  (`src/services/deletion-request-service.ts:293-297`). The claim compares statuses, not visits, and two
  writes into CASCADE_COMPLETE are unconditional: `StaleClaimCanWin`, `OneRequestCanGetTwoCertificates`
  (two on the chain; in the bucket the second replaces the first if both are of one day). What always holds
  is `IssuancesAreBounded`. An issued request can be reopened, and certified again, if and only if a
  thread in flight is still inside an issuance or about to shred, roll back, plan or write
  CASCADE_COMPLETE: `FinalExactlyWhen`.
- `shortcutToCascadeComplete` is called the only way into CASCADE_COMPLETE without a cascade
  (`src/services/deletion-request-service.ts:470-478`), but the table also lets a route ask for it from
  CASCADE_PENDING: `CompletedOnRequestAlone`. Completion means that somebody looked if and only if no
  route may ask for it: `InspectedExactlyWhen`.
- CASCADE_COMPLETE does not imply a destroyed key either: `CompletedWithALiveKey`. With one call at a time
  and nobody else touching the key, it has been destroyed if and only if the stored history shows no step
  from SHRED_REQUESTED straight to CASCADE_PARTIAL_FAILURE: `LiveKeyExactlyWhen`. No certificate is signed
  there all the same: `EverySignatureSawADestroyedKey`.
- destinationsChecked and destinationsSucceeded are said to be equal in practice
  (`src/certificate-signer/sign.ts:210-212`). A retry whose plan no longer covers an earlier failure, or
  finds nothing to do, completes and leaves the failure on record: `AllCheckedSucceededExactlyWhen`.
- Resource ids are said to hold only single colons (`src/certificate-signer/sign.ts:33-36`). Nothing
  enforces it and nothing depends on it: `ParsesWhatWasWritten` holds for all resource ids on one line.
- The key document id joins tenant and user with a colon. With a colon in a tenant id two users can share
  a document: `DocumentsCollideExactlyWhen`, `ColonInTenantCollides`.
- A status write within the same millisecond as an earlier one with the same status adds no history entry:
  `HistoryEndsInStatusExactlyWhen`, `SameInstantRollbackIsLost`.
- A rotation is said to take effect right away (`src/services/certificate-service.ts:297-301`). One that
  gives up waiting clears no cache, and its version can still become ENABLED:
  `LateVersionSignsUnpublished`. A version is published if and only if the cached listing has lapsed or
  was filled after the version became ENABLED, `PublishedExactlyWhen`; the lag is bounded by the cache
  lifetimes, `StalenessIsBounded`.
- A tenant whose id is `*` writes into the global scope of the registry: `StarTenantIsSeenByAll`. In general
  a tenant's declaration shows up in another's lookup if and only if the two scopes share a key, which
  `KeysCollideExactlyWhen` characterises: `WriteSeenExactlyWhen`.
- After a declaration is written again, memory has no watermark while the store keeps it:
  `WatermarksAgreeAfterUpsertExactlyWhen`.

## Model

| member | source | states |
|---|---|---|
| DeletionSafety.VisitsAreConserved | src/gcp/deletion-request-repository.ts:196-225 | In every stretch of every interleaving and for every status: visits open at the start plus visits entered equal claims out plus overwrites out plus the visit still open |
| DeletionSafety.IssuancesAreBounded | src/services/deletion-request-service.ts:289-313 | In every stretch of every interleaving at most one issuance starts per visit to CASCADE_COMPLETE, open at its start or entered in it |
| DeletionSafety.CompletedRestsOnEvidence | src/services/deletion-request-service.ts:362-373 | In every interleaving a completed status or a started issuance has an empty plan check, a cascade run without failures, or a route asking for CASCADE_COMPLETE behind it |
| DeletionProgress.NoStallAnywhere | src/services/deletion-request-service.ts:375-464 | In every interleaving a request in CASCADE_PENDING or CASCADE_IN_PROGRESS has a thread in flight that carries it, and whatever the next six outcomes are, at most six steps of such threads bring it to another status |
| CertificateGate.SignaturesFollowTheGate | src/certificate-signer/sign.ts:114-120 | In every interleaving each signature, chained or not, comes after a claims read of the same call that saw a destroyed key and a completed request |
| CertificateGate.ClaimsReadsAreTrue | src/certificate-signer/sign.ts:114-117 | What a claims read reports was really the key's state, and the request's status, at a moment of the run before the read was made |
| CertificateGate.EverySignatureSawADestroyedKey | src/services/certificate-service.ts:74-91 | Every signature in every run is preceded by its own signer's read, and that by a moment at which the key really was destroyed and one at which the request really was completed |
| CertificateGate.ReaderDecides | src/services/certificate-service.ts:219-236 | A certificate read is refused unless the key is destroyed and the request completed, is given the stored certificate exactly if the request is issued and has one, and only otherwise has one signed |
| CertificateGate.ReadersLeaveNoTrace | src/services/certificate-service.ts:219-249 | Erasing all certificate reads from any run leaves the same document, key, chain and other threads: a GET changes nothing anyone else can see |
| DeletionCalls.FinishCascadeOk | src/services/deletion-request-service.ts:375-464 | A cascade that reports back leaves the request issued or visibly failed, whatever it brought and however issuance went, and keeps the invariant |
| DeletionCalls.NoSilentStall | src/services/deletion-request-service.ts:451-463 | In every run a cascading request has an outstanding cascade, and any outstanding cascade ends in CERTIFICATE_ISSUED or CASCADE_PARTIAL_FAILURE |
| DeletionCalls.HistoryIsAWalk | src/services/deletion-request-service.ts:550-568 | In every run the history starts at SHRED_REQUESTED, ends in the current status and moves along table edges, the two shortcuts and the two rollbacks only |
| DeletionCalls.IssuedOnceAndFinal | src/services/deletion-request-service.ts:556-557 | In every run the number of issued certificates is one exactly in CERTIFICATE_ISSUED and zero elsewhere, and nothing later changes an issued request |
| DeletionCalls.TailWriteUnreachable | src/services/deletion-request-service.ts:332-339 | The generic write at the end of the switch is reached only for a status that no table edge leads to |
| DeletionCalls.CertifiableExactlyWhen | src/services/deletion-request-service.ts:550-558 | In every state the protocol's invariant allows some sequence of further calls leads to a certificate if and only if the request is at its start, is issued, or the key is gone: a request sent to CASCADE_PARTIAL_FAILURE with its key alive is stuck for ever |
| DeletionCalls.ReachableCertifiableExactlyWhen | src/services/deletion-request-service.ts:550-558 | The same after every run from a fresh request |
| DeletionCalls.LiveKeyExactlyWhen | src/services/deletion-request-service.ts:550-553 | In every run of calls in which nobody else touches the key, a request past SHRED_REQUESTED has destroyed its key if and only if its history shows no step from SHRED_REQUESTED to CASCADE_PARTIAL_FAILURE |
| TransitionRules.AcceptedExactlyWhen | src/services/deletion-request-service.ts:550-558 | In any interleaving a call starts work exactly for the twelve pairs of statuses written out, and for any other throws at its first step; neither changes a document yet |
| TransitionRules.RefusedExactlyWhen | src/services/deletion-request-service.ts:80-82 | A whole call throws and leaves everything as it was if and only if its pair is not one of the twelve |
| TransitionRules.CallEndsIn | src/services/deletion-request-service.ts:109-331 | The status each accepted call ends in, from the outcomes it meets: shredding, the three parts of the plan, and all that issuing takes |
| TransitionRules.DispatchesExactlyWhen | src/services/deletion-request-service.ts:349-383 | A call dispatches one cascade exactly when it asks for a cascading status and its plan was built and has a task or a resource of either kind |
| TransitionRules.FinishEndsIn | src/services/deletion-request-service.ts:426-463 | A cascade that comes back to a cascading request certifies it if and only if no outcome of the three kinds failed and issuing works, and otherwise leaves it in CASCADE_PARTIAL_FAILURE |
| TransitionRules.CompletionNeedsACascade | src/services/deletion-request-service.ts:553-554 | A caller who asks for CASCADE_COMPLETE changes something only in CASCADE_PENDING or CASCADE_IN_PROGRESS |
| TransitionRules.ShortcutReadAnEmptyPlan | src/services/deletion-request-service.ts:470-505 | A call that takes KEY_DESTROYED or CASCADE_PARTIAL_FAILURE to CASCADE_COMPLETE or CERTIFICATE_ISSUED asked for a cascade and has itself read a plan with nothing in it |
| TransitionRules.CompletionIsCovered | src/services/deletion-request-service.ts:362-373 | In every interleaving a completed request has had an empty plan read or a claim of a cascading status, whatever routes asked for |
| TransitionRules.RunCompletionIsCovered | src/services/deletion-request-service.ts:362-373 | In every run of calls a completed request's history passes a cascading status, or some call read an empty plan |
| SoloRefinement.FromStart | src/services/deletion-request-service.ts:67-340 | Left alone, a thread of the step model goes through an `advanceRequest` call to exactly the end the call-level model gives |
| SoloRefinement.FromHandler | src/services/deletion-request-service.ts:384-463 | Left alone, a cascade handler and its recovery reach exactly the call-level FinishCascade |
| SoloRefinement.UninterruptedThreadIsAtomic | src/services/deletion-request-service.ts:67-464 | In any state an uninterrupted call, or cascade handler with its recovery, acts as one call of the call-level model and leaves every other thread where it is |
| SoloRefinement.CallRunsAreStepRuns | src/services/deletion-request-service.ts:67-464 | Every run of the call-level model is a run of the step model seen through its shared documents |
| DeletionRaces.OneRequestCanGetTwoCertificates | src/services/deletion-request-service.ts:502-505 | A run in which one request ends with two certificates issued and chained |
| DeletionRaces.StaleClaimCanWin | src/services/deletion-request-service.ts:293-313 | Two calls that read the same visit to CASCADE_COMPLETE both start an issuance when the first rolls back |
| DeletionRaces.RollbackCanOverwriteProgress | src/services/deletion-request-service.ts:115-129 | A rollback overwrites CASCADE_PENDING with SHRED_REQUESTED |
| DeletionRaces.CompletedWithALiveKey | src/services/deletion-request-service.ts:551-555 | CASCADE_COMPLETE is reachable with an active key |
| DeletionRaces.CompletedOnRequestAlone | src/services/deletion-request-service.ts:553-554 | CASCADE_COMPLETE is reachable with no empty plan check and no clean cascade, when a route asks for it |
| DeletionLimits.FinalExactlyWhen | src/services/deletion-request-service.ts:289-313 | In every well-placed state in CERTIFICATE_ISSUED (as all reachable ones are): no schedule moves the request, none starts another issuance, none issues another certificate, each if and only if no thread in flight is issuing or about to plan, shred, roll back or write CASCADE_COMPLETE |
| DeletionLimits.RollbackSafeExactlyWhen | src/services/deletion-request-service.ts:111-130 | For a thread that has claimed KEY_DESTROYED and may fail to shred: in every schedule its rollback overwrites KEY_DESTROYED if and only if the claim stands, no other thread in flight can move it on, and no status that routes may still ask for follows KEY_DESTROYED |
| DeletionLimits.InspectedExactlyWhen | src/services/deletion-request-service.ts:470-478 | In all interleavings a completed status means an empty plan was checked or a cascade ran without failures, if and only if CASCADE_COMPLETE is not among the statuses routes may ask for |
| DeletionRepository.DeletionRequestRepository.CreateDeletionRequest | src/gcp/deletion-request-repository.ts:25-56 | An existing document is returned and kept; otherwise a fresh one is stored and returned |
| DeletionRepository.DeletionRequestRepository.GetActiveDeletionRequestForUser | src/gcp/deletion-request-repository.ts:108-121 | One of the user's requests short of completion that none of them is newer than, or none exactly when there is none |
| DeletionRepository.DeletionRequestRepository.UpdateDeletionRequestStatus | src/gcp/deletion-request-repository.ts:169-183 | An unconditional status write with its history entry; fails on a missing document |
| DeletionRepository.DeletionRequestRepository.ClaimTransition | src/gcp/deletion-request-repository.ts:196-225 | Claims exactly when the status is allowed, and then writes the status and its history entry and nothing else; otherwise no document changes and the current one is returned |
| DeletionRepository.DeletionRequestRepository.UpdateDeletionRequestFields | src/gcp/deletion-request-repository.ts:234-243 | Each of the four fields is the one given, else as it was; the rest of the document and all others stay; nothing at all for no fields |
| DeletionRepository.DeletionRequestRepository.UpdateJanitorWipeStatus | src/gcp/deletion-request-repository.ts:246-281 | This destination's record is the given wipe, every other destination's record and all else stay |
| DeletionRepository.UpsertRecords | src/gcp/deletion-request-repository.ts:260-277 | An upsert records its wipe in its destination's place, keeps every other record, grows the list only for a new destination and never repeats one |
| DeletionRepository.DocumentsStaySound | src/gcp/deletion-request-repository.ts:251-278 | In any interleaving of all operations each document has one wipe per destination and a repetition-free history starting at its creation |
| DeletionRepository.SecondClaimChangesNothing | src/gcp/deletion-request-repository.ts:207-216 | In every run of the collection: of two claims on a request out of one status to another, with no status written in between, the second changes nothing |
| DeletionRepository.HistoryEndsInStatusExactlyWhen | src/gcp/deletion-request-repository.ts:174-179 | A status write leaves the history ending in the new status if and only if its entry is new or the last entry already has that status |
| DeletionRepository.SameInstantRollbackIsLost | src/gcp/deletion-request-repository.ts:177-177 | A claim and rollback in the instant of creation leave a history that ends in the wrong status |
| DeletionService.DeletionRequestService.CreateRequest | src/services/deletion-request-service.ts:28-61 | Hands back the newest of the user's active requests unchanged exactly when there is one; a new one looks like the protocol's initial state |
| DeletionService.DeletionRequestService.AdvanceRequest | src/services/deletion-request-service.ts:67-340 | One call is the protocol's call on this request; it is refused exactly outside the twelve pairs, and then changes nothing; it replies exactly when the protocol's does, with the stored document up to its newest history; it leaves other requests, their cascades and certificates, other users' keys and other tenants' chains alone, keeps the protocol's invariant, and a reply in CERTIFICATE_ISSUED has its stored certificate as the newest on the chain |
| DeletionService.DeletionRequestService.PrepareCascade | src/services/deletion-request-service.ts:349-373 | The plan is the user's tracked destinations with a connector and the tenant's resources by strategy, none without a source-redaction service, or a failure |
| DeletionService.DeletionRequestService.RunCascade | src/services/deletion-request-service.ts:375-383 | A dispatched cascade comes back with one janitor result per connected destination, each as its connector's answers make it, and one result per declared resource of each strategy that had something planned, in order and each as its own statement went |
| DeletionService.DeletionRequestService.StartCascade | src/services/deletion-request-service.ts:144-252 | CASCADE_PENDING and its retry: shortcut, plan failure or dispatch, as the protocol says |
| DeletionService.DeletionRequestService.DestroyKey | src/services/deletion-request-service.ts:111-143 | Claims, then shreds exactly this user's key and notes when, or rolls back and leaves all keys alone; the request's cleanup plan is what it was either way |
| DeletionService.DeletionRequestService.IssueCertificate | src/services/deletion-request-service.ts:289-331 | Claims and issues, or rolls back, as the protocol says; success stores the certificate the chain holds |
| DeletionService.DeletionRequestService.IssueAndStoreCertificate | src/services/certificate-service.ts:74-167 | Succeeds exactly when the signer's reads pass and signing and storing work; the chain grows by one exactly when it was signed; what is stored is signed over this request's own claims for the next place on its tenant's chain, and is the chain's newest entry |
| DeletionService.DeletionRequestService.CascadeSettled | src/services/deletion-request-service.ts:384-463 | For each label of the run its last result is on record, as succeeded exactly if that wipe succeeded and else as failed, with what it found; other labels keep their record; a cascading request ends issued if and only if nothing failed and issuing worked, and otherwise in CASCADE_PARTIAL_FAILURE |
| DeletionService.DeletionRequestService.CascadeRejected | src/services/deletion-request-service.ts:440-463 | A rejected cascade records nothing and leaves a cascading request in CASCADE_PARTIAL_FAILURE |
| DeletionService.AnyFailed | src/services/deletion-request-service.ts:426-432 | The three filters find something exactly when some task did not complete or some resource did not succeed |
| DeletionService.OneRunNeverRecordsTwice | src/services/deletion-request-service.ts:390-424 | After any operations on the key registry, and any on the PII registry by colon-free tenants other than `*`, what one cascade records has no destination twice |
| DeletionService.RunIsReflected | src/services/deletion-request-service.ts:390-424 | Recording a run, in three loops and over any earlier record, leaves each wipe's own answer under its label |
| DeletionService.CleanRunClaims | src/certificate-signer/sign.ts:210-214 | After a cascade without failures destinationsChecked equals destinationsSucceeded if and only if its labels cover every destination that had failed before |
| DeletionService.PlanCovers | src/services/deletion-request-service.ts:362-366 | A cleanup plan has each tracked destination with a connector, as often as it is tracked, and a resource exactly if it was opted in by hand, by the tenant or for all, for the strategy |
| CertificateChain.CertificateChainRepository.AppendToChain | src/gcp/certificate-chain-repository.ts:50-89 | Signs for the next sequence and the last hash, and writes head and entry together |
| CertificateChain.HashesTellClaimsApart | src/certificate-signer/sign.ts:248-264 | Certificates with the same hash are the same, claims included |
| CertificateChain.ChainsAreContiguous | src/gcp/certificate-chain-repository.ts:57-89 | Under any concurrent appends and repeated attempts the walk from a tenant's head meets n, n-1, ..., 1 and ends at null after n steps |
| CertificateChain.EveryEntryIsOnItsChain | src/gcp/certificate-chain-repository.ts:74-85 | Every indexed entry is on its tenant's one chain at its own sequence, and is the certificate with those claims |
| CertificateChain.RunKeepsCounts | src/gcp/certificate-chain-repository.ts:60-61 | There is one entry per tenant and sequence number |
| CertificateChain.StepsTouchOneChain | src/gcp/certificate-chain-repository.ts:42-48 | A discarded attempt changes nothing, a commit extends its own tenant's chain by its own certificate, other chains stay |
| CertificateClaims.ParsesWhatWasWritten | src/certificate-signer/sign.ts:37-42 | A destination parses to a resource and strategy if and only if it is the label written for them (non-empty, on one line) |
| CertificateClaims.CertificateSigner.GenerateClaims | src/certificate-signer/sign.ts:110-246 | Certifies exactly when the key document exists and says shredded or deleted, the request exists and is completed, and the declarations were read; the claims are built from those reads |
| CertificateClaims.CertifiedClaimsReport | src/certificate-signer/sign.ts:127-136 | Certified claims are the caller's user's and tenant's; checked and succeeded count the records; a system has exactly one lineage item if its recorded wipe succeeded and none otherwise, with that wipe's time, confirmed absent exactly if it found zero records or rows |
| CertificateClaims.LineageReportsSuccesses | src/certificate-signer/sign.ts:127-136 | The lineage is the successful wipes in the order of the record, each reported, and their number is the success count |
| CertificateClaims.RefusedBecause | src/certificate-signer/sign.ts:114-188 | Claims are refused for a key that is not destroyed, then for a request that is not completed, then for unreadable declarations, and for nothing else |
| CertificateClaims.RedactionExceptions | src/certificate-signer/sign.ts:152-184 | The loop collects the immunity of each effective wipe under a strategy label |
| CertificateClaims.ImmuneFromItsDateOn | src/certificate-signer/sign.ts:169-178 | immuneAsOf is given exactly until immunity, which begins at that instant, seven days after the redaction, and stays; an encrypted copy is always immune |
| CertificateClaims.OneExceptionPerWipe | src/certificate-signer/sign.ts:152-183 | Each effective wipe under a label gives exactly one exception for that resource and strategy, anything else none |
| CertificateClaims.ExposedExactlyWhen | src/certificate-signer/sign.ts:137-206 | A resource is called not backup-immune if and only if a shadow copy of it is declared or it was redacted in place within 168 hours |
| CertificateClaims.AllCheckedSucceededExactlyWhen | src/certificate-signer/sign.ts:210-214 | After a run without failures checked equals succeeded if and only if the run covered every earlier failure; the lineage lists exactly the successes |
| CertificateClaims.RecordFirstRecords | src/services/deletion-request-service.ts:390-424 | After the recording loops each destination holds the run's last result for it, or else its old record |
| CertificateClaims.RunLabelsNeverCollide | src/services/deletion-request-service.ts:398-408 | The labels of one run are distinct if and only if connectors, redacted and deleted resources each are |
| Connectors.PlanIsTheConnected | src/services/janitor.ts:30-43 | A plan holds exactly the destinations with a connector, as often as tracked |
| Connectors.HasConnectorExactlyWhen | src/services/registry.ts:8-20 | The destinations with a connector are hubspot and salesforce, in any case |
| Janitor.CreateCleanupPlan | src/services/janitor.ts:22-47 | The tracked destinations with a connector, in order |
| Janitor.WipeOne | src/services/janitor.ts:61-158 | One to three attempts; complete exactly when the last answer succeeded; fewer than three on failure only after a non-retryable answer; one started event each, one exact pause between attempts |
| Janitor.RunIsDetermined | src/services/janitor.ts:66-150 | The answers alone determine attempts, success and records found |
| Janitor.BackoffIsBounded | src/services/janitor.ts:144-148 | The first pause is two to three seconds, the second four to five, and those of one task stay below eight |
| Janitor.ProcessCleanup | src/services/janitor.ts:49-197 | One result per planned task in plan order, each a proper run, or a failure without attempt, event or dead letter when its connector is gone; the event stream and one dead letter per exhausted task follow from the results |
| Janitor.StartedEventsAreAttempts | src/services/janitor.ts:70-81 | Started events number the sum of the reported attempts |
| Janitor.NoDeadLettersExactlyWhen | src/services/janitor.ts:172-189 | Nothing is dead-lettered exactly when every task that was tried completed: a task whose connector is gone fails without a dead letter |
| Janitor.DeadLettersAre | src/services/janitor.ts:172-189 | The dead letters are the destinations of the tasks that were tried and failed, in order |
| Janitor.CompletionsAreReported | src/services/janitor.ts:161-171 | Each task that was tried reports its end once, in order, and as it was |
| SourceRedaction.SourceRedactionService.PlanFor | src/services/source-redaction-service.ts:88-92 | The tenant's manual resources that opted into the strategy, in order |
| SourceRedaction.PlannedExactlyWhen | src/services/source-redaction-strategies.ts:14-30 | A row is planned if and only if it is declared by hand for the tenant or for all and opted in, by its list of strategies, or without a list by the older single field |
| SourceRedaction.SourceRedactionService.RunOver | src/services/source-redaction-service.ts:100-122 | One result per planned resource in order; refused or failing resources fail alone; a resource succeeds exactly if it is a BigQuery table with a user column, and with columns if they are redacted, and its statement goes through |
| SourceRedaction.EachResourceOnce | src/services/source-redaction-service.ts:397-419 | One run attempts no resource twice |
| KeyRegistry.FirestoreRegistry.GetKeyForUser | src/gcp/firestore-registry.ts:50-91 | The requested or active version's key unless shredded, deleted, empty or unknown |
| KeyRegistry.ResolvesExactlyWhen | src/gcp/firestore-registry.ts:63-86 | A version asked for resolves, with its own stored key, if and only if it is stored and not empty and the document is neither shredded nor deleted |
| KeyRegistry.ActiveResolves | src/gcp/firestore-registry.ts:72-76 | Without a version asked for it is the active one that resolves, if any |
| KeyRegistry.FirestoreRegistry.SetKeyForUser | src/gcp/firestore-registry.ts:92-119 | Replaces the document by a fresh one with v1 active |
| KeyRegistry.FirestoreRegistry.RotateKeyForUser | src/gcp/firestore-registry.ts:121-153 | Adds the next version and makes it active, or refuses a missing or shredded key and changes nothing |
| KeyRegistry.FirestoreRegistry.ShredKeyForUser | src/gcp/firestore-registry.ts:155-181 | Removes all key material of one document, creating it if need be, and touches no other |
| KeyRegistry.ShredRemovesOnlyTheKey | src/gcp/firestore-registry.ts:157-174 | A shred leaves no version and no active one, keeps the tracked destinations, and records its request or keeps the one on record |
| KeyRegistry.TrackedUntilNewKey | src/gcp/firestore-registry.ts:159-174 | After any run a tracked destination of an existing document is listed, and stays listed through any rotations, shreds and further tracking until a new key is stored |
| KeyRegistry.ListedWasTracked | src/gcp/firestore-registry.ts:246-256 | Nothing is listed in any reachable document that was not tracked there |
| KeyRegistry.OnlyOwnDocument | src/gcp/firestore-registry.ts:52-52 | No operation changes another document |
| KeyRegistry.FirestoreRegistry.HasActiveKeyMaterial | src/gcp/firestore-registry.ts:192-200 | The auditor's view of one document |
| KeyRegistry.VersionsAreExact | src/gcp/firestore-registry.ts:99-144 | In every reachable registry a document holds exactly v1..vn with vn active, or nothing and is shredded |
| KeyRegistry.RotationKeepsEveryKey | src/gcp/firestore-registry.ts:136-144 | Rotation adds one version, overwrites none, and the new one is what is read next |
| Text.DecimalReads | src/gcp/firestore-registry.ts:136-136 | The number in a version's name is written in decimal without leading zeros |
| KeyRegistry.TwoViewsAgreeExactlyWhen | src/gcp/firestore-registry.ts:192-200 | The auditor's view and the decryption view agree if and only if an existing active key is not the empty string; a destroyed key is none in both |
| KeyRegistry.TwoViewsAgree | src/gcp/firestore-registry.ts:63-86 | With non-empty wrapped keys the two views agree in every reachable registry |
| KeyRegistry.FirestoreRegistry.AddDestinationToUser | src/gcp/firestore-registry.ts:246-256 | Adds a destination to an existing document once; a missing document is left alone |
| KeyRegistry.DestinationsAreDistinct | src/gcp/firestore-registry.ts:249-251 | No reachable document lists a destination twice |
| KeyRegistry.DocumentsCollideExactlyWhen | src/gcp/firestore-registry.ts:52-52 | Two users share a document if and only if they are the same or one tenant id runs across a colon into the other's user id; never for colon-free tenants |
| KeyRegistry.ColonInTenantCollides | src/gcp/firestore-registry.ts:157-174 | Shredding one tenant's user destroys another tenant's key |
| Ciphertexts.FramingRoundTrips | src/crypto/deterministic-aes.ts:103-110 | Splitting off the last 16 bytes and joining are inverse both ways, and possible exactly for 16 bytes or more |
| Ciphertexts.CipherRoundTrips | src/crypto/deterministic-aes.ts:49-67 | Encryption works exactly for 32-byte keys, and what it gives decrypts to the plaintext |
| Ciphertexts.DecryptsExactlyWhen | src/crypto/deterministic-aes.ts:92-120 | A text opens if and only if the key has 32 bytes and its last 16 bytes are the tag of the rest for this user |
| Ciphertexts.EncryptAnswers | src/routes/crypto.ts:300-317 | /encrypt answers exactly when a 32-byte key resolves, with the active version before the colon and the text sealed for this user under that key |
| Ciphertexts.DecryptAnswers | src/routes/crypto.ts:393-414 | /decrypt refuses what has no two parts, reports no key exactly for a version that does not resolve, and otherwise opens the second part with that version's key |
| Ciphertexts.TwoPartsExactlyWhen | src/routes/crypto.ts:393-400 | The two parts are the first two between colons, neither of them empty; what follows a second colon is ignored |
| Ciphertexts.CiphertextsOutliveRotation | src/routes/crypto.ts:393-414 | What /encrypt returned decrypts to its plaintext after any later rotations and other activity that does not shred this user |
| Ciphertexts.ShredIsFinalUntilNewKey | src/gcp/firestore-registry.ts:155-174 | After a shred no version resolves until a new key is generated for the user |
| Ciphertexts.ThreePartsRoundTrip | src/services/pii-vault-decryptor.ts:34-38 | Three parts read back exactly what was written if and only if the first two are colon-free and none is empty, and re-joining gives the raw value |
| Ciphertexts.VaultValuesOutliveRotation | src/services/pii-vault-decryptor.ts:25-50 | A vault value written under any stored version reads back after any later activity that does not shred this user |
| Ciphertexts.VaultReadsExactlyWhen | src/services/pii-vault-decryptor.ts:25-50 | A vault value reads as a text if and only if the user is given, it has three parts, and the key they name opens the third with the second as IV |
| CryptoRoutes.Routes.KeyGenerate | src/routes/crypto.ts:51-108 | Generates only where no key resolves, and then exactly v1 resolves |
| CryptoRoutes.Routes.KeyRotate | src/routes/crypto.ts:752-810 | Rotates exactly the keys that can be, and changes nothing otherwise |
| CryptoRoutes.Routes.EncryptText | src/routes/crypto.ts:300-317 | The active version's tag and ciphertext, or why not |
| CryptoRoutes.Routes.DecryptText | src/routes/crypto.ts:393-414 | Parses the version tag, looks that version up and decrypts, or says why not |
| SigningKeys.NewestVersionsAgree | src/certificate-signer/kms-client.ts:46-52 | Folding with the maximum and sorting stably and popping give the same version on every non-empty list, ties included |
| SigningKeys.CloudKmsClient.ListEnabledVersions | src/gcp/cloud-kms.ts:240-248 | The names of the ENABLED versions in order |
| SigningKeys.EnabledAre | src/gcp/cloud-kms.ts:240-248 | The enabled versions are exactly those in state ENABLED, in order |
| SigningKeys.CloudKmsClient.GetNewestEnabledVersion | src/gcp/cloud-kms.ts:227-233 | The fold's result, or the error on an empty list |
| SigningKeys.WaitForVersionEnabled | src/gcp/cloud-kms.ts:266-279 | At most 41 polls; each outcome follows from the last answer and the deadline, and all earlier answers were pending |
| SigningKeys.CertificateSigner.GetCurrentSigningKeyVersion | src/certificate-signer/sign.ts:278-284 | The cached version while it lasts, else the newest, then cached |
| SigningKeys.CertificateSigner.SignClaims | src/certificate-signer/sign.ts:248-264 | Signs under the current version as its own cache gives it |
| SigningKeys.CertificateService.GetJwks | src/services/certificate-service.ts:348-367 | One key per published version, in order, under its own kid with its own public key, whatever the key cache holds: the cached list's versions while it lasts, else every enabled one |
| SigningKeys.CertificateService.RotateSigningKey | src/services/certificate-service.ts:376-406 | When the wait succeeds the new version is enabled from its last poll on, the three caches of versions are empty and the previous version is reported; when it gives up the only change is the refreshed current version |
| SigningKeys.CachesAreNeverSeen | src/services/certificate-service.ts:297-338 | Whatever the expiries: signing always uses the newest version, the published set is always the enabled versions, and every kid ever used is in it |
| SigningKeys.RotationTakesEffect | src/services/certificate-service.ts:383-392 | Right after a rotation both current-version reads give the new version and it is published |
| SigningKeys.StalenessIsBounded | src/services/certificate-service.ts:326-338 | Also with versions enabled late: what was enabled ten minutes ago is published, and nothing enabled five minutes ago is newer than the signing version |
| SigningKeys.LateVersionSignsUnpublished | src/gcp/cloud-kms.ts:274-276 | A run in which a certificate is signed under a kid the cached key set does not publish |
| SigningKeys.PublishedExactlyWhen | src/services/certificate-service.ts:326-334 | In every run, late enablings included: the signing version is an enabled one, and an enabled version is published if and only if the cached listing has lapsed or was filled after the version became ENABLED |
| SyncRuns.SyncRunRepository.Create | src/gcp/sync-run-repository.ts:21-34 | Stores a fresh enumerating run |
| SyncRuns.SyncRunRepository.FinalizeTotal | src/gcp/sync-run-repository.ts:48-65 | Sets the total and the status it implies; completedAt only if not yet set; missing runs give null |
| SyncRuns.SyncRunRepository.RecordChunkOutcome | src/gcp/sync-run-repository.ts:73-92 | Counts the outcome and completes the run when the total is reached; missing runs give null |
| SyncRuns.ReportsChange | src/gcp/sync-run-repository.ts:48-92 | A finalization never moves a completion time that is set; a chunk counts once and sets it exactly when the total is reached; nothing else changes |
| SyncRuns.OrderDoesNotMatter | src/gcp/sync-run-repository.ts:41-92 | Chunk reports and one finalization in any order leave the same record, timestamps included |
| SyncRuns.StatusIsAlwaysTheFunction | src/gcp/sync-run-repository.ts:56-87 | After any operations the status is enumerating, running or complete as total and completed alone say |
| SyncRuns.CompletedAtTruthfulExactlyWhen | src/gcp/sync-run-repository.ts:60-60 | completedAt is present exactly in complete runs all along if and only if no finalization raises the total of a complete run |
| Declarations.DeclarationsNeverCollide | src/gcp/pii-registry-declaration-repository.ts:30-33 | Two declarations share a document if and only if tenant and resource are the same |
| Declarations.DeclarationRepository.Upsert | src/gcp/pii-registry-declaration-repository.ts:50-82 | A merge write: undefined fields keep their stored value, the attribution and the strategies included; a cleared updatedAtColumn clears the watermark, a missing modifier is cleared |
| Declarations.FieldsAreLastGiven | src/gcp/pii-registry-declaration-repository.ts:54-79 | After any declarations and reports each column name, the notes, the attribution and the strategies are the last ones given: an undefined field never loses one |
| Declarations.WriteReplaces | src/gcp/pii-registry-declaration-repository.ts:62-79 | All other fields are the write's own, its modifier and incremental column cleared if it has none |
| Declarations.DeclarationRepository.AdvanceSyncWatermark | src/gcp/pii-registry-declaration-repository.ts:99-113 | Moves forward only, keeps the stored value on a tie, returns what is stored |
| Declarations.DeclarationRepository.AdvanceLastSyncAttempt | src/gcp/pii-registry-declaration-repository.ts:121-135 | The same for the attempt register, leaving the watermark alone |
| Declarations.WatermarkIsFirstMaximum | src/gcp/pii-registry-declaration-repository.ts:63-113 | The watermark is the greatest of everything since it was last cleared, start value included, the earliest among equals |
| Declarations.ReportsMayComeInAnyOrder | src/gcp/pii-registry-declaration-repository.ts:106-111 | The watermark's time does not depend on the order of the reports |
| PiiRegistry.PiiRegistryService.GetEntry | src/services/pii-registry-service.ts:70-83 | The tenant's entry, else the global one; without a tenant the global one, else some entry of the resource if there is any |
| PiiRegistry.PiiRegistryService.ListEntries | src/services/pii-registry-service.ts:47-68 | The entries that pass all five filters, in order; a filter not given passes everything |
| PiiRegistry.ListedExactlyWhen | src/services/pii-registry-service.ts:47-68 | A listing has exactly the rows that meet the tenant and every filter given, once each and in the registry's order |
| PiiRegistry.PiiRegistryService.UpsertEntry | src/services/pii-registry-service.ts:95-105 | Refuses other owners and missing tenants and changes nothing; otherwise stores, then replaces in memory |
| PiiRegistry.PiiRegistryService.RemoveEntry | src/services/pii-registry-service.ts:108-120 | Removes a manual entry in store and memory; refuses others and changes nothing |
| PiiRegistry.RemovedIsGone | src/services/pii-registry-service.ts:108-120 | In every reachable registry a tenant that removes its declaration finds the global entry from then on, or nothing |
| PiiRegistry.OpsTouchOneKey | src/services/pii-registry-service.ts:95-148 | No write changes what is stored under another key |
| PiiRegistry.PiiRegistryService.MarkResourceSynced | src/services/pii-registry-service.ts:131-148 | Memory takes over the store's watermark, so the two are equal afterwards, or the candidate when there is no store; refusals and failures change neither |
| PiiRegistry.WatermarksAgreeAfterUpsertExactlyWhen | src/services/pii-registry-service.ts:102-103 | After a declaration memory and store agree on the watermark if and only if the write clears it or there was none |
| PiiRegistry.LookupIsLayered | src/gcp/pii-registry-repository.ts:140-153 | For a colon-free tenant other than `*` a lookup finds the tenant's declaration, else the dbt entry, else the last connector entry, which once there is a dbt slice must not be owned by dbt |
| PiiRegistry.NoTenantSeesAnother | src/services/pii-registry-service.ts:40-45 | With colon-free tenants other than `*`, in every reachable registry no lookup or listing gives a tenant another tenant's entry |
| PiiRegistry.TenantsDoNotInterfere | src/services/pii-registry-service.ts:95-148 | With colon-free tenants other than `*`, no write by one tenant changes what another looks up or lists |
| PiiRegistry.StarTenantIsSeenByAll | src/services/pii-registry-service.ts:35-37 | An entry declared by a tenant named `*` is what every other tenant then finds |
| PiiRegistry.KeysCollideExactlyWhen | src/services/pii-registry-service.ts:35-37 | Two scopes' resources share a key if and only if they are the same scope and resource, or one scope runs across the other's two colons into its resource |
| PiiRegistry.WriteSeenExactlyWhen | src/services/pii-registry-service.ts:70-105 | A declaration changes what a tenant looks up, and is then what it finds, if and only if it shares the tenant's own key, or the global key while the tenant has no entry of its own |
| PiiRegistry.ManualResourcesAreDistinct | src/services/pii-registry-service.ts:47-60 | A tenant's manual resources are listed once each |
| PiiRegistry.ManualStaysOwned | src/services/pii-registry-service.ts:95-101 | Every write keeps manual entries with a tenant, which that needs |
| PiiAssembly.Assemble | src/gcp/pii-registry-repository.ts:91-124 | One entry per group of rows, in order |
| PiiAssembly.EveryRowOnceInOrder | src/gcp/pii-registry-repository.ts:99-122 | Entries are the resources in order of first appearance, once each, with exactly their rows' fields in order; no row is lost |
| PiiAssembly.EntryFromFirstRow | src/gcp/pii-registry-repository.ts:37-82 | Owner, layer, deletion strategy, scan and scope columns of an entry follow from its first row, for every resource the same way |
| PiiPolicy.EvaluateEntry | src/services/pii-registry-service.ts:180-235 | Each issue is raised exactly when the entry's own fields call for it, and the status is FAIL, WARN or PASS by the issues raised |
| PiiPolicy.MartExactlyWhen | src/services/pii-registry-service.ts:182-184 | A resource is a mart if and only if the name after its last colon starts with mart_ or has .mart_ in it |
| Coverage.ClassifyEntry | src/services/pii-coverage.ts:78-104 | Exposed on FAIL; protected exactly when no reason was pushed, which is the full guarantee and a PASS |
| Coverage.ProtectedExactlyWhen | src/services/pii-coverage.ts:63-104 | Under its own policy an entry is exposed exactly if that fails, and protected if and only if it has fields, all unreadable without the key, is crypto-shredded, names its user and tenant columns and shows no identifier in a mart |
| Coverage.ComputeCoverage | src/services/pii-coverage.ts:133-158 | Score, counts and weights are the sums over the items, and the reported items are the items sorted stably: by state, then by falling weight, ties in their old order |
| Coverage.RollsAreOfState | src/services/pii-coverage.ts:137-149 | The counts number the items in each state and the weights add up just theirs |
| Coverage.SortedMeans | src/services/pii-coverage.ts:154-155 | Exposed items come first, protected ones last, and within a state the heavier ones first |
| Coverage.FieldWeighs | src/services/pii-coverage.ts:31-38 | What a field of each classification weighs |
| Coverage.FieldWeightsAddUp | src/services/pii-coverage.ts:41-44 | Fields' weights add up, and an entry without fields weighs half a point |
| Coverage.ColumnWeightsAddUp | src/services/pii-coverage.ts:58-61 | A finding weighs its columns together, and at least one point |
| Coverage.SumsAddUp | src/services/pii-coverage.ts:137-149 | The three weights and the three counts add up to their totals |
| Coverage.ScoreIsRounded | src/services/pii-coverage.ts:152-152 | The score is the protected share in percent, partial counting half, rounded half up |
| Coverage.ScoreIsAPercentage | src/services/pii-coverage.ts:151-152 | The score is within 0..100, and 100 if and only if at most half a percent of the weight is missing |
| Coverage.ScoreIgnoresOrder | src/services/pii-coverage.ts:137-152 | The score does not depend on the order of the items |
| Coverage.ImprovingNeverLowersTheScore | src/services/pii-coverage.ts:132-152 | Improving any items' states never lowers the score |
| Coverage.ToCoverageItems | src/services/pii-coverage.ts:107-130 | Declared resources by their own state and weight, then the undeclared findings |
| Coverage.FindingCountsExactlyWhen | src/services/pii-coverage.ts:117-127 | A finding counts as exposed if and only if no declared entry covers its resource |
| Coverage.UndeclaredAre | src/services/pii-coverage.ts:117-127 | The undeclared items are the uncovered findings in their order, once each |
| Coverage.NoResourceCountsTwice | src/services/pii-coverage.ts:117-127 | No resource is counted both as declared and as found |

## Left out

- DeletionService.DeletionRequestService.AdvanceRequest: lineage events and log lines are not modelled; other callers do not run in between (that is the step model), so the reply differs from the stored document in nothing but the history.
- DeletionService.DeletionRequestService.IssueAndStoreCertificate: RFC 3161 timestamps and Rekor entries are not modelled, as they never fail the issuance; the bucket is a map by request.
- CertificateChain.CertificateChainRepository.AppendToChain: one uncontended attempt; contention and repeated attempts are in the chain's step model.
- CertificateClaims.CertificateSigner.GenerateClaims: is always given a request id, as both callers do; one clock reading per call; shred date, fingerprint, certificate id and ghost-data summary are not in the claims.
- SigningKeys.CertificateService.RotateSigningKey: other callers do not run during the wait; in the run-level model a rotation is one step at its end, and one that gives up is a late enabling if its version is enabled after all.
- SigningKeys.NewestVersionsAgree: every version name has a number; names that do not parse are not modelled.
- Connectors.PlanIsTheConnected: names are lowered as ASCII.
- Declarations.DeclarationRepository.Upsert: the merge is modelled on the fields of the registry, the registers and the policy; the audit mirror is not part of this model.
- PiiRegistry.PiiRegistryService.MarkResourceSynced: no write comes between its read and its write; markResourceSyncAttempted has the same shape and is left out.
- PiiAssembly.Assemble: lineage evidence pointers and texts are not in the entries.
- Coverage.ComputeCoverage: weights are counted in halves and the quotient is exact, where the code divides in floating point.
- Coverage.ToCoverageItems: the estimate of a column's sensitivity from its name is a parameter.
- Ciphertexts.CipherRoundTrips: AES-GCM, base64 and the KMS unwrapping are parameters with stated laws.
- The step model has one request document: a certificate read looks at that request, not at the user's latest completed one.
- A read of the ghost-data findings that fails counts among the failing reads of issuance.
- Timestamps are integers in milliseconds; ISO texts matter only in the watermarks, which keep them.
- HTTP routing, validation, authentication, logging and start-up wiring.
- Generated SQL, the shadow-copy views and the encrypted-copy tables.
- Process crashes and several instances: outstanding cascades and caches live in one process's memory.
- Rotating and shredding one key at the same time: each registry operation is one step.
